/**
 * The order of publication of src/riskloom/runtime_bundle.py spelled out, down
 * to the characters, and for the five members of the bundle.
 */
module InstallOrder {
  import opened Common
  import opened Sorting
  import opened BundleInstall

  /** The first place where they differ: there `a` ends or has the smaller character. */
  predicate DiffersAt(a: string, b: string, i: nat) {
    && i <= |a| && i < |b| && a[..i] == b[..i]
    && (i < |a| ==> a[i] < b[i])
  }

  lemma {:induction false} LexLessMeans(a: string, b: string)
    ensures LexLess(a, b) <==> Comes(a, b)
  {
    if b == [] {
    } else if a == [] || a[0] < b[0] {
      assert DiffersAt(a, b, 0);
    } else {
      LexLessMeans(a[1..], b[1..]);
      if LexLess(a, b) {
        var i: nat :| DiffersAt(a[1..], b[1..], i);
        assert a[..i + 1] == [a[0]] + a[1..][..i] && b[..i + 1] == [b[0]] + b[1..][..i];
        assert DiffersAt(a, b, i + 1);
      }
      if i: nat :| DiffersAt(a, b, i) {
        assert i > 0;
        assert a[0] == a[..i][0] == b[..i][0] == b[0];
        assert a[1..][..i - 1] == a[..i][1..] && b[1..][..i - 1] == b[..i][1..];
        assert DiffersAt(a[1..], b[1..], i - 1);
      }
    }
  }

  /** `a` comes before `b` in the order of strings. */
  ghost predicate Comes(a: string, b: string) {
    exists i: nat :: DiffersAt(a, b, i)
  }

  lemma LessBy(a: string, b: string, i: nat)
    requires DiffersAt(a, b, i)
    ensures LexLess(a, b)
  {
    LexLessMeans(a, b);
  }

  /** A manifest is any file whose name ends in manifest.json. */
  lemma ManifestMeans(m: Member)
    ensures IsManifest(m) <==> exists stem :: m[|m| - 1] == stem + "manifest.json"
  {
    var suffix, name := "manifest.json", m[|m| - 1];
    if IsManifest(m) {
      assert name == name[..|name| - |suffix|] + suffix;
    }
    if stem :| name == stem + suffix {
      assert name[|name| - |suffix|..] == suffix;
    }
  }

  /** In the order of publication directories ascend; within one, data files come first and names ascend. */
  lemma OrderMeans(members: seq<Member>, i: nat, j: nat)
    requires i < j < |PublicationOrder(members)|
    ensures var a, b := PublicationOrder(members)[i], PublicationOrder(members)[j];
            var x, y := Join(a[..|a| - 1]), Join(b[..|b| - 1]);
            && (x == y || Comes(x, y))
            && (x == y && IsManifest(a) ==> IsManifest(b))
            && (x == y && (IsManifest(a) <==> IsManifest(b)) ==>
                  a[|a| - 1] == b[|b| - 1] || Comes(a[|a| - 1], b[|b| - 1]))
  {
    var a, b := PublicationOrder(members)[i], PublicationOrder(members)[j];
    assert Before(a, b);
    LexLessMeans(Join(Parent(a)), Join(Parent(b)));
    LexLessMeans(Name(a), Name(b));
  }

  lemma WithoutHead(a: seq<Member>)
    requires a != []
    ensures multiset(a[1..]) == multiset(a) - multiset{a[0]}
  {
    assert a == [a[0]] + a[1..];
  }

  /** No element comes before one in front of it. */
  ghost predicate Strict(b: seq<Member>) {
    forall i, j :: 0 <= i < j < |b| ==> !Before(b[j], b[i])
  }

  lemma StrictCons(x: Member, rest: seq<Member>)
    requires Strict(rest) && forall y: Member :: y in rest ==> !Before(y, x)
    ensures Strict([x] + rest)
  {
    hide Before;
    assert forall i :: 0 <= i < |rest| ==> rest[i] in rest;
  }

  lemma HeadsAgree(a: seq<Member>, b: seq<Member>)
    requires Ordered(a) && multiset(a) == multiset(b) && Strict(b) && b != []
    ensures a != [] && a[0] == b[0]
  {
    hide Before;
    assert b[0] in multiset(a);
    assert a[0] in multiset(b);
    var k :| 0 <= k < |b| && b[k] == a[0];
    var l :| 0 <= l < |a| && a[l] == b[0];
  }

  /** A list in strictly ascending order is what sorting any of its reorderings gives. */
  lemma {:induction false} SortedOnce(a: seq<Member>, b: seq<Member>)
    requires Ordered(a) && multiset(a) == multiset(b) && Strict(b)
    ensures a == b
  {
    if b == [] {
      assert |multiset(a)| == 0;
    } else {
      HeadsAgree(a, b);
      WithoutHead(a);
      WithoutHead(b);
      SortedOnce(a[1..], b[1..]);
      assert a == [a[0]] + a[1..] && b == [b[0]] + b[1..];
    }
  }

  // ----- the bundle

  const MODEL: Path := ["artifacts", "models", "development"]
  const FEATURES: Path := ["artifacts", "features", "development-v1.1.0-config-bound"]
  const EVALUATION: Path := ["artifacts", "evaluations", "development"]

  const BUNDLE: seq<Member> := [
    MODEL + ["model.json"], MODEL + ["training_report.json"], MODEL + ["manifest.json"],
    FEATURES + ["manifest.json"], EVALUATION + ["evaluation.json"]
  ]

  /** Paths are spelled with slashes. */
  lemma JoinThree(x: string, y: string, z: string)
    ensures Join([x, y, z]) == x + "/" + (y + "/" + z)
  {
    assert Join([z]) == z;
    assert [y, z][1..] == [z] && [x, y, z][1..] == [y, z];
    assert Join([y, z]) == y + "/" + Join([z]);
    assert Join([x, y, z]) == x + "/" + Join([y, z]);
  }

  lemma {:induction false} SharedPrefix(p: string, a: string, b: string)
    ensures LexLess(p + a, p + b) <==> LexLess(a, b)
  {
    if p == "" {
      assert p + a == a && p + b == b;
    } else {
      SharedPrefix(p[1..], a, b);
      assert (p + a)[1..] == p[1..] + a && (p + b)[1..] == p[1..] + b;
    }
  }

  lemma FirstDecides(a: string, b: string)
    requires a != "" && b != "" && a[0] < b[0]
    ensures LexLess(a, b) && !LexLess(b, a) && a != b
  {
  }

  lemma SlashedAscend(root: string, a: string, b: string, x: string, y: string)
    requires a != "" && b != "" && a[0] < b[0]
    ensures LexLess(Join([root, a, x]), Join([root, b, y])) && !LexLess(Join([root, b, y]), Join([root, a, x]))
    ensures Join([root, a, x]) != Join([root, b, y])
  {
    JoinThree(root, a, x);
    JoinThree(root, b, y);
    FirstDecides(a + "/" + x, b + "/" + y);
    SharedPrefix(root + "/", a + "/" + x, b + "/" + y);
    SharedPrefix(root + "/", b + "/" + y, a + "/" + x);
  }

  lemma DirectoriesAscend()
    ensures LexLess(Join(EVALUATION), Join(FEATURES)) && LexLess(Join(FEATURES), Join(MODEL)) && LexLess(Join(EVALUATION), Join(MODEL))
    ensures !LexLess(Join(FEATURES), Join(EVALUATION)) && !LexLess(Join(MODEL), Join(FEATURES)) && !LexLess(Join(MODEL), Join(EVALUATION))
    ensures Join(FEATURES) != Join(EVALUATION) && Join(MODEL) != Join(FEATURES) && Join(MODEL) != Join(EVALUATION)
  {
    hide LexLess, Join;
    SlashedAscend("artifacts", "evaluations", "features", "development", "development-v1.1.0-config-bound");
    SlashedAscend("artifacts", "features", "models", "development-v1.1.0-config-bound", "development");
    SlashedAscend("artifacts", "evaluations", "models", "development", "development");
  }

  lemma ModelFiles()
    ensures LexLess("model.json", "training_report.json") && !LexLess("training_report.json", "model.json")
    ensures "model.json" != "training_report.json"
  {
    FirstDecides("model.json", "training_report.json");
  }

  lemma OtherDirectory(a: Member, b: Member)
    requires Join(Parent(a)) != Join(Parent(b)) && !LexLess(Join(Parent(b)), Join(Parent(a)))
    ensures !Before(b, a)
  {
  }

  lemma ModelDirectory(d: Member, t: Member, m: Member)
    requires d == MODEL + ["model.json"] && t == MODEL + ["training_report.json"] && m == MODEL + ["manifest.json"]
    ensures Parent(d) == MODEL && Parent(t) == MODEL && Parent(m) == MODEL
    ensures !Before(t, d) && !Before(m, t) && !Before(m, d)
  {
    ModelFiles();
    assert Parent(d) == Parent(t) == Parent(m) == MODEL;
    assert IsManifest(m) by {
      assert "manifest.json"[0..] == "manifest.json";
    }
    assert !IsManifest(d);
    assert !IsManifest(t) by {
      assert "training_report.json"[7..][0] == 'g';
    }
    hide LexLess, Join, MODEL, IsManifest;
  }

  /** The bundle is published evaluation first, then the feature manifest, then the model's two data files and its manifest. */
  lemma BundleOrder()
    ensures PublicationOrder(BUNDLE) == [
              EVALUATION + ["evaluation.json"], FEATURES + ["manifest.json"],
              MODEL + ["model.json"], MODEL + ["training_report.json"], MODEL + ["manifest.json"]]
  {
    var e: Member, f: Member := EVALUATION + ["evaluation.json"], FEATURES + ["manifest.json"];
    var d: Member, t: Member, m: Member := MODEL + ["model.json"], MODEL + ["training_report.json"], MODEL + ["manifest.json"];
    assert BUNDLE == [d, t, m, f, e];
    DirectoriesAscend();
    ModelDirectory(d, t, m);
    assert Parent(e) == EVALUATION && Parent(f) == FEATURES;
    hide LexLess, Join, MODEL, FEATURES, EVALUATION, Before, BUNDLE, PublicationOrder;
    OtherDirectory(e, f);
    OtherDirectory(e, d);
    OtherDirectory(e, t);
    OtherDirectory(e, m);
    OtherDirectory(f, d);
    OtherDirectory(f, t);
    OtherDirectory(f, m);
    FiveStrict(e, f, d, t, m);
    var three: seq<Member> := [d, t, m];
    assert BUNDLE == (three + [f]) + [e];
    assert [e, f, d, t, m] == [e] + ([f] + three);
    RotatedOrder(PublicationOrder(BUNDLE), three, [f], [e]);
  }

  lemma Rotated<T>(s: seq<T>, f: seq<T>, e: seq<T>)
    ensures multiset((s + f) + e) == multiset(e + (f + s))
  {
  }

  lemma FiveStrict(e: Member, f: Member, d: Member, t: Member, m: Member)
    requires !Before(f, e) && !Before(d, e) && !Before(t, e) && !Before(m, e)
    requires !Before(d, f) && !Before(t, f) && !Before(m, f) && !Before(t, d) && !Before(m, d) && !Before(m, t)
    ensures Strict([e, f, d, t, m])
  {
    hide Before;
    var three: seq<Member> := [d, t, m];
    assert Strict(three);
    var four: seq<Member> := [f] + three;
    StrictCons(f, three);
    StrictCons(e, four);
    assert [e, f, d, t, m] == [e] + four;
  }

  lemma RotatedOrder(order: seq<Member>, s: seq<Member>, f: seq<Member>, e: seq<Member>)
    requires Ordered(order) && multiset(order) == multiset((s + f) + e) && Strict(e + (f + s))
    ensures order == e + (f + s)
  {
    hide Before, Ordered, Strict;
    Rotated(s, f, e);
    SortedOnce(order, e + (f + s));
  }
}
