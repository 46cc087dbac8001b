/**
 * Publishing the runtime bundle into a file tree, with rollback
 * (src/riskloom/runtime_bundle.py).
 *
 * Paths are relative to the destination root.  The staging directory has a
 * fresh name of its own, so it is kept apart from the tree.  Every operation
 * that can raise OSError asks an oracle: one for publishing, one for removing.
 */
module BundleInstall {
  import opened Common
  import opened Sorting

  type Path = seq<string>
  type Content = string

  datatype Node = File(content: Content) | Directory

  type Tree = map<Path, Node>

  /** A bundle member is the path of a file. */
  type Member = p: Path | p != [] witness ["manifest.json"]

  datatype InstallError =
    | MemberMissing | ModelDirectoryHasUnknownFiles | StagingFailed
    | DestinationNotAFile | DestinationUnreadable | DestinationConflict
    | PublicationFailed | SymlinkedParent | VerificationFailed

  /** Every node but the root sits in a directory. */
  ghost predicate WellFormedTree(t: Tree) {
    && [] in t && t[[]] == Directory
    && forall p :: p in t && p != [] ==> Parent(p) in t && t[Parent(p)] == Directory
  }

  function Parent(p: Member): Path {
    p[..|p| - 1]
  }

  function Name(p: Member): string {
    p[|p| - 1]
  }

  // ----- publication order

  predicate LexLess(a: string, b: string) {
    b != [] && (a == [] || a[0] < b[0] || (a[0] == b[0] && LexLess(a[1..], b[1..])))
  }

  lemma {:induction false} LexTotal(a: string, b: string)
    ensures a == b || LexLess(a, b) || LexLess(b, a)
    ensures !(LexLess(a, b) && LexLess(b, a)) && !LexLess(a, a)
  {
    if a != [] {
      LexTotal(a[1..], a[1..]);
      if b != [] && a[0] == b[0] {
        LexTotal(a[1..], b[1..]);
        assert a[1..] == b[1..] ==> a == b by {
          assert a == [a[0]] + a[1..] && b == [b[0]] + b[1..];
        }
      }
    }
  }

  lemma {:induction false} LexChains(a: string, b: string, c: string)
    requires LexLess(a, b) && LexLess(b, c)
    ensures LexLess(a, c)
  {
    if a != [] && a[0] == b[0] == c[0] {
      LexChains(a[1..], b[1..], c[1..]);
    }
  }

  function Join(p: Path): string {
    if p == [] then "" else if |p| == 1 then p[0] else p[0] + "/" + Join(p[1..])
  }

  predicate IsManifest(m: Member) {
    var suffix := "manifest.json";
    |Name(m)| >= |suffix| && Name(m)[|Name(m)| - |suffix|..] == suffix
  }

  /** The sort key: directory, then data before manifests, then name. */
  predicate Before(a: Member, b: Member) {
    var x, y := Join(Parent(a)), Join(Parent(b));
    if x != y then LexLess(x, y)
    else if IsManifest(a) != IsManifest(b) then IsManifest(b)
    else Name(a) == Name(b) || LexLess(Name(a), Name(b))
  }

  lemma BeforeTotal(a: Member, b: Member)
    ensures Before(a, b) || Before(b, a)
  {
    LexTotal(Join(Parent(a)), Join(Parent(b)));
    LexTotal(Name(a), Name(b));
  }

  lemma BeforeChains(a: Member, b: Member, c: Member)
    requires Before(a, b) && Before(b, c)
    ensures Before(a, c)
  {
    var x, y, z := Join(Parent(a)), Join(Parent(b)), Join(Parent(c));
    LexTotal(x, y);
    LexTotal(y, z);
    LexTotal(x, z);
    if x != y && y != z {
      LexChains(x, y, z);
    }
    if LexLess(Name(a), Name(b)) && LexLess(Name(b), Name(c)) {
      LexChains(Name(a), Name(b), Name(c));
    }
  }

  lemma BeforeIsTotal()
    ensures Transitive(Before) && forall a, b :: Before(a, b) || Before(b, a)
  {
    forall a, b, c
      ensures Before(a, b) || Before(b, a)
      ensures Before(a, b) && Before(b, c) ==> Before(a, c)
    {
      BeforeTotal(a, b);
      if Before(a, b) && Before(b, c) {
        BeforeChains(a, b, c);
      }
    }
  }

  ghost predicate Ordered(ms: seq<Member>) {
    forall i, j :: 0 <= i < j < |ms| ==> Before(ms[i], ms[j])
  }

  function PublicationOrder(members: seq<Member>): (out: seq<Member>)
    ensures Ordered(out) && multiset(out) == multiset(members)
    ensures forall x :: x in out <==> x in members
  {
    BeforeIsTotal();
    SortBy(Before, members)
  }

  // ----- what an installation adds

  /** The tree with some directories and some members' files added. */
  function Overlay(base: Tree, dirs: set<Path>, files: set<Path>, artifacts: map<Path, Content>): Tree
    requires files <= artifacts.Keys
  {
    map p | p in base.Keys + dirs + files ::
      if p in files then File(artifacts[p]) else if p in dirs then Directory else base[p]
  }

  /** The members that are not there yet, in publication order. */
  function PendingOf(order: seq<Member>, t: Tree): seq<Member> {
    if order == [] then []
    else PendingOf(order[..|order| - 1], t) + if order[|order| - 1] in t then [] else [order[|order| - 1]]
  }

  lemma {:induction false} PendingMembers(order: seq<Member>, t: Tree, m: Member)
    ensures m in PendingOf(order, t) <==> m in order && m !in t
  {
    if order != [] {
      PendingMembers(order[..|order| - 1], t, m);
      assert order == order[..|order| - 1] + [order[|order| - 1]];
    }
  }

  lemma {:induction false} PendingDistinct(order: seq<Member>, t: Tree)
    requires Distinct(order)
    ensures Distinct(PendingOf(order, t))
  {
    if order != [] {
      var n := |order| - 1;
      PendingDistinct(order[..n], t);
      PendingMembers(order[..n], t, order[n]);
    }
  }

  /** A pending manifest comes after every pending data file of its directory. */
  lemma {:induction false} DataBeforeManifest(order: seq<Member>, t: Tree, k: nat, data: Member)
    requires Ordered(order) && k < |PendingOf(order, t)|
    requires var m := PendingOf(order, t)[k];
             IsManifest(m) && !IsManifest(data) && Parent(data) == Parent(m)
    requires data in order && data !in t
    ensures data in PendingOf(order, t)[..k]
  {
    var n := |order| - 1;
    var last := order[n];
    var before := PendingOf(order[..n], t);
    assert order == order[..n] + [last];
    var m := PendingOf(order, t)[k];
    PendingMembers(order[..n], t, data);
    if k < |before| {
      PendingMembers(order[..n], t, m);
      assert m in before;
      var i :| 0 <= i < n && order[..n][i] == m;
      assert Before(order[i], order[n]);
      DataBeforeManifest(order[..n], t, k, data);
      assert PendingOf(order, t)[..k] == before[..k];
    } else {
      assert PendingOf(order, t)[..k] == before;
    }
  }

  /** Every manifest that is new has all the data files of its directory beside it. */
  ghost predicate Complete(base: Tree, t: Tree, order: seq<Member>, artifacts: map<Path, Content>) {
    forall m, data :: m in order && data in order && Describes(m, data) && m !in base && m in t && t[m].File? && data in artifacts
      ==> data in t && t[data] == File(artifacts[data])
  }

  predicate Describes(m: Member, data: Member) {
    IsManifest(m) && !IsManifest(data) && Parent(data) == Parent(m)
  }

  /** So any initial run of the pending members leaves a complete tree. */
  lemma PrefixIsComplete(base: Tree, dirs: set<Path>, order: seq<Member>, k: nat, artifacts: map<Path, Content>)
    requires Ordered(order) && k <= |PendingOf(order, base)|
    requires forall m :: m in order ==> m in artifacts && (m in base ==> base[m] == File(artifacts[m]))
    requires forall m :: m in PendingOf(order, base) ==> m in order
    requires dirs !! base.Keys
    ensures Complete(base, Overlay(base, dirs, SetOf(PendingOf(order, base)[..k]), artifacts), order, artifacts)
  {
    var pending := PendingOf(order, base);
    var t := Overlay(base, dirs, SetOf(pending[..k]), artifacts);
    forall m, data | m in order && data in order && Describes(m, data)
        && m !in base && m in t && t[m].File?
      ensures data in t && t[data] == File(artifacts[data])
    {
      if data !in base {
        var i :| 0 <= i < k && pending[..k][i] == m;
        DataBeforeManifest(order, base, i, data);
        assert data in pending[..k];
      }
    }
  }

  datatype Fault = Fine | OsError | Symlink

  /** What was added so far, in the order it was added. */
  datatype Added = Added(dirs: seq<Member>, files: seq<Member>)

  ghost predicate DirsOk(base: Tree, dirs: seq<Member>) {
    && Distinct(dirs)
    && (forall d :: d in dirs ==> d !in base)
    && (forall k :: 0 <= k < |dirs| ==> Parent(dirs[k]) in base || Parent(dirs[k]) in dirs[..k])
  }

  /** The directory lies on the way to one of the members. */
  ghost predicate AboveSome(d: Path, members: seq<Member>) {
    exists m :: m in members && d < m
  }

  ghost predicate FilesOk(base: Tree, added: Added, artifacts: map<Path, Content>) {
    && Distinct(added.files)
    && (forall f :: f in added.files ==> f in artifacts && f !in base && f !in added.dirs)
  }

  ghost predicate AddedOk(base: Tree, added: Added, artifacts: map<Path, Content>) {
    DirsOk(base, added.dirs) && FilesOk(base, added, artifacts)
  }

  ghost function TreeOf(base: Tree, added: Added, artifacts: map<Path, Content>): Tree
    requires forall f :: f in added.files ==> f in artifacts
  {
    Overlay(base, SetOf(added.dirs), SetOf(added.files), artifacts)
  }

  ghost predicate NoManifestIn(paths: multiset<Path>) {
    forall m: Member :: m in paths ==> !IsManifest(m)
  }

  lemma NoManifestInFewer(fewer: multiset<Path>, paths: multiset<Path>)
    requires fewer <= paths
    ensures NoManifestIn(paths) ==> NoManifestIn(fewer)
  {
  }

  class Disk {
    var tree: Tree
    var staging: bool
    var clock: nat
    const faults: nat -> Fault
    /** Whether the removal with this number raises, and how many there were. */
    const refuses: nat -> bool
    var removals: nat
    /** Every tree since the disk was opened, oldest first. */
    ghost var history: seq<Tree>
    /** What was there and was not removed when it should have been, each time. */
    ghost var refused: multiset<Path>

    constructor (tree: Tree, faults: nat -> Fault, refuses: nat -> bool)
      ensures this.tree == tree && this.faults == faults && this.refuses == refuses
      ensures !staging && history == [] && refused == multiset{}
    {
      this.tree, this.faults, this.refuses := tree, faults, refuses;
      staging, clock, removals, history, refused := false, 0, 0, [], multiset{};
    }

    /** Every removal succeeds. */
    ghost predicate Removable() {
      forall k: nat :: !refuses(k)
    }

    ghost predicate NoManifestRefused()
      reads this
    {
      NoManifestIn(refused)
    }

    /** Nothing ever goes wrong by itself. */
    ghost predicate Quiet() {
      forall k: nat :: faults(k) == Fine
    }

    method NextFault() returns (f: Fault)
      modifies this`clock
      ensures f == faults(old(clock))
    {
      f := faults(clock);
      clock := clock + 1;
    }

    method Mkdir(p: Member) returns (ok: bool)
      modifies this
      ensures staging == old(staging) && refused == old(refused)
      ensures ok <==> faults(old(clock)) != OsError && p !in old(tree) && Parent(p) in old(tree) && old(tree)[Parent(p)] == Directory
      ensures tree == if ok then old(tree)[p := Directory] else old(tree)
      ensures history == old(history) + [tree]
    {
      var f := NextFault();
      ok := !f.OsError? && p !in tree && Parent(p) in tree && tree[Parent(p)] == Directory;
      if ok {
        tree := tree[p := Directory];
      }
      history := history + [tree];
    }

    /** Move a staged file into place; it replaces a file but not a directory. */
    method Replace(p: Member, content: Content) returns (ok: bool)
      modifies this
      ensures staging == old(staging) && refused == old(refused)
      ensures ok <==>
                && faults(old(clock)) != OsError && (p in old(tree) ==> old(tree)[p].File?)
                && Parent(p) in old(tree) && old(tree)[Parent(p)] == Directory
      ensures tree == if ok then old(tree)[p := File(content)] else old(tree)
      ensures history == old(history) + [tree]
    {
      var f := NextFault();
      ok := !f.OsError? && (p in tree ==> tree[p].File?) && Parent(p) in tree && tree[Parent(p)] == Directory;
      if ok {
        tree := tree[p := File(content)];
      }
      history := history + [tree];
    }

    method Unlink(p: Member)
      modifies this
      ensures staging == old(staging) && clock == old(clock) && removals == old(removals) + 1
      ensures tree == if refuses(old(removals)) then old(tree) else old(tree) - {p}
      ensures refused == old(refused) + if refuses(old(removals)) && p in old(tree) then multiset{p} else multiset{}
      ensures history == old(history) + [tree]
    {
      var raised := refuses(removals);
      if raised {
        refused := refused + if p in tree then multiset{p} else multiset{};
      } else {
        tree := tree - {p};
      }
      removals := removals + 1;
      history := history + [tree];
    }

    /** Removes only an empty directory. */
    method Rmdir(p: Member)
      modifies this
      ensures staging == old(staging) && clock == old(clock) && removals == old(removals) + 1
      ensures tree == if refuses(old(removals)) || HasChild(old(tree), p) then old(tree) else old(tree) - {p}
      ensures refused == old(refused) + if refuses(old(removals)) && p in old(tree) then multiset{p} else multiset{}
      ensures history == old(history) + [tree]
    {
      var raised := refuses(removals);
      if raised {
        refused := refused + if p in tree then multiset{p} else multiset{};
      } else if !HasChild(tree, p) {
        tree := tree - {p};
      }
      removals := removals + 1;
      history := history + [tree];
    }

    /**
     * Create the missing directories above a member, outermost first.  The
     * source creates all but the innermost in a loop and that one afterwards.
     */
    method MakeParents(m: Member, ghost base: Tree, before: Added, ghost order: seq<Member>, ghost artifacts: map<Path, Content>)
      returns (ok: bool, added: Added)
      requires WellFormedTree(tree) && AddedOk(base, before, artifacts)
      requires tree == TreeOf(base, before, artifacts)
      requires PrefixesComplete(base, before.files, order, artifacts)
      modifies this
      ensures WellFormedTree(tree)
      ensures AddedOk(base, added, artifacts) && added.files == before.files
      ensures tree == TreeOf(base, added, artifacts) && staging == old(staging) && refused == old(refused)
      ensures forall d :: d in added.dirs ==> d in before.dirs || d < m
      ensures Quiet() && WayClear(old(tree), m) ==> ok && Parent(m) in tree && tree[Parent(m)] == Directory
      ensures Recorded(old(history), base, order, artifacts)
    {
      hide DirsOk;
      hide FilesOk;
      hide PrefixesComplete;
      hide Complete;
      hide Overlay;
      hide WayClear;
      FilesAreArtifacts(base, before, artifacts);
      ok, added := true, before;
      assert m[..0] == [];
      RootIsDirectory(tree);
      for length := 1 to |m|
        invariant WellFormedTree(tree)
        invariant AddedOk(base, added, artifacts) && added.files == before.files
        invariant tree == TreeOf(base, added, artifacts) && staging == old(staging) && refused == old(refused)
        invariant forall d :: d in added.dirs ==> d in before.dirs || d < m
        invariant WayClear(old(tree), m) ==> WayClear(tree, m)
        invariant ok && m[..length - 1] in tree
        invariant Recorded(old(history), base, order, artifacts)
      {
        ghost var was := tree;
        assert Parent(m[..length]) == m[..length - 1];
        ok, added := MakeParent(m[..length], base, added, order, artifacts);
        StaysClear(was, m, length, tree);
        if !ok {
          return;
        }
      }
      ParentIsDirectory(tree, m);
    }

    /** One directory, if it is missing. */
    method MakeParent(directory: Member, ghost base: Tree, before: Added, ghost order: seq<Member>, ghost artifacts: map<Path, Content>)
      returns (ok: bool, added: Added)
      requires WellFormedTree(tree) && AddedOk(base, before, artifacts)
      requires tree == TreeOf(base, before, artifacts)
      requires PrefixesComplete(base, before.files, order, artifacts)
      modifies this
      ensures WellFormedTree(tree)
      ensures AddedOk(base, added, artifacts) && added.files == before.files
      ensures tree == TreeOf(base, added, artifacts) && staging == old(staging) && refused == old(refused)
      ensures added.dirs == before.dirs || added.dirs == before.dirs + [directory]
      ensures tree == old(tree) || (directory !in old(tree) && tree == old(tree)[directory := Directory])
      ensures ok ==> directory in tree
      ensures Quiet() && Parent(directory) in old(tree) && old(tree)[Parent(directory)] == Directory ==> ok
      ensures old(history) <= history && Recorded(old(history), base, order, artifacts)
    {
      hide DirsOk;
      hide FilesOk;
      hide PrefixesComplete;
      hide Complete;
      FilesAreArtifacts(base, before, artifacts);
      added := before;
      if directory !in tree {
        DirectoryAdded(base, added, directory, artifacts);
        var made := Mkdir(directory);
        CompleteNow(base, added, order, artifacts);
        if !made {
          return false, added;
        }
        DirectoryAddedOk(base, added, directory, artifacts);
        added := added.(dirs := added.dirs + [directory]);
        CompleteNow(base, added, order, artifacts);
      }
      return true, added;
    }

    /**
     * Take back what was added: files last first, then directories last first,
     * going on after a removal that raises.
     */
    method RollBack(ghost base: Tree, added: Added, ghost order: seq<Member>, ghost artifacts: map<Path, Content>)
      returns (ghost stuck: set<Path>)
      requires WellFormedTree(base) && AddedOk(base, added, artifacts)
      requires WellFormedTree(tree) && Between(base, tree, added, artifacts)
      requires PrefixesComplete(base, added.files, order, artifacts)
      requires NoManifestRefused() ==> Complete(base, tree, order, artifacts)
      modifies this
      ensures staging == old(staging) && clock == old(clock)
      ensures WellFormedTree(tree) && LeftOver(base, tree, added, stuck, artifacts)
      ensures forall p :: p in tree ==> p in old(tree)
      ensures RefusedFrom(refuses, added.files, 0, old(tree), old(removals), stuck)
      ensures RefusedFrom(refuses, added.dirs, 0, old(tree), old(removals) + |added.files|, stuck)
      ensures refused == old(refused) + multiset(stuck) && (Removable() ==> stuck == {})
      ensures NoManifestRefused() ==> Recorded(old(history), base, order, artifacts) && Complete(base, tree, order, artifacts)
    {
      hide Complete, PrefixesComplete, Unlinked, Emptied, WellFormedTree, AddedOk, LeftOver, RefusedFrom, Between, NoManifestIn;
      ghost var was := tree;
      ghost var files := UnlinkAll(base, added, order, artifacts);
      ghost var mid, held := tree, refused;
      ghost var dirs := RmdirAll(base, added, order, artifacts);
      stuck := files + dirs;
      NoManifestInFewer(held, refused);
      BothPasses(base, was, mid, tree, added, files, dirs, refuses, old(removals), artifacts);
      if Removable() {
        NoneStuck(refuses, base, was, tree, added, stuck, old(removals), artifacts);
      }
    }

    method UnlinkAll(ghost base: Tree, added: Added, ghost order: seq<Member>, ghost artifacts: map<Path, Content>)
      returns (ghost stuck: set<Path>)
      requires AddedOk(base, added, artifacts)
      requires WellFormedTree(tree) && Between(base, tree, added, artifacts)
      requires PrefixesComplete(base, added.files, order, artifacts)
      requires NoManifestRefused() ==> Complete(base, tree, order, artifacts)
      modifies this
      ensures staging == old(staging) && clock == old(clock) && removals == old(removals) + |added.files|
      ensures WellFormedTree(tree) && Between(base, tree, added, artifacts)
      ensures Unlinked(old(tree), tree, added.files, 0, stuck)
      ensures RefusedFrom(refuses, added.files, 0, old(tree), old(removals), stuck) && refused == old(refused) + multiset(stuck)
      ensures NoManifestRefused() ==> Recorded(old(history), base, order, artifacts) && Complete(base, tree, order, artifacts)
    {
      hide Complete, PrefixesComplete, Unlinked, RefusedFrom, Between, WellFormedTree, AddedOk;
      var files := added.files;
      stuck := {};
      NothingUnlinked(refuses, tree, files, removals);
      for k := |files| downto 0
        invariant staging == old(staging) && clock == old(clock) && removals == old(removals) + |files| - k
        invariant Unlinked(old(tree), tree, files, k, stuck) && refused == old(refused) + multiset(stuck)
        invariant RefusedFrom(refuses, files, k, old(tree), old(removals), stuck)
        invariant NoManifestRefused() ==> Recorded(old(history), base, order, artifacts)
      {
        stuck := UnlinkNext(base, old(tree), added, k, stuck, old(refused), old(removals), order, artifacts);
      }
      UnlinkedTree(base, old(tree), tree, added, stuck, artifacts);
      if NoManifestRefused() {
        StillComplete(base, old(tree), tree, added, 0, stuck, order, artifacts);
      }
    }

    method UnlinkNext(ghost base: Tree, ghost before: Tree, added: Added, k: nat, ghost stuck: set<Path>,
                      ghost held: multiset<Path>, ghost start: nat, ghost order: seq<Member>, ghost artifacts: map<Path, Content>)
      returns (ghost next: set<Path>)
      requires AddedOk(base, added, artifacts) && Between(base, before, added, artifacts) && k < |added.files|
      requires PrefixesComplete(base, added.files, order, artifacts)
      requires removals == start + |added.files| - 1 - k && refused == held + multiset(stuck)
      requires Unlinked(before, tree, added.files, k + 1, stuck) && RefusedFrom(refuses, added.files, k + 1, before, start, stuck)
      requires NoManifestRefused() ==> Complete(base, before, order, artifacts)
      modifies this
      ensures staging == old(staging) && clock == old(clock) && removals == old(removals) + 1
      ensures Unlinked(before, tree, added.files, k, next) && RefusedFrom(refuses, added.files, k, before, start, next)
      ensures refused == held + multiset(next) && old(refused) <= refused
      ensures history == old(history) + [tree] && (NoManifestRefused() ==> Complete(base, tree, order, artifacts))
    {
      hide Complete, PrefixesComplete, Unlinked, RefusedFrom, Between, WellFormedTree;
      FilesAreDistinct(base, added, artifacts);
      next := Raised(refuses(removals), before, added.files[k], stuck);
      UnlinkStep(refuses, before, tree, added.files, k, stuck, start);
      hide FilesOk, DirsOk, Raised;
      Unlink(added.files[k]);
      if NoManifestRefused() {
        StillComplete(base, before, tree, added, k, next, order, artifacts);
      }
    }

    method RmdirAll(ghost base: Tree, added: Added, ghost order: seq<Member>, ghost artifacts: map<Path, Content>)
      returns (ghost stuck: set<Path>)
      requires WellFormedTree(base) && AddedOk(base, added, artifacts)
      requires WellFormedTree(tree) && Between(base, tree, added, artifacts)
      requires NoManifestRefused() ==> Complete(base, tree, order, artifacts)
      modifies this
      ensures staging == old(staging) && clock == old(clock)
      ensures WellFormedTree(tree) && Between(base, tree, added, artifacts)
      ensures Emptied(old(tree), tree, added.dirs, 0, stuck)
      ensures RefusedFrom(refuses, added.dirs, 0, old(tree), old(removals), stuck) && refused == old(refused) + multiset(stuck)
      ensures NoManifestRefused() ==> Recorded(old(history), base, order, artifacts) && Complete(base, tree, order, artifacts)
    {
      hide Complete, Emptied, RefusedFrom, Between, WellFormedTree, AddedOk;
      var dirs := added.dirs;
      stuck := {};
      NothingEmptied(refuses, tree, dirs, removals);
      for k := |dirs| downto 0
        invariant staging == old(staging) && clock == old(clock) && removals == old(removals) + |dirs| - k
        invariant WellFormedTree(tree) && Between(base, tree, added, artifacts)
        invariant Emptied(old(tree), tree, dirs, k, stuck) && refused == old(refused) + multiset(stuck)
        invariant RefusedFrom(refuses, dirs, k, old(tree), old(removals), stuck)
        invariant NoManifestRefused() ==> Recorded(old(history), base, order, artifacts) && Complete(base, tree, order, artifacts)
      {
        stuck := RmdirNext(base, old(tree), added, k, stuck, old(refused), old(removals), order, artifacts);
      }
    }

    method RmdirNext(ghost base: Tree, ghost before: Tree, added: Added, k: nat, ghost stuck: set<Path>,
                     ghost held: multiset<Path>, ghost start: nat, ghost order: seq<Member>, ghost artifacts: map<Path, Content>)
      returns (ghost next: set<Path>)
      requires WellFormedTree(base) && AddedOk(base, added, artifacts) && k < |added.dirs|
      requires WellFormedTree(tree) && Between(base, tree, added, artifacts)
      requires removals == start + |added.dirs| - 1 - k && refused == held + multiset(stuck)
      requires Emptied(before, tree, added.dirs, k + 1, stuck) && RefusedFrom(refuses, added.dirs, k + 1, before, start, stuck)
      requires NoManifestRefused() ==> Complete(base, tree, order, artifacts)
      modifies this
      ensures staging == old(staging) && clock == old(clock) && removals == old(removals) + 1
      ensures WellFormedTree(tree) && Between(base, tree, added, artifacts)
      ensures Emptied(before, tree, added.dirs, k, next) && RefusedFrom(refuses, added.dirs, k, before, start, next)
      ensures refused == held + multiset(next) && old(refused) <= refused
      ensures history == old(history) + [tree] && (NoManifestRefused() ==> Complete(base, tree, order, artifacts))
    {
      hide Complete, Emptied, RefusedFrom, Between, WellFormedTree, AddedOk, HasChild, Raised, NoManifestIn;
      ghost var was, low := tree, refused;
      next := Raised(refuses(removals), before, added.dirs[k], stuck);
      DirsRefused(refuses, base, before, tree, added, k, stuck, start, artifacts);
      Rmdir(added.dirs[k]);
      RmdirStep(refuses(old(removals)), base, before, was, tree, added, k, stuck, artifacts);
      NoManifestInFewer(low, refused);
      if NoManifestRefused() {
        DirectoryIsNoData(base, was, tree, added, k, order, artifacts);
      }
    }

    /** Sort the members into those to publish and those already there; any mismatch refuses everything. */
    method Classify(order: seq<Member>, artifacts: map<Path, Content>) returns (r: Result<(seq<Member>, seq<Member>), InstallError>)
      requires forall m :: m in order ==> m in artifacts
      modifies this`clock
      ensures r.Ok? ==>
                && r.value.0 == PendingOf(order, tree)
                && (forall m :: m in r.value.1 <==> m in order && m in tree)
                && (forall m :: m in order && m in tree ==> tree[m] == File(artifacts[m]))
      ensures r.Err? ==> r.error in {DestinationNotAFile, DestinationUnreadable, DestinationConflict}
      ensures r == Err(DestinationNotAFile) ==> exists m :: m in order && m in tree && tree[m] == Directory
      ensures r == Err(DestinationUnreadable) ==> !Quiet()
      ensures r == Err(DestinationConflict) ==> exists m :: m in order && m in tree && tree[m].File? && tree[m] != File(artifacts[m])
    {
      var pending: seq<Member>, already: seq<Member> := [], [];
      for i := 0 to |order|
        invariant pending == PendingOf(order[..i], tree)
        invariant forall m :: m in already <==> m in order[..i] && m in tree
        invariant forall m :: m in order[..i] && m in tree ==> tree[m] == File(artifacts[m])
      {
        var m := order[i];
        assert order[..i + 1] == order[..i] + [m];
        if m !in tree {
          pending := pending + [m];
        } else {
          if !tree[m].File? {
            return Err(DestinationNotAFile);
          }
          var f := NextFault();
          if f.OsError? {
            return Err(DestinationUnreadable);
          }
          if tree[m] != File(artifacts[m]) {
            return Err(DestinationConflict);
          }
          already := already + [m];
        }
      }
      assert order[..|order|] == order;
      return Ok((pending, already));
    }

    /** Publish one member: stage, make its directories, check for links, move into place. */
    method PublishOne(m: Member, ghost base: Tree, before: Added, ghost order: seq<Member>, artifacts: map<Path, Content>)
      returns (error: Option<InstallError>, added: Added)
      requires WellFormedTree(tree) && AddedOk(base, before, artifacts)
      requires tree == TreeOf(base, before, artifacts)
      requires PrefixesComplete(base, before.files, order, artifacts)
      requires m in artifacts && m !in base && m !in before.files
      requires PrefixesComplete(base, before.files + [m], order, artifacts)
      modifies this
      ensures WellFormedTree(tree) && staging == old(staging) && refused == old(refused)
      ensures AddedOk(base, added, artifacts) && added.files == if error.None? then before.files + [m] else before.files
      ensures tree == TreeOf(base, added, artifacts)
      ensures error.Some? ==> error.value == PublicationFailed || error.value == SymlinkedParent
      ensures forall d :: d in added.dirs ==> d in before.dirs || d < m
      ensures Quiet() && WayClear(old(tree), m) && m !in old(tree) ==> error.None?
      ensures Recorded(old(history), base, order, artifacts)
    {
      hide WayClear;
      hide DirsOk;
      hide FilesOk;
      hide WellFormedTree;
      hide Overlay;
      hide PrefixesComplete;
      hide Complete;
      added := before;
      var written := NextFault();
      if written.OsError? {
        return Some(PublicationFailed), added;
      }
      var made;
      made, added := MakeParents(m, base, before, order, artifacts);
      if !made {
        return Some(PublicationFailed), added;
      }
      var link := NextFault();
      if link.Symlink? {
        return Some(SymlinkedParent), added;
      }
      NotADirectoryAdded(base, added, m, artifacts);
      NotYetThere(base, before, added, m, artifacts);
      label placed:
      var replaced := Replace(m, artifacts[m]);
      if !replaced {
        CompleteNow(base, added, order, artifacts);
        return Some(PublicationFailed), added;
      }
      FileAdded(base, added, m, artifacts);
      FileKeepsShape(old@placed(tree), m, artifacts[m]);
      added := added.(files := added.files + [m]);
      CompleteNow(base, added, order, artifacts);
      return None, added;
    }

    /** Publish all pending members, or take everything back. */
    method Publish(pending: seq<Member>, order: seq<Member>, artifacts: map<Path, Content>)
      returns (error: Option<InstallError>, added: Added, ghost stuck: set<Path>)
      requires WellFormedTree(tree) && Ordered(order) && Distinct(order)
      requires pending == PendingOf(order, tree)
      requires forall m :: m in order ==> m in artifacts && (m in tree ==> tree[m] == File(artifacts[m]))
      modifies this
      ensures WellFormedTree(tree) && staging == old(staging)
      ensures error.Some? ==> error.value in {PublicationFailed, SymlinkedParent}
      ensures error.Some? ==> AddedOk(old(tree), added, artifacts) && LeftOver(old(tree), tree, added, stuck, artifacts)
      ensures error.Some? ==> (Complete(old(tree), tree, order, artifacts) <==> !Orphaned(added, stuck, order))
      ensures Removable() ==> refused == old(refused)
      ensures error.Some? && Removable() ==> tree == old(tree)
      ensures error == Some(PublicationFailed) ==>
                forall f :: f in added.files && f in tree ==> refused[f] >= old(refused)[f] + 2
      ensures error.None? ==> AddedOk(old(tree), added, artifacts) && added.files == pending && tree == TreeOf(old(tree), added, artifacts)
      ensures forall d :: d in added.dirs ==> AboveSome(d, pending)
      ensures Quiet() && ClearFor(old(tree), pending) ==> error.None?
      ensures NoManifestRefused() ==> Recorded(old(history), old(tree), order, artifacts)
    {
      hide WayClear, LeftOver, Orphaned, FilesOk;
      hide ClearFor;
      hide AboveSome;
      hide DirsOk;
      hide PrefixesComplete;
      hide Complete;
      hide Ordered;
      hide PendingOf;
      hide WellFormedTree;
      hide Overlay;
      ghost var base := tree;
      PendingComplete(base, order, artifacts);
      NothingAdded(base, artifacts);
      added := Added([], []);
      for i := 0 to |pending|
        invariant WellFormedTree(tree) && staging == old(staging) && refused == old(refused)
        invariant AddedOk(base, added, artifacts) && added.files == pending[..i]
        invariant tree == TreeOf(base, added, artifacts)
        invariant forall d :: d in added.dirs ==> AboveSome(d, pending)
        invariant Recorded(old(history), base, order, artifacts)
      {
        PendingStep(base, pending, i, order, artifacts);
        assert pending[i] in pending;
        StillClear(base, added, pending, i, artifacts);
        BelowIsAbove(pending[i], pending);
        error, added := PublishOne(pending[i], base, added, order, artifacts);
        if error.Some? {
          stuck := TakeBack(error.value, base, added, order, artifacts);
          return;
        }
        assert pending[..i + 1] == pending[..i] + [pending[i]];
      }
      assert pending[..|pending|] == pending;
      error, stuck := None, {};
    }

    /** A failed write is rolled back where it is caught and then once more with the error it becomes. */
    method TakeBack(error: InstallError, ghost base: Tree, added: Added, ghost order: seq<Member>, ghost artifacts: map<Path, Content>)
      returns (ghost stuck: set<Path>)
      requires WellFormedTree(base) && AddedOk(base, added, artifacts)
      requires WellFormedTree(tree) && tree == TreeOf(base, added, artifacts)
      requires PrefixesComplete(base, added.files, order, artifacts)
      requires forall m :: m in order && m in base && m in artifacts ==> base[m] == File(artifacts[m])
      modifies this
      ensures WellFormedTree(tree) && staging == old(staging)
      ensures LeftOver(base, tree, added, stuck, artifacts)
      ensures Complete(base, tree, order, artifacts) <==> !Orphaned(added, stuck, order)
      ensures Removable() ==> refused == old(refused) && tree == base
      ensures error == PublicationFailed ==> forall f :: f in added.files && f in tree ==> refused[f] >= old(refused)[f] + 2
      ensures NoManifestRefused() ==> Recorded(old(history), base, order, artifacts)
    {
      hide PrefixesComplete, Complete, DirsOk, FilesOk, Overlay, LeftOver, RefusedFrom, Between, WellFormedTree, Orphaned;
      AllBetween(base, added, artifacts);
      CompleteNow(base, added, order, artifacts);
      stuck := RollBack(base, added, order, artifacts);
      if error == PublicationFailed {
        ghost var first, mid := stuck, tree;
        LeftIsBetween(base, tree, added, stuck, artifacts);
        stuck := RollBack(base, added, order, artifacts);
        StuckTwice(base, mid, tree, added, first, stuck, artifacts);
      }
      LeftIsComplete(base, tree, added, stuck, order, artifacts);
      if Removable() {
        NothingRefused(base, tree, added, stuck, artifacts);
      }
    }

    /**
     * The whole installation.  Any failure before verification leaves the tree
     * as it was; a success adds exactly the pending members and the directories
     * on the way to them.
     */
    method Install(artifacts: map<Path, Content>, members: seq<Member>, modelDirectory: Path, modelFiles: set<string>, verifies: bool)
      returns (r: Result<(seq<Member>, seq<Member>), InstallError>, added: Added, ghost stuck: set<Path>)
      requires WellFormedTree(tree) && Distinct(members) && !staging
      modifies this
      ensures WellFormedTree(tree) && !staging
      ensures r == Err(MemberMissing) <==> !(forall m :: m in members ==> m in artifacts)
      ensures r == Err(ModelDirectoryHasUnknownFiles) <==>
                (forall m :: m in members ==> m in artifacts) && old(UnknownModelFiles(members, modelDirectory, modelFiles))
      ensures Quiet() ==>
                (r.Ok? <==>
                  && (forall m :: m in members ==> m in artifacts)
                  && !old(UnknownModelFiles(members, modelDirectory, modelFiles))
                  && (forall m :: m in members && m in old(tree) ==> old(tree)[m] == File(artifacts[m]))
                  && ClearFor(old(tree), members) && verifies)
      ensures r.Err? && r.error != VerificationFailed ==> LeftOver(old(tree), tree, added, stuck, artifacts)
      ensures r.Err? && r.error != VerificationFailed && Removable() ==> tree == old(tree)
      ensures r.Err? && r.error in {PublicationFailed, SymlinkedParent} ==>
                (Complete(old(tree), tree, PublicationOrder(members), artifacts) <==> !Orphaned(added, stuck, PublicationOrder(members)))
      ensures r == Err(PublicationFailed) ==>
                forall f :: f in added.files && f in tree ==> refused[f] >= old(refused)[f] + 2
      ensures r.Ok? || r == Err(VerificationFailed) ==>
                Installed(old(tree), tree, members, added, artifacts)
      ensures r.Ok? ==> r.value.0 == added.files && forall m :: m in r.value.1 <==> m in members && m in old(tree)
      ensures r.Ok? && (forall m :: m in members ==> m in old(tree)) ==> r.value.0 == [] && tree == old(tree)
      ensures NoManifestRefused() ==> Recorded(old(history), old(tree), PublicationOrder(members), artifacts)
    {
      hide Ordered;
      hide Before;
      hide Overlay;
      hide DirsOk;
      hide FilesOk;
      hide PendingOf;
      hide Complete;
      hide WellFormedTree;
      hide UnknownModelFiles;
      hide Installed;
      hide Distinct;
      hide PublicationOrder;
      hide AboveSome;
      hide ClearFor;
      added, stuck := Added([], []), {};
      NothingLeft(tree, artifacts);
      hide LeftOver, NoManifestIn, AddedOk, Orphaned, Removable;
      if !(forall m | m in members :: m in artifacts) {
        return Err(MemberMissing), added, stuck;
      }
      var unknown := HasUnknownFiles(members, modelDirectory, modelFiles);
      if unknown {
        return Err(ModelDirectoryHasUnknownFiles), added, stuck;
      }
      var made := NextFault();
      if made.OsError? {
        return Err(StagingFailed), added, stuck;
      }
      staging := true;
      var order := PublicationOrder(members);
      SameDistinct(members, order);
      var classified := Classify(order, artifacts);
      if classified.Err? {
        staging := false;
        return Err(classified.error), added, stuck;
      }
      var (pending, already) := classified.value;
      PendingClear(old(tree), members, order);
      var error;
      error, added, stuck := Publish(pending, order, artifacts);
      staging := false;
      if error.Some? {
        return Err(error.value), added, stuck;
      }
      InstalledTree(old(tree), members, order, pending, added, artifacts);
      InstalledIsClear(old(tree), tree, members, added, artifacts);
      if !verifies {
        return Err(VerificationFailed), added, stuck;
      }
      return Ok((pending, already)), added, stuck;
    }

    method HasUnknownFiles(members: seq<Member>, modelDirectory: Path, modelFiles: set<string>) returns (unknown: bool)
      ensures unknown <==> UnknownModelFiles(members, modelDirectory, modelFiles)
    {
      if modelDirectory !in tree || tree[modelDirectory] != Directory {
        return false;
      }
      var existing := set p | p in tree && p != [] && Parent(p) == modelDirectory :: Name(p);
      var incoming := set m | m in members && modelDirectory < m :: Name(m);
      unknown := (existing + incoming) - modelFiles != {};
      assert unknown ==> exists n :: n in (existing + incoming) - modelFiles;
      assert forall p :: p in tree && p != [] && Parent(p) == modelDirectory && Name(p) !in modelFiles ==>
        Name(p) in (existing + incoming) - modelFiles;
      assert forall m :: m in members && modelDirectory < m && Name(m) !in modelFiles ==> Name(m) in (existing + incoming) - modelFiles;
    }

    /** Would the model directory hold anything but its own artifacts? */
    ghost predicate UnknownModelFiles(members: seq<Member>, modelDirectory: Path, modelFiles: set<string>)
      reads this
    {
      && modelDirectory in tree && tree[modelDirectory] == Directory
      && ((exists p | p in tree :: p != [] && Parent(p) == modelDirectory && Name(p) !in modelFiles)
          || (exists m | m in members :: modelDirectory < m && Name(m) !in modelFiles))
    }

    /** Every tree recorded since `before` is complete. */
    ghost predicate Recorded(before: seq<Tree>, base: Tree, order: seq<Member>, artifacts: map<Path, Content>)
      reads this
    {
      before <= history && forall k :: |before| <= k < |history| ==> Complete(base, history[k], order, artifacts)
    }
  }

  // ----- when publication has its way clear

  /** Whatever is already there on the way to the member is a directory. */
  ghost predicate WayClear(t: Tree, m: Member) {
    forall k :: 0 <= k < |m| && m[..k] in t ==> t[m[..k]] == Directory
  }

  /** The way to every member is clear, and none lies on the way to another. */
  ghost predicate ClearFor(t: Tree, members: seq<Member>) {
    && (forall m :: m in members ==> WayClear(t, m))
    && (forall m, x :: m in members && x in members ==> !(x < m))
  }

  lemma RootIsDirectory(t: Tree)
    requires WellFormedTree(t)
    ensures [] in t
  {
  }

  lemma StaysClear(t: Tree, m: Member, length: nat, u: Tree)
    requires 1 <= length < |m| && m[..length - 1] in t
    requires u == t || (m[..length] !in t && u == t[m[..length] := Directory])
    ensures WayClear(t, m) ==> WayClear(u, m) && t[m[..length - 1]] == Directory
  {
  }

  lemma ParentIsDirectory(t: Tree, m: Member)
    requires Parent(m) in t
    ensures WayClear(t, m) ==> t[Parent(m)] == Directory
  {
  }

  /** Making its parents does not put anything where the member goes. */
  lemma NotYetThere(base: Tree, before: Added, added: Added, m: Member, artifacts: map<Path, Content>)
    requires AddedOk(base, before, artifacts) && AddedOk(base, added, artifacts) && added.files == before.files
    requires forall d :: d in added.dirs ==> d in before.dirs || d < m
    ensures m !in TreeOf(base, before, artifacts) ==> m !in TreeOf(base, added, artifacts)
  {
  }

  lemma BelowIsAbove(m: Member, pending: seq<Member>)
    requires m in pending
    ensures forall d :: d < m ==> AboveSome(d, pending)
  {
  }

  /** What was published before leaves the way to the next member clear. */
  lemma StillClear(base: Tree, added: Added, pending: seq<Member>, i: nat, artifacts: map<Path, Content>)
    requires AddedOk(base, added, artifacts) && i < |pending| && added.files == pending[..i]
    requires Distinct(pending) && pending[i] !in base
    requires forall d :: d in added.dirs ==> AboveSome(d, pending)
    ensures ClearFor(base, pending) ==>
              WayClear(TreeOf(base, added, artifacts), pending[i]) && pending[i] !in TreeOf(base, added, artifacts)
  {
    var m, t := pending[i], TreeOf(base, added, artifacts);
    if ClearFor(base, pending) {
      assert m in pending && WayClear(base, m);
      forall k | 0 <= k < |m| && m[..k] in t
        ensures t[m[..k]] == Directory
      {
        var p := m[..k];
        assert p < m;
        assert p in added.files ==> p in pending;
      }
      assert forall x :: x in pending ==> !(m < x);
    }
  }

  lemma PendingClear(base: Tree, members: seq<Member>, order: seq<Member>)
    requires forall m :: m in order <==> m in members
    ensures ClearFor(base, members) ==> ClearFor(base, PendingOf(order, base))
  {
    forall m: Member
      ensures m in PendingOf(order, base) ==> m in members
    {
      PendingMembers(order, base, m);
    }
  }

  lemma {:induction false} AncestorsAreDirectories(t: Tree, p: Path, k: nat)
    requires WellFormedTree(t) && p in t && k < |p|
    ensures p[..k] in t && t[p[..k]] == Directory
    decreases |p| - k
  {
    if k + 1 == |p| {
      assert Parent(p) == p[..k];
    } else {
      AncestorsAreDirectories(t, p, k + 1);
      assert Parent(p[..k + 1]) == p[..k];
    }
  }

  lemma PrefixIsDirectory(t: Tree, x: Path, p: Path)
    requires WellFormedTree(t) && p in t && x < p
    ensures x in t && t[x] == Directory
  {
    AncestorsAreDirectories(t, p, |x|);
    assert p[..|x|] == x;
  }

  /** Conversely, members that are all there as files had their way clear. */
  lemma InstalledIsClear(base: Tree, t: Tree, members: seq<Member>, added: Added, artifacts: map<Path, Content>)
    requires WellFormedTree(t) && Installed(base, t, members, added, artifacts)
    ensures ClearFor(base, members)
    ensures forall m :: m in members && m in base ==> base[m] == File(artifacts[m])
  {
    forall m | m in members
      ensures WayClear(base, m)
    {
      forall k | 0 <= k < |m| && m[..k] in base
        ensures base[m[..k]] == Directory
      {
        AncestorsAreDirectories(t, m, k);
      }
    }
    forall m, x | m in members && x in members
      ensures !(x < m)
    {
      if x < m {
        PrefixIsDirectory(t, x, m);
        assert false;
      }
    }
  }

  /** Whatever the directories, any initial run of the files leaves a complete tree. */
  ghost predicate PrefixesComplete(base: Tree, files: seq<Member>, order: seq<Member>, artifacts: map<Path, Content>)
    requires forall f :: f in files ==> f in artifacts
  {
    forall k, dirs :: 0 <= k <= |files| && dirs !! base.Keys ==> CompleteWith(base, files, k, dirs, order, artifacts)
  }

  ghost predicate CompleteWith(base: Tree, files: seq<Member>, k: nat, dirs: set<Path>, order: seq<Member>, artifacts: map<Path, Content>)
    requires k <= |files| && forall f :: f in files ==> f in artifacts
  {
    Complete(base, Overlay(base, dirs, SetOf(files[..k]), artifacts), order, artifacts)
  }

  lemma CompleteAt(base: Tree, files: seq<Member>, k: nat, dirs: set<Path>, order: seq<Member>, artifacts: map<Path, Content>)
    requires k <= |files| && dirs !! base.Keys && forall f :: f in files ==> f in artifacts
    requires PrefixesComplete(base, files, order, artifacts)
    ensures Complete(base, Overlay(base, dirs, SetOf(files[..k]), artifacts), order, artifacts)
  {
    assert CompleteWith(base, files, k, dirs, order, artifacts);
  }

  /** A new directory under a known one is added last. */
  lemma DirectoryAdded(base: Tree, added: Added, d: Member, artifacts: map<Path, Content>)
    requires AddedOk(base, added, artifacts) && d !in TreeOf(base, added, artifacts)
    ensures TreeOf(base, added.(dirs := added.dirs + [d]), artifacts) == TreeOf(base, added, artifacts)[d := Directory]
  {
    FilesAreArtifacts(base, added, artifacts);
    OverlayDirectory(base, SetOf(added.dirs), SetOf(added.files), artifacts, d);
    hide Overlay, DirsOk, FilesOk;
    assert SetOf(added.dirs + [d]) == SetOf(added.dirs) + {d};
  }

  lemma OverlayDirectory(base: Tree, dirs: set<Path>, files: set<Path>, artifacts: map<Path, Content>, d: Member)
    requires files <= artifacts.Keys && d !in Overlay(base, dirs, files, artifacts)
    ensures Overlay(base, dirs + {d}, files, artifacts) == Overlay(base, dirs, files, artifacts)[d := Directory]
  {
    var t, u := Overlay(base, dirs, files, artifacts), Overlay(base, dirs + {d}, files, artifacts);
    assert u.Keys == t.Keys + {d};
    assert forall p :: p in t ==> u[p] == t[p];
  }

  lemma DirectoryAddedOk(base: Tree, added: Added, d: Member, artifacts: map<Path, Content>)
    requires AddedOk(base, added, artifacts) && d !in TreeOf(base, added, artifacts)
    requires Parent(d) in TreeOf(base, added, artifacts) && TreeOf(base, added, artifacts)[Parent(d)] == Directory
    ensures AddedOk(base, added.(dirs := added.dirs + [d]), artifacts)
  {
    assert Parent(d) in base || Parent(d) in added.dirs;
    DirsExtended(base, added.dirs, d);
  }

  lemma DirsExtended(base: Tree, dirs: seq<Member>, d: Member)
    requires DirsOk(base, dirs) && d !in base && d !in dirs && (Parent(d) in base || Parent(d) in dirs)
    ensures DirsOk(base, dirs + [d])
  {
    forall k | 0 <= k < |dirs + [d]|
      ensures Parent((dirs + [d])[k]) in base || Parent((dirs + [d])[k]) in (dirs + [d])[..k]
    {
      if k < |dirs| {
        assert (dirs + [d])[..k] == dirs[..k];
      } else {
        assert (dirs + [d])[..k] == dirs;
      }
    }
  }

  lemma FileAdded(base: Tree, added: Added, f: Member, artifacts: map<Path, Content>)
    requires AddedOk(base, added, artifacts) && f in artifacts && f !in base && f !in added.files && f !in added.dirs
    ensures AddedOk(base, added.(files := added.files + [f]), artifacts)
    ensures TreeOf(base, added.(files := added.files + [f]), artifacts) == TreeOf(base, added, artifacts)[f := File(artifacts[f])]
  {
    assert SetOf(added.files + [f]) == SetOf(added.files) + {f};
  }

  lemma FilesAreArtifacts(base: Tree, added: Added, artifacts: map<Path, Content>)
    requires AddedOk(base, added, artifacts)
    ensures forall f :: f in added.files ==> f in artifacts
  {
  }

  lemma CompleteNow(base: Tree, added: Added, order: seq<Member>, artifacts: map<Path, Content>)
    requires AddedOk(base, added, artifacts) && PrefixesComplete(base, added.files, order, artifacts)
    ensures Complete(base, TreeOf(base, added, artifacts), order, artifacts)
  {
    assert added.files[..|added.files|] == added.files;
    CompleteAt(base, added.files, |added.files|, SetOf(added.dirs), order, artifacts);
  }

  lemma NothingAdded(base: Tree, artifacts: map<Path, Content>)
    ensures AddedOk(base, Added([], []), artifacts) && TreeOf(base, Added([], []), artifacts) == base
  {
  }

  lemma PendingComplete(base: Tree, order: seq<Member>, artifacts: map<Path, Content>)
    requires Ordered(order) && Distinct(order)
    requires forall m :: m in order ==> m in artifacts && (m in base ==> base[m] == File(artifacts[m]))
    ensures Distinct(PendingOf(order, base))
    ensures forall m :: m in PendingOf(order, base) ==> m in order && m !in base
    ensures PrefixesComplete(base, PendingOf(order, base), order, artifacts)
  {
    PendingDistinct(order, base);
    forall m: Member
      ensures m in PendingOf(order, base) <==> m in order && m !in base
    {
      PendingMembers(order, base, m);
    }
    forall k, dirs | 0 <= k <= |PendingOf(order, base)| && dirs !! base.Keys
      ensures CompleteWith(base, PendingOf(order, base), k, dirs, order, artifacts)
    {
      PrefixIsComplete(base, dirs, order, k, artifacts);
    }
  }

  /** What holds of all pending members holds of the ones published so far and the next. */
  lemma PendingStep(base: Tree, pending: seq<Member>, i: nat, order: seq<Member>, artifacts: map<Path, Content>)
    requires i < |pending| && Distinct(pending) && forall m :: m in pending ==> m in artifacts
    requires PrefixesComplete(base, pending, order, artifacts)
    ensures pending[i] !in pending[..i]
    ensures PrefixesComplete(base, pending[..i], order, artifacts)
    ensures PrefixesComplete(base, pending[..i] + [pending[i]], order, artifacts)
  {
    forall k, dirs | 0 <= k <= i + 1 && dirs !! base.Keys
      ensures k <= i ==> CompleteWith(base, pending[..i], k, dirs, order, artifacts)
      ensures CompleteWith(base, pending[..i] + [pending[i]], k, dirs, order, artifacts)
    {
      assert CompleteWith(base, pending, k, dirs, order, artifacts);
      assert k <= i ==> pending[..i][..k] == pending[..k];
      assert (pending[..i] + [pending[i]])[..k] == pending[..k];
    }
  }

  lemma SameDistinct(members: seq<Member>, order: seq<Member>)
    requires Distinct(members) && multiset(order) == multiset(members)
    ensures Distinct(order)
    ensures forall m :: m in order <==> m in members
  {
    forall m: Member
      ensures m in order <==> m in members
    {
      assert m in order <==> m in multiset(order);
      assert m in members <==> m in multiset(members);
    }
    forall i, j | 0 <= i < j < |order|
      ensures order[i] != order[j]
    {
      if order[i] == order[j] {
        OccursTwice(order, i, j);
        OccursOnce(members, order[i]);
      }
    }
  }

  lemma OccursTwice(s: seq<Path>, i: nat, j: nat)
    requires i < j < |s| && s[i] == s[j]
    ensures multiset(s)[s[i]] >= 2
  {
    assert s == s[..i] + [s[i]] + s[i + 1..j] + [s[j]] + s[j + 1..];
  }

  lemma {:induction false} OccursOnce(s: seq<Path>, x: Path)
    requires Distinct(s)
    ensures multiset(s)[x] <= 1
  {
    if s != [] {
      var n := |s| - 1;
      OccursOnce(s[..n], x);
      assert s == s[..n] + [s[n]];
      assert s[n] !in s[..n];
    }
  }

  /**
   * Exactly the missing members were added, with their bytes, and directories
   * on the way to them; whatever was there is untouched.
   */
  ghost predicate Installed(base: Tree, t: Tree, members: seq<Member>, added: Added, artifacts: map<Path, Content>) {
    && (forall m :: m in members ==> m in artifacts && m in t && t[m] == File(artifacts[m]))
    && (forall m :: m in added.files <==> m in members && m !in base)
    && (forall p :: p in t <==> p in base || p in added.dirs || p in added.files)
    && (forall p :: p in base ==> t[p] == base[p])
    && (forall d :: d in added.dirs ==> t[d] == Directory && d !in base && AboveSome(d, added.files))
  }

  lemma InstalledTree(base: Tree, members: seq<Member>, order: seq<Member>, pending: seq<Member>, added: Added, artifacts: map<Path, Content>)
    requires Ordered(order) && Distinct(order)
    requires pending == PendingOf(order, base) && AddedOk(base, added, artifacts) && added.files == pending
    requires forall m :: m in order ==> m in artifacts && (m in base ==> base[m] == File(artifacts[m]))
    requires forall d :: d in added.dirs ==> AboveSome(d, pending)
    requires forall m :: m in order <==> m in members
    ensures Installed(base, TreeOf(base, added, artifacts), members, added, artifacts)
    ensures (forall m :: m in members ==> m in base) ==> pending == [] && TreeOf(base, added, artifacts) == base
  {
    hide Ordered, Distinct, AboveSome, AddedOk, Installed;
    forall m: Member
      ensures m in pending <==> m in members && m !in base
    {
      PendingMembers(order, base, m);
    }
    hide PendingOf;
    InstalledFrom(base, members, added, artifacts);
    NothingPending(base, members, added, artifacts);
  }

  lemma InstalledFrom(base: Tree, members: seq<Member>, added: Added, artifacts: map<Path, Content>)
    requires AddedOk(base, added, artifacts) && forall m: Member :: m in added.files <==> m in members && m !in base
    requires forall m :: m in members ==> m in artifacts && (m in base ==> base[m] == File(artifacts[m]))
    requires forall d :: d in added.dirs ==> AboveSome(d, added.files)
    ensures Installed(base, TreeOf(base, added, artifacts), members, added, artifacts)
  {
    TreeOfNodes(base, added, artifacts);
    hide AboveSome, TreeOf, AddedOk;
  }

  /** Each node of the tree with the additions. */
  lemma TreeOfNodes(base: Tree, added: Added, artifacts: map<Path, Content>)
    requires AddedOk(base, added, artifacts)
    ensures forall f :: f in added.files ==> f in artifacts
    ensures var t := TreeOf(base, added, artifacts);
            && (forall p :: p in t <==> p in base || p in added.dirs || p in added.files)
            && (forall p :: p in base ==> t[p] == base[p])
            && (forall d :: d in added.dirs ==> t[d] == Directory && d !in base)
            && (forall f :: f in added.files ==> t[f] == File(artifacts[f]))
  {
    hide Distinct;
  }

  lemma NothingPending(base: Tree, members: seq<Member>, added: Added, artifacts: map<Path, Content>)
    requires AddedOk(base, added, artifacts) && forall m: Member :: m in added.files <==> m in members && m !in base
    requires forall d :: d in added.dirs ==> AboveSome(d, added.files)
    ensures (forall m :: m in members ==> m in base) ==> added.files == [] && TreeOf(base, added, artifacts) == base
  {
    assert |added.files| > 0 ==> added.files[0] in members && added.files[0] !in base by {
      assert |added.files| > 0 ==> added.files[0] in added.files;
    }
    assert |added.dirs| > 0 ==> AboveSome(added.dirs[0], added.files) by {
      assert |added.dirs| > 0 ==> added.dirs[0] in added.dirs;
    }
    if added.files == [] && added.dirs == [] {
      assert added == Added([], []);
      NothingAdded(base, artifacts);
    }
  }

  lemma FileKeepsShape(t: Tree, p: Member, content: Content)
    requires WellFormedTree(t) && Parent(p) in t && t[Parent(p)] == Directory && (p in t ==> t[p].File?)
    ensures WellFormedTree(t[p := File(content)])
  {
  }

  /** A file can only go where no created directory is. */
  lemma NotADirectoryAdded(base: Tree, added: Added, m: Member, artifacts: map<Path, Content>)
    requires AddedOk(base, added, artifacts)
    ensures m in TreeOf(base, added, artifacts) && TreeOf(base, added, artifacts)[m].File? ==> m !in added.dirs
    ensures m !in TreeOf(base, added, artifacts) ==> m !in added.dirs
  {
  }

  // ----- taking back

  predicate HasChild(t: Tree, p: Path) {
    exists c | c in t :: c != [] && Parent(c) == p
  }

  /** Everything of the base and nothing but what was added to it. */
  ghost predicate Between(base: Tree, t: Tree, added: Added, artifacts: map<Path, Content>) {
    && (forall p :: p in base ==> p in t && t[p] == base[p])
    && (forall p :: p in t ==> p in base || p in added.dirs || p in added.files)
    && (forall f :: f in added.files && f in t ==> f in artifacts && t[f] == File(artifacts[f]))
    && (forall d :: d in added.dirs && d in t ==> t[d] == Directory)
  }

  /** What is left of what was added: the stuck files, and the directories that are stuck or not empty. */
  ghost predicate LeftOver(base: Tree, t: Tree, added: Added, stuck: set<Path>, artifacts: map<Path, Content>) {
    && Between(base, t, added, artifacts)
    && (forall p :: p in stuck ==> p in added.files || p in added.dirs)
    && (forall f :: f in added.files ==> (f in t <==> f in stuck))
    && (forall d :: d in added.dirs ==> (d in t <==> d in stuck || HasChild(t, d)))
  }

  lemma AllBetween(base: Tree, added: Added, artifacts: map<Path, Content>)
    requires AddedOk(base, added, artifacts)
    ensures Between(base, TreeOf(base, added, artifacts), added, artifacts)
  {
  }

  lemma LeftIsBetween(base: Tree, t: Tree, added: Added, stuck: set<Path>, artifacts: map<Path, Content>)
    requires LeftOver(base, t, added, stuck, artifacts)
    ensures Between(base, t, added, artifacts)
  {
  }

  lemma NothingLeft(t: Tree, artifacts: map<Path, Content>)
    ensures LeftOver(t, t, Added([], []), {}, artifacts)
  {
  }

  /** The paths whose removal, last one first, raised although they were there. */
  ghost predicate RefusedFrom(refuses: nat -> bool, paths: seq<Member>, from: nat, before: Tree, start: nat, stuck: set<Path>) {
    forall i :: from <= i < |paths| ==>
      (paths[i] in stuck <==> paths[i] in before && refuses(start + |paths| - 1 - i))
  }

  /** They were there, at some position or later. */
  ghost predicate StuckIn(stuck: set<Path>, before: Tree, paths: seq<Member>, k: nat)
    requires k <= |paths|
  {
    forall p :: p in stuck ==> p in before && p in paths[k..]
  }

  ghost function Raised(raised: bool, before: Tree, p: Path, stuck: set<Path>): set<Path> {
    if raised && p in before then stuck + {p} else stuck
  }

  /** The files from some position on are gone, unless stuck. */
  ghost predicate Unlinked(before: Tree, t: Tree, files: seq<Member>, k: nat, stuck: set<Path>)
    requires k <= |files|
  {
    && t == before - (SetOf(files[k..]) - stuck)
    && StuckIn(stuck, before, files, k)
  }

  lemma FromNext(s: seq<Member>, k: nat)
    requires k < |s|
    ensures s[k..] == [s[k]] + s[k + 1..] && SetOf<Path>(s[k..]) == {s[k]} + SetOf<Path>(s[k + 1..])
  {
  }

  lemma NothingUnlinked(refuses: nat -> bool, t: Tree, files: seq<Member>, start: nat)
    ensures Unlinked(t, t, files, |files|, {}) && RefusedFrom(refuses, files, |files|, t, start, {})
  {
    assert files[|files|..] == [];
    assert t == t - (SetOf<Path>(files[|files|..]) - {});
  }

  lemma FilesAreDistinct(base: Tree, added: Added, artifacts: map<Path, Content>)
    requires FilesOk(base, added, artifacts)
    ensures Distinct(added.files)
  {
  }

  lemma RefusedStep(refuses: nat -> bool, before: Tree, paths: seq<Member>, k: nat, stuck: set<Path>, start: nat)
    requires Distinct(paths) && k < |paths| && RefusedFrom(refuses, paths, k + 1, before, start, stuck)
    requires StuckIn(stuck, before, paths, k + 1)
    ensures var next := Raised(refuses(start + |paths| - 1 - k), before, paths[k], stuck);
            && RefusedFrom(refuses, paths, k, before, start, next)
            && StuckIn(next, before, paths, k)
            && multiset(next) == multiset(stuck) + multiset(next - stuck)
            && next - stuck == Raised(refuses(start + |paths| - 1 - k), before, paths[k], {})
  {
    FromNext(paths, k);
    assert paths[k] !in paths[k + 1..];
    forall i | k + 1 <= i < |paths|
      ensures paths[i] != paths[k]
    {
    }
  }

  lemma UnlinkStep(refuses: nat -> bool, before: Tree, t: Tree, files: seq<Member>, k: nat, stuck: set<Path>, start: nat)
    requires Distinct(files) && k < |files|
    requires Unlinked(before, t, files, k + 1, stuck) && RefusedFrom(refuses, files, k + 1, before, start, stuck)
    ensures var raised := refuses(start + |files| - 1 - k);
            var next := Raised(raised, before, files[k], stuck);
            && (files[k] in t <==> files[k] in before)
            && Unlinked(before, if raised then t else t - {files[k]}, files, k, next)
            && RefusedFrom(refuses, files, k, before, start, next)
            && multiset(next) == multiset(stuck) + if raised && files[k] in t then multiset{files[k]} else multiset{}
  {
    RefusedStep(refuses, before, files, k, stuck, start);
    FromNext(files, k);
    assert files[k] !in files[k + 1..];
    hide RefusedFrom;
    var raised := refuses(start + |files| - 1 - k);
    var next := Raised(raised, before, files[k], stuck);
    var u := if raised then t else t - {files[k]};
    assert u.Keys == (before - (SetOf(files[k..]) - next)).Keys;
  }

  /** The directories from some position on are gone, unless stuck or not empty. */
  ghost predicate Emptied(before: Tree, t: Tree, dirs: seq<Member>, k: nat, stuck: set<Path>)
    requires k <= |dirs|
  {
    && (forall p :: p in t ==> p in before)
    && (forall p :: p in before && p !in dirs[k..] ==> p in t)
    && (forall i :: k <= i < |dirs| ==> (dirs[i] in t <==> dirs[i] in stuck || HasChild(t, dirs[i])))
    && StuckIn(stuck, before, dirs, k)
  }

  lemma NothingEmptied(refuses: nat -> bool, t: Tree, dirs: seq<Member>, start: nat)
    ensures Emptied(t, t, dirs, |dirs|, {}) && RefusedFrom(refuses, dirs, |dirs|, t, start, {})
  {
  }

  lemma DirsRefused(refuses: nat -> bool, base: Tree, before: Tree, t: Tree, added: Added, k: nat, stuck: set<Path>, start: nat,
                    artifacts: map<Path, Content>)
    requires AddedOk(base, added, artifacts) && k < |added.dirs|
    requires Emptied(before, t, added.dirs, k + 1, stuck) && RefusedFrom(refuses, added.dirs, k + 1, before, start, stuck)
    ensures var next := Raised(refuses(start + |added.dirs| - 1 - k), before, added.dirs[k], stuck);
            && RefusedFrom(refuses, added.dirs, k, before, start, next)
            && multiset(next) == multiset(stuck)
               + if refuses(start + |added.dirs| - 1 - k) && added.dirs[k] in t then multiset{added.dirs[k]} else multiset{}
  {
    assert StuckIn(stuck, before, added.dirs, k + 1);
    DirsAreDistinct(base, added, artifacts);
    StillThere(before, t, added.dirs, k, stuck);
    hide RefusedFrom, AddedOk, DirsOk, FilesOk, Emptied, StuckIn, Distinct;
    RefusedStep(refuses, before, added.dirs, k, stuck, start);
  }

  lemma StillThere(before: Tree, t: Tree, dirs: seq<Member>, k: nat, stuck: set<Path>)
    requires Distinct(dirs) && k < |dirs| && Emptied(before, t, dirs, k + 1, stuck)
    ensures dirs[k] in t <==> dirs[k] in before
  {
    hide HasChild, StuckIn;
    assert dirs[k] !in dirs[k + 1..];
  }

  lemma DirsAreDistinct(base: Tree, added: Added, artifacts: map<Path, Content>)
    requires AddedOk(base, added, artifacts)
    ensures Distinct(added.dirs)
  {
  }

  lemma RmdirStep(raised: bool, base: Tree, before: Tree, t: Tree, u: Tree, added: Added, k: nat, stuck: set<Path>, artifacts: map<Path, Content>)
    requires WellFormedTree(base) && AddedOk(base, added, artifacts) && k < |added.dirs|
    requires WellFormedTree(t) && Between(base, t, added, artifacts)
    requires Emptied(before, t, added.dirs, k + 1, stuck)
    requires u == if raised || HasChild(t, added.dirs[k]) then t else t - {added.dirs[k]}
    ensures WellFormedTree(u) && Between(base, u, added, artifacts)
    ensures Emptied(before, u, added.dirs, k, Raised(raised, before, added.dirs[k], stuck))
  {
    hide Between, WellFormedTree, HasChild, FilesOk, Emptied;
    OneDirectoryLess(base, t, u, added, k, artifacts);
    DirsAreDistinct(base, added, artifacts);
    hide AddedOk, DirsOk;
    EmptiedStep(before, t, u, added.dirs, k, stuck, raised);
  }

  lemma EmptiedStep(before: Tree, t: Tree, u: Tree, dirs: seq<Member>, k: nat, stuck: set<Path>, raised: bool)
    requires Distinct(dirs) && k < |dirs| && Emptied(before, t, dirs, k + 1, stuck)
    requires u == if raised || HasChild(t, dirs[k]) then t else t - {dirs[k]}
    requires forall i :: k < i < |dirs| ==> (HasChild(u, dirs[i]) <==> HasChild(t, dirs[i]))
    requires HasChild(u, dirs[k]) <==> HasChild(t, dirs[k])
    requires HasChild(u, dirs[k]) ==> dirs[k] in u
    ensures Emptied(before, u, dirs, k, Raised(raised, before, dirs[k], stuck))
  {
    hide HasChild;
    FromNext(dirs, k);
    assert dirs[k] !in dirs[k + 1..];
    assert forall i :: k < i < |dirs| ==> dirs[i] != dirs[k];
  }

  /** What both passes leave. */
  lemma BothPasses(base: Tree, before: Tree, mid: Tree, t: Tree, added: Added, files: set<Path>, dirs: set<Path>,
                   refuses: nat -> bool, start: nat, artifacts: map<Path, Content>)
    requires AddedOk(base, added, artifacts) && Between(base, t, added, artifacts)
    requires Unlinked(before, mid, added.files, 0, files) && Emptied(mid, t, added.dirs, 0, dirs)
    requires RefusedFrom(refuses, added.files, 0, before, start, files)
    requires RefusedFrom(refuses, added.dirs, 0, mid, start + |added.files|, dirs)
    ensures LeftOver(base, t, added, files + dirs, artifacts)
    ensures forall p :: p in t ==> p in before
    ensures RefusedFrom(refuses, added.files, 0, before, start, files + dirs)
    ensures RefusedFrom(refuses, added.dirs, 0, before, start + |added.files|, files + dirs)
    ensures multiset(files + dirs) == multiset(files) + multiset(dirs)
  {
    assert added.files[0..] == added.files && added.dirs[0..] == added.dirs;
    forall f | f in added.files
      ensures f !in added.dirs && (f in mid <==> f in files)
    {
    }
    forall d | d in added.dirs
      ensures d !in added.files && (d in mid <==> d in before)
    {
    }
    assert files !! dirs;
    forall i | 0 <= i < |added.dirs|
      ensures added.dirs[i] in t <==> added.dirs[i] in files + dirs || HasChild(t, added.dirs[i])
    {
      assert added.dirs[i] in added.dirs;
    }
    forall i | 0 <= i < |added.files|
      ensures added.files[i] in files <==> added.files[i] in files + dirs
    {
      assert added.files[i] in added.files;
    }
  }

  lemma StuckTwice(base: Tree, mid: Tree, t: Tree, added: Added, first: set<Path>, second: set<Path>, artifacts: map<Path, Content>)
    requires LeftOver(base, mid, added, first, artifacts) && LeftOver(base, t, added, second, artifacts)
    requires forall p :: p in t ==> p in mid
    ensures forall f :: f in added.files && f in t ==> f in first && f in second
  {
  }

  /** With no manifest stuck, each manifest still there has the data files that were published before it. */
  lemma StillComplete(base: Tree, before: Tree, t: Tree, added: Added, k: nat, stuck: set<Path>, order: seq<Member>, artifacts: map<Path, Content>)
    requires AddedOk(base, added, artifacts) && Between(base, before, added, artifacts) && k <= |added.files|
    requires PrefixesComplete(base, added.files, order, artifacts) && Complete(base, before, order, artifacts)
    requires Unlinked(before, t, added.files, k, stuck) && forall m: Member :: m in stuck ==> !IsManifest(m)
    ensures Complete(base, t, order, artifacts)
  {
    forall m, data | m in order && data in order && Describes(m, data)
        && m !in base && m in t && t[m].File? && data in artifacts
      ensures data in t && t[data] == File(artifacts[data])
    {
      assert data in before && before[data] == File(artifacts[data]);
      hide PrefixesComplete, Complete;
      NotUnlinkedYet(base, before, t, added, k, stuck, m, artifacts);
      DataStays(base, added, k, m, data, order, artifacts);
    }
  }

  /** A manifest that is still there and not stuck has not been reached. */
  lemma NotUnlinkedYet(base: Tree, before: Tree, t: Tree, added: Added, k: nat, stuck: set<Path>, m: Member, artifacts: map<Path, Content>)
    requires Between(base, before, added, artifacts) && k <= |added.files|
    requires Unlinked(before, t, added.files, k, stuck) && m in t && t[m].File? && m !in base && m !in stuck
    ensures m in added.files[..k]
  {
    assert m in before && before[m] == t[m];
    assert m in added.files;
    assert m !in SetOf<Path>(added.files[k..]);
    hide Between, Unlinked;
    InFront(added.files, k, m);
  }

  lemma InFront(files: seq<Member>, k: nat, m: Member)
    requires k <= |files| && m in files && m !in files[k..]
    ensures m in files[..k]
  {
    assert files == files[..k] + files[k..];
  }

  lemma DataStays(base: Tree, added: Added, k: nat, m: Member, data: Member, order: seq<Member>, artifacts: map<Path, Content>)
    requires AddedOk(base, added, artifacts) && PrefixesComplete(base, added.files, order, artifacts) && k <= |added.files|
    requires m in added.files[..k] && m in order && data in order && data in artifacts && Describes(m, data)
    ensures data !in added.files[k..]
  {
    hide PrefixesComplete;
    var i :| 0 <= i < k && added.files[..k][i] == m;
    if data in base {
      assert data !in added.files;
    } else {
      DataIsEarlier(base, added, i, data, order, artifacts);
      NotLater(added.files, i, k, data);
    }
  }

  lemma NotLater(files: seq<Member>, i: nat, k: nat, data: Member)
    requires Distinct(files) && i <= k <= |files| && data in files[..i]
    ensures data !in files[k..]
  {
    var j :| 0 <= j < i && files[..i][j] == data;
    forall l | k <= l < |files|
      ensures files[l] != data
    {
    }
  }

  lemma DataIsEarlier(base: Tree, added: Added, i: nat, data: Member, order: seq<Member>, artifacts: map<Path, Content>)
    requires AddedOk(base, added, artifacts) && PrefixesComplete(base, added.files, order, artifacts)
    requires i < |added.files| && added.files[i] in order && data in order && data in artifacts && data !in base
    requires Describes(added.files[i], data)
    ensures data in added.files[..i]
  {
    var m := added.files[i];
    CompleteAt(base, added.files, i + 1, {}, order, artifacts);
    assert added.files[..i + 1] == added.files[..i] + [m];
    assert m in added.files;
    var t := Overlay(base, {}, SetOf(added.files[..i + 1]), artifacts);
    assert m in t && t[m] == File(artifacts[m]);
    assert data in t;
  }

  lemma UnlinkedTree(base: Tree, before: Tree, t: Tree, added: Added, stuck: set<Path>, artifacts: map<Path, Content>)
    requires AddedOk(base, added, artifacts) && WellFormedTree(before) && Between(base, before, added, artifacts)
    requires Unlinked(before, t, added.files, 0, stuck)
    ensures WellFormedTree(t) && Between(base, t, added, artifacts)
  {
    assert added.files[0..] == added.files;
  }

  /** Removing an empty directory, or none, keeps the shape and what is known of the directories added later. */
  lemma OneDirectoryLess(base: Tree, before: Tree, t: Tree, added: Added, k: nat, artifacts: map<Path, Content>)
    requires WellFormedTree(base) && AddedOk(base, added, artifacts) && k < |added.dirs|
    requires WellFormedTree(before) && Between(base, before, added, artifacts)
    requires t == before || (t == before - {added.dirs[k]} && !HasChild(before, added.dirs[k]))
    ensures WellFormedTree(t) && Between(base, t, added, artifacts)
    ensures forall i :: k < i < |added.dirs| ==> (HasChild(t, added.dirs[i]) <==> HasChild(before, added.dirs[i]))
    ensures HasChild(t, added.dirs[k]) <==> HasChild(before, added.dirs[k])
    ensures HasChild(t, added.dirs[k]) ==> added.dirs[k] in t
    ensures forall i :: k < i < |added.dirs| ==> added.dirs[i] != added.dirs[k]
  {
    var d := added.dirs[k];
    assert d in added.dirs;
    forall i | k < i < |added.dirs|
      ensures Parent(d) != added.dirs[i]
    {
      assert added.dirs[i] in added.dirs;
      if Parent(d) in added.dirs[..k] {
        var j :| 0 <= j < k && added.dirs[..k][j] == Parent(d);
        assert added.dirs[j] == Parent(d);
      }
    }
  }

  /** Completeness is about files. */
  lemma DirectoryIsNoData(base: Tree, before: Tree, t: Tree, added: Added, k: nat, order: seq<Member>, artifacts: map<Path, Content>)
    requires Complete(base, before, order, artifacts) && Between(base, before, added, artifacts) && k < |added.dirs|
    requires t == before || t == before - {added.dirs[k]}
    ensures Complete(base, t, order, artifacts)
  {
    assert added.dirs[k] in added.dirs;
  }

  /** With nothing stuck, nothing is left: a directory that is left would have one that was added later in it. */
  lemma {:induction false} NoneFrom(base: Tree, t: Tree, added: Added, k: nat, artifacts: map<Path, Content>)
    requires WellFormedTree(base) && AddedOk(base, added, artifacts) && LeftOver(base, t, added, {}, artifacts) && k <= |added.dirs|
    ensures forall i :: k <= i < |added.dirs| ==> added.dirs[i] !in t
    decreases |added.dirs| - k
  {
    hide LeftOver, DirsOk, FilesOk, WellFormedTree;
    if k < |added.dirs| {
      NoneFrom(base, t, added, k + 1, artifacts);
      NotAbove(base, t, added, k, artifacts);
    }
  }

  lemma NotAbove(base: Tree, t: Tree, added: Added, k: nat, artifacts: map<Path, Content>)
    requires WellFormedTree(base) && AddedOk(base, added, artifacts) && LeftOver(base, t, added, {}, artifacts) && k < |added.dirs|
    requires forall i :: k < i < |added.dirs| ==> added.dirs[i] !in t
    ensures added.dirs[k] !in t
  {
    var d := added.dirs[k];
    assert d in added.dirs;
    forall j | 0 <= j < |added.dirs| && Parent(added.dirs[j]) == d
      ensures j > k
    {
      if Parent(added.dirs[j]) in added.dirs[..j] {
        var i :| 0 <= i < j && added.dirs[..j][i] == d;
      }
    }
    assert !HasChild(t, d);
  }

  lemma NoneStuck(refuses: nat -> bool, base: Tree, before: Tree, t: Tree, added: Added, stuck: set<Path>, start: nat, artifacts: map<Path, Content>)
    requires LeftOver(base, t, added, stuck, artifacts) && forall k: nat :: !refuses(k)
    requires RefusedFrom(refuses, added.files, 0, before, start, stuck)
    requires RefusedFrom(refuses, added.dirs, 0, before, start + |added.files|, stuck)
    ensures stuck == {}
  {
    assert forall i :: 0 <= i < |added.files| ==> added.files[i] !in stuck;
    assert forall i :: 0 <= i < |added.dirs| ==> added.dirs[i] !in stuck;
  }

  lemma NothingRefused(base: Tree, t: Tree, added: Added, stuck: set<Path>, artifacts: map<Path, Content>)
    requires WellFormedTree(base) && AddedOk(base, added, artifacts) && LeftOver(base, t, added, stuck, artifacts) && stuck == {}
    ensures t == base
  {
    NoneFrom(base, t, added, 0, artifacts);
    assert forall p :: p in t <==> p in base;
  }

  /** Some manifest could not be removed while a data file of its directory was. */
  ghost predicate Orphaned(added: Added, stuck: set<Path>, order: seq<Member>) {
    exists m, data :: m in stuck && m in added.files && m in order && data in order
      && Describes(m, data) && data in added.files && data !in stuck
  }

  /** What is left is complete, except exactly when a manifest is orphaned. */
  lemma LeftIsComplete(base: Tree, t: Tree, added: Added, stuck: set<Path>, order: seq<Member>, artifacts: map<Path, Content>)
    requires AddedOk(base, added, artifacts) && LeftOver(base, t, added, stuck, artifacts)
    requires PrefixesComplete(base, added.files, order, artifacts)
    requires forall m :: m in order && m in base && m in artifacts ==> base[m] == File(artifacts[m])
    ensures Complete(base, t, order, artifacts) <==> !Orphaned(added, stuck, order)
  {
    if Orphaned(added, stuck, order) {
      var m, data :| m in stuck && m in added.files && m in order && data in order
        && Describes(m, data) && data in added.files && data !in stuck;
      assert m in t && t[m].File? && m !in base && data in artifacts && data !in t;
    } else {
      forall m, data | m in order && data in order && Describes(m, data)
          && m !in base && m in t && t[m].File? && data in artifacts
        ensures data in t && t[data] == File(artifacts[data])
      {
        if data !in base {
          var i :| 0 <= i < |added.files| && added.files[i] == m;
          DataIsEarlier(base, added, i, data, order, artifacts);
          assert data in added.files;
        }
      }
    }
  }
}
