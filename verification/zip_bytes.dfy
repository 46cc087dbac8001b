/**
 * Archives written out byte by byte, field after field in the order of
 * sections 4.3.12 and 4.3.16 of PKWARE's APPNOTE.TXT and low byte first, and
 * what the parser of src/riskloom/runtime_bundle.py makes of them.
 */
module ZipBytes {
  import opened Common
  import opened ZipDirectory

  /** A number below 65,536 in two bytes. */
  function Two(n: nat): Bytes
    requires n < 65536
  {
    [n % 256, n / 256]
  }

  /** A number below 4,294,967,296 in four bytes. */
  function Four(n: nat): Bytes
    requires n < 4294967296
  {
    [n % 256, n / 256 % 256, n / 65536 % 256, n / 16777216]
  }

  lemma TwoIsRead(n: nat)
    requires n < 65536
    ensures U16(Two(n), 0) == n
  {
  }

  lemma FourIsRead(n: nat)
    requires n < 4294967296
    ensures U32(Four(n), 0) == n
  {
    var b, c := n / 256, n / 65536;
    assert b / 256 == c && c / 256 == n / 16777216;
    assert n == 256 * b + n % 256 && b == 256 * c + b % 256 && c == 256 * (n / 16777216) + c % 256;
  }

  /**
   * One member of the directory.  `versions`, `middle` and `last` hold the
   * fields between those the parser reads: eighteen bytes of method, time, date,
   * checksum and sizes, and twelve of disk, attributes and local offset.
   */
  datatype Item = Item(name: Bytes, utf8: bool, extra: Bytes, comment: Bytes, versions: Bytes, middle: Bytes, last: Bytes)

  predicate ItemFits(i: Item) {
    && 1 <= |i.name| < 65536 && |i.extra| < 65536 && |i.comment| < 65536
    && |i.versions| == 4 && |i.middle| == 18 && |i.last| == 12
  }

  function ItemHeader(i: Item): (header: Bytes)
    requires ItemFits(i)
    ensures |header| == 46
  {
    [0x50, 0x4B, 0x01, 0x02] + i.versions + [0x00, if i.utf8 then 0x08 else 0x00] + i.middle
    + Two(|i.name|) + Two(|i.extra|) + Two(|i.comment|) + i.last
  }

  function ItemsBytes(items: seq<Item>): Bytes
    requires forall i :: i in items ==> ItemFits(i)
  {
    if items == [] then []
    else ItemHeader(items[0]) + items[0].name + items[0].extra + items[0].comment + ItemsBytes(items[1..])
  }

  function EndBytes(count: nat, size: nat, offset: nat): (end: Bytes)
    requires count < 65536 && size < 4294967296 && offset < 4294967296
    ensures |end| == 22
  {
    [0x50, 0x4B, 0x05, 0x06, 0x00, 0x00, 0x00, 0x00] + Two(count) + Two(count) + Four(size) + Four(offset) + [0x00, 0x00]
  }

  /** Small enough for the format without its 64-bit extension and for the parser's limit. */
  predicate Fits(data: Bytes, items: seq<Item>) {
    && (forall i :: i in items ==> ItemFits(i)) && |items| <= 64
    && |ItemsBytes(items)| < 4294967295 && |data| < 4294967295
  }

  function Payload(data: Bytes, items: seq<Item>): Bytes
    requires Fits(data, items)
  {
    data + ItemsBytes(items) + EndBytes(|items|, |ItemsBytes(items)|, |data|)
  }

  function NameOf(d: Decoder, i: Item): Option<string> {
    if i.utf8 then d.utf8(i.name) else Some(d.cp437(i.name))
  }

  function NamesOf(d: Decoder, items: seq<Item>): seq<string>
    requires forall i :: i in items ==> NameOf(d, i).Some?
  {
    if items == [] then [] else [NameOf(d, items[0]).value] + NamesOf(d, items[1..])
  }

  function RecordOf(i: Item): Record
    requires ItemFits(i)
  {
    Record(ItemHeader(i), i.name, i.extra, i.comment)
  }

  lemma U16At(p: Bytes, at: nat, a: Bytes)
    requires at + 2 <= |p| && |a| == 2 && p[at..at + 2] == a
    ensures U16(p, at) == U16(a, 0)
  {
    assert p[at] == p[at..at + 2][0] && p[at + 1] == p[at..at + 2][1];
  }

  lemma ItemIsRecord(i: Item, d: Decoder)
    requires ItemFits(i)
    ensures WellFormedRecord(RecordOf(i)) && DecodeName(d, RecordOf(i)) == NameOf(d, i)
  {
    var h := ItemHeader(i);
    assert h[..4] == [0x50, 0x4B, 0x01, 0x02];
    assert h[8] == 0x00 && h[9] == if i.utf8 then 0x08 else 0x00;
    assert h[28..30] == Two(|i.name|) && h[30..32] == Two(|i.extra|) && h[32..34] == Two(|i.comment|);
    U16At(h, 28, Two(|i.name|));
    U16At(h, 30, Two(|i.extra|));
    U16At(h, 32, Two(|i.comment|));
    TwoIsRead(|i.name|);
    TwoIsRead(|i.extra|);
    TwoIsRead(|i.comment|);
  }

  function RecordsOf(items: seq<Item>): (records: seq<Record>)
    requires forall i :: i in items ==> ItemFits(i)
    ensures |records| == |items|
  {
    if items == [] then [] else [RecordOf(items[0])] + RecordsOf(items[1..])
  }

  lemma {:induction false} ItemsAreRecords(items: seq<Item>, d: Decoder)
    requires forall i :: i in items ==> ItemFits(i)
    ensures EncodeDirectory(RecordsOf(items)) == ItemsBytes(items)
    ensures forall r :: r in RecordsOf(items) ==> WellFormedRecord(r)
    ensures (forall i :: i in items ==> NameOf(d, i).Some?) ==>
              Readable(d, RecordsOf(items)) && Names(d, RecordsOf(items)) == NamesOf(d, items)
  {
    hide WellFormedRecord, DecodeName, NameOf, ItemFits, ItemHeader;
    if items != [] {
      ItemIsRecord(items[0], d);
      ItemsAreRecords(items[1..], d);
      var rs := RecordsOf(items);
      assert rs[1..] == RecordsOf(items[1..]) && rs[0] == RecordOf(items[0]);
    }
  }

  lemma EndIsRead(count: nat, size: nat, offset: nat)
    requires count < 65536 && size < 4294967295 && offset < 4294967295
    ensures EndDescribes(EndBytes(count, size, offset), offset, size, count)
  {
    var e := EndBytes(count, size, offset);
    assert e[..4] == [0x50, 0x4B, 0x05, 0x06];
    assert e[4] == 0 && e[5] == 0 && e[6] == 0 && e[7] == 0 && e[20] == 0 && e[21] == 0;
    assert e[8..10] == Two(count) && e[10..12] == Two(count) && e[12..16] == Four(size) && e[16..20] == Four(offset);
    U16At(e, 8, Two(count));
    U16At(e, 10, Two(count));
    TwoIsRead(count);
    FourIsRead(size);
    FourIsRead(offset);
    U32At(e, 12, Four(size));
    U32At(e, 16, Four(offset));
  }

  lemma U32At(p: Bytes, at: nat, a: Bytes)
    requires at + 4 <= |p| && |a| == 4 && p[at..at + 4] == a
    ensures U32(p, at) == U32(a, 0)
  {
    assert a[0] == p[at] && a[1] == p[at + 1] && a[2] == p[at + 2] && a[3] == p[at + 3];
  }

  /** The one thing that may not stand twenty bytes before the end record. */
  predicate LocatorBefore(before: Bytes) {
    |before| >= 20 && before[|before| - 20..|before| - 16] == [0x50, 0x4B, 0x06, 0x07]
  }

  /** Whatever its members, an archive written out like this has exactly their names read back, so the parser returns them. */
  lemma WrittenIsRead(data: Bytes, items: seq<Item>, d: Decoder)
    requires Fits(data, items) && !LocatorBefore(data + ItemsBytes(items))
    requires forall i :: i in items ==> NameOf(d, i).Some?
    ensures Spells(Payload(data, items), d, NamesOf(d, items))
  {
    hide ItemFits, NameOf, EndDescribes, WellFormedRecord, U16, U32;
    var records, size := RecordsOf(items), |ItemsBytes(items)|;
    var end := EndBytes(|items|, size, |data|);
    ItemsAreRecords(items, d);
    EndIsRead(|items|, size, |data|);
    var a := Archive(data, records, end);
    assert SupportedArchive(a) && EncodeArchive(a) == Payload(data, items);
  }

  // ----- an archive as literal bytes

  const LOCAL_PART: Bytes := [
    0x50, 0x4B, 0x03, 0x04, 0x14, 0x00, 0x00, 0x00, 0x00, 0x00, 0x00, 0x00, 0x00, 0x00, 0x00, 0x00,
    0x00, 0x00, 0x00, 0x00, 0x00, 0x00, 0x00, 0x00, 0x00, 0x00, 0x01, 0x00, 0x00, 0x00, 0x61
  ]

  const DIRECTORY_HEADER: Bytes :=
    [0x50, 0x4B, 0x01, 0x02] + [0x14, 0x00, 0x14, 0x00] + [0x00, 0x00]
    + [0, 0, 0, 0, 0, 0, 0, 0, 0, 0, 0, 0, 0, 0, 0, 0, 0, 0]
    + [0x01, 0x00] + [0x00, 0x00] + [0x00, 0x00] + [0, 0, 0, 0, 0, 0, 0, 0, 0, 0, 0, 0]

  const DIRECTORY_PART: Bytes := DIRECTORY_HEADER + [0x61]

  const END_PART: Bytes := [
    0x50, 0x4B, 0x05, 0x06, 0x00, 0x00, 0x00, 0x00, 0x01, 0x00, 0x01, 0x00,
    0x2F, 0x00, 0x00, 0x00, 0x1F, 0x00, 0x00, 0x00, 0x00, 0x00
  ]

  const ONE_ITEM := Item([0x61], false, [], [], [0x14, 0x00, 0x14, 0x00],
    [0, 0, 0, 0, 0, 0, 0, 0, 0, 0, 0, 0, 0, 0, 0, 0, 0, 0], [0, 0, 0, 0, 0, 0, 0, 0, 0, 0, 0, 0])

  lemma OneItemBytes()
    ensures ItemFits(ONE_ITEM) && ItemsBytes([ONE_ITEM]) == DIRECTORY_PART
  {
    var i := ONE_ITEM;
    assert Two(1) == [0x01, 0x00] && Two(0) == [0x00, 0x00];
    assert ItemHeader(i) == DIRECTORY_HEADER;
    assert [i][1..] == [];
    hide ItemHeader, DIRECTORY_HEADER;
    assert ItemsBytes([i]) == ItemHeader(i) + [0x61] + [] + [] + [];
  }

  /** An ordinary archive of one stored, empty file named by the byte 0x61. */
  lemma OneMember(d: Decoder)
    ensures Spells(LOCAL_PART + DIRECTORY_PART + END_PART, d, [d.cp437([0x61])])
  {
    OneItemBytes();
    assert EndBytes(1, 47, 31) == END_PART;
    assert |LOCAL_PART| == 31 && |DIRECTORY_PART| == 47;
    NotLocator(LOCAL_PART + DIRECTORY_PART);
    hide ItemsBytes, LOCAL_PART, DIRECTORY_PART, END_PART, Spells, EndBytes, LocatorBefore;
    assert NamesOf(d, [ONE_ITEM]) == [d.cp437([0x61])];
    WrittenIsRead(LOCAL_PART, [ONE_ITEM], d);
  }

  lemma NotLocator(before: Bytes)
    requires before == LOCAL_PART + DIRECTORY_PART
    ensures !LocatorBefore(before)
  {
    assert |before| == 78 && before[58] == DIRECTORY_PART[27];
    assert before[58..62][0] == 0x00;
  }

  // ----- what is refused

  lemma Sentinel(p: Bytes, at: nat)
    requires at + 4 <= |p|
    ensures p[at..at + 4] == [0xFF, 0xFF, 0xFF, 0xFF] ==> U32(p, at) == 4294967295
  {
    if p[at..at + 4] == [0xFF, 0xFF, 0xFF, 0xFF] {
      U32At(p, at, [0xFF, 0xFF, 0xFF, 0xFF]);
    }
  }

  /** Nothing with more than 64 members, a disk number, a size or an offset of the 64-bit extension is accepted. */
  lemma Limits(p: Bytes)
    requires |p| >= 22 && EndRecordOk(p)
    ensures var e := p[|p| - 22..];
            && e[..4] == [0x50, 0x4B, 0x05, 0x06] && e[4..8] == [0x00, 0x00, 0x00, 0x00]
            && e[8] == e[10] <= 64 && e[9] == e[11] == 0x00
            && e[12..16] != [0xFF, 0xFF, 0xFF, 0xFF] && e[16..20] != [0xFF, 0xFF, 0xFF, 0xFF]
            && e[20..22] == [0x00, 0x00]
    ensures !LocatorBefore(p[..|p| - 22])
  {
    var at := |p| - 22;
    var e, before := p[at..], p[..at];
    assert e[..4] == p[at..at + 4] && e[12..16] == p[at + 12..at + 16] && e[16..20] == p[at + 16..at + 20];
    Sentinel(p, at + 12);
    Sentinel(p, at + 16);
    assert e[4] == e[5] == e[6] == e[7] == e[20] == e[21] == 0;
    if |before| >= 20 {
      assert before[|before| - 20..|before| - 16] == p[at - 20..at - 16];
    }
  }

  predicate LooksLikeEnd(p: Bytes, i: nat) {
    i + 4 <= |p| && p[i..i + 4] == [0x50, 0x4B, 0x05, 0x06]
  }

  /** An archive with a comment is refused as one, when no later bytes look like an end record. */
  lemma CommentIsRefused(before: Bytes, size: nat, offset: nat, count: nat, comment: Bytes)
    requires count < 65536 && size < 4294967296 && offset < 4294967296 && 1 <= |comment| < 65536
    requires var p := before + EndBytes(count, size, offset)[..20] + Two(|comment|) + comment;
             forall i :: |before| < i ==> !LooksLikeEnd(p, i)
    ensures var p := before + EndBytes(count, size, offset)[..20] + Two(|comment|) + comment;
            EndRefused(p, CommentUnsupported)
  {
    var p := before + EndBytes(count, size, offset)[..20] + Two(|comment|) + comment;
    var at := |before|;
    assert p[at..at + 4] == [0x50, 0x4B, 0x05, 0x06];
    assert p[at + 20..at + 22] == Two(|comment|);
    U16At(p, at + 20, Two(|comment|));
    TwoIsRead(|comment|);
    assert SignatureAt(p, at, EOCD_SIGNATURE);
    forall i | at < i
      ensures !SignatureAt(p, i, EOCD_SIGNATURE)
    {
      assert !LooksLikeEnd(p, i);
    }
    assert LastEnd(p, at) && Commented(p, at);
  }
}
