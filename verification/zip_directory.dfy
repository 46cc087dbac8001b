/**
 * The byte-level ZIP directory parser (src/riskloom/runtime_bundle.py), against
 * the record layouts of sections 4.3.12 and 4.3.16 of PKWARE's APPNOTE.TXT.
 */
module ZipDirectory {
  import opened Common

  type Byte = x: int | 0 <= x < 256

  type Bytes = seq<Byte>

  const DIRECTORY_SIGNATURE: Bytes := [0x50, 0x4B, 1, 2]
  const DIRECTORY_FIXED := 46
  const EOCD_SIGNATURE: Bytes := [0x50, 0x4B, 5, 6]
  const EOCD_FIXED := 22
  const LOCATOR_SIGNATURE: Bytes := [0x50, 0x4B, 6, 7]
  const LOCATOR_BYTES := 20
  const U16_SENTINEL := 0xFFFF
  const U32_SENTINEL := 0xFFFF_FFFF
  const MAXIMUM_RECORDS := 64
  const UTF8_NAME_FLAG := 0x800

  datatype ParseError =
    | Truncated | EocdInvalid | CommentUnsupported | Zip64Unsupported | MultiDiskUnsupported
    | RecordCountMismatch | TooManyRecords | DirectoryOutOfBounds | DirectoryExtentInvalid
    | DirectoryTruncated | DirectorySignatureInvalid | MemberNameInvalid | MemberNameUndecodable

  /** How raw names become text: UTF-8 may fail, code page 437 never does. */
  datatype Decoder = Decoder(utf8: Bytes -> Option<string>, cp437: Bytes -> string)

  function U16(p: Bytes, at: nat): nat
    requires at + 2 <= |p|
  {
    p[at] as int + 0x100 * (p[at + 1] as int)
  }

  function U32(p: Bytes, at: nat): nat
    requires at + 4 <= |p|
  {
    U16(p, at) + 0x1_0000 * U16(p, at + 2)
  }

  // ----- the layout

  /** A central directory record; the header holds everything before the name. */
  datatype Record = Record(header: Bytes, name: Bytes, extra: Bytes, comment: Bytes)

  predicate WellFormedRecord(r: Record) {
    && |r.header| == DIRECTORY_FIXED
    && r.header[..4] == DIRECTORY_SIGNATURE
    && U16(r.header, 28) == |r.name| && r.name != []
    && U16(r.header, 30) == |r.extra|
    && U16(r.header, 32) == |r.comment|
  }

  function EncodeRecord(r: Record): Bytes {
    r.header + r.name + r.extra + r.comment
  }

  function EncodeDirectory(records: seq<Record>): Bytes {
    if records == [] then [] else EncodeRecord(records[0]) + EncodeDirectory(records[1..])
  }

  function DecodeName(d: Decoder, r: Record): Option<string>
    requires |r.header| == DIRECTORY_FIXED
  {
    if U16(r.header, 8) / UTF8_NAME_FLAG % 2 == 1 then d.utf8(r.name) else Some(d.cp437(r.name))
  }

  /** Stored data, then the directory, then the end record. */
  datatype Archive = Archive(data: Bytes, records: seq<Record>, end: Bytes)

  function EncodeArchive(a: Archive): Bytes {
    a.data + EncodeDirectory(a.records) + a.end
  }

  /** A single-disk archive without comment, ZIP64 or more than 64 records. */
  predicate SupportedArchive(a: Archive) {
    var directory := EncodeDirectory(a.records);
    var before := a.data + directory;
    && (forall r :: r in a.records ==> WellFormedRecord(r))
    && |a.records| <= MAXIMUM_RECORDS
    && EndDescribes(a.end, |a.data|, |directory|, |a.records|)
    && NoLocator(before)
  }

  /** The fields of section 4.3.16. */
  predicate EndDescribes(end: Bytes, offset: nat, size: nat, count: nat) {
    && |end| == EOCD_FIXED && end[..4] == EOCD_SIGNATURE
    && U16(end, 4) == 0 && U16(end, 6) == 0
    && U16(end, 8) == U16(end, 10) == count
    && U32(end, 12) == size != U32_SENTINEL
    && U32(end, 16) == offset != U32_SENTINEL
    && U16(end, 20) == 0
  }

  predicate NoLocator(before: Bytes) {
    |before| >= LOCATOR_BYTES ==> before[|before| - LOCATOR_BYTES..|before| - LOCATOR_BYTES + 4] != LOCATOR_SIGNATURE
  }

  predicate Readable(d: Decoder, records: seq<Record>) {
    forall r :: r in records ==> |r.header| == DIRECTORY_FIXED && DecodeName(d, r).Some?
  }

  function Names(d: Decoder, records: seq<Record>): seq<string>
    requires Readable(d, records)
  {
    if records == [] then [] else [DecodeName(d, records[0]).value] + Names(d, records[1..])
  }

  // ----- reading a directory back

  /** The record at the start of `p`, if one fits. */
  function HeadRecord(p: Bytes): Option<Record> {
    if |p| < DIRECTORY_FIXED || p[..4] != DIRECTORY_SIGNATURE || U16(p, 28) == 0 then None
    else
      var start := DIRECTORY_FIXED;
      var end := start + U16(p, 28);
      var extraEnd := end + U16(p, 30);
      var recordEnd := extraEnd + U16(p, 32);
      if recordEnd > |p| then None else Some(Record(p[..start], p[start..end], p[end..extraEnd], p[extraEnd..recordEnd]))
  }

  function RecordLength(r: Record): nat {
    |r.header| + |r.name| + |r.extra| + |r.comment|
  }

  lemma HeadRecordFound(p: Bytes)
    requires HeadRecord(p).Some?
    ensures var r := HeadRecord(p).value;
            WellFormedRecord(r) && 0 < RecordLength(r) <= |p| && p == EncodeRecord(r) + p[RecordLength(r)..]
  {
    var r := HeadRecord(p).value;
    assert r.header[28] == p[28] && r.header[29] == p[29] && r.header[30] == p[30];
    assert r.header[31] == p[31] && r.header[32] == p[32] && r.header[33] == p[33];
    assert r.header[..4] == p[..4];
  }

  lemma HeadRecordOf(r: Record, rest: Bytes)
    requires WellFormedRecord(r)
    ensures HeadRecord(EncodeRecord(r) + rest) == Some(r)
    ensures (EncodeRecord(r) + rest)[RecordLength(r)..] == rest
  {
    var p := EncodeRecord(r) + rest;
    assert p == r.header + r.name + r.extra + r.comment + rest;
    assert forall i :: 0 <= i < DIRECTORY_FIXED ==> p[i] == r.header[i];
    assert p[..4] == r.header[..4];
    assert p[..DIRECTORY_FIXED] == r.header;
    var end := DIRECTORY_FIXED + |r.name|;
    assert p[DIRECTORY_FIXED..end] == r.name;
    assert p[end..end + |r.extra|] == r.extra;
    assert p[end + |r.extra|..end + |r.extra| + |r.comment|] == r.comment;
  }

  /** Exactly `count` records, leaving nothing over. */
  function ParseDirectory(p: Bytes, count: nat): Option<seq<Record>>
    decreases count
  {
    if count == 0 then if p == [] then Some([]) else None
    else
      match HeadRecord(p)
      case None => None
      case Some(r) =>
        HeadRecordFound(p);
        match ParseDirectory(p[RecordLength(r)..], count - 1)
        case None => None
        case Some(rest) => Some([r] + rest)
  }

  /** Parsing tiles the bytes: the records read, encoded again, are the bytes. */
  lemma {:induction false} ParsedIsEncoded(p: Bytes, count: nat)
    requires ParseDirectory(p, count).Some?
    ensures var rs := ParseDirectory(p, count).value;
            |rs| == count && EncodeDirectory(rs) == p && forall r :: r in rs ==> WellFormedRecord(r)
    decreases count
  {
    if count > 0 {
      var r := HeadRecord(p).value;
      HeadRecordFound(p);
      ParsedIsEncoded(p[RecordLength(r)..], count - 1);
    }
  }

  /** What was encoded is read back. */
  lemma {:induction false} EncodedIsParsed(records: seq<Record>)
    requires forall r :: r in records ==> WellFormedRecord(r)
    ensures ParseDirectory(EncodeDirectory(records), |records|) == Some(records)
  {
    if records != [] {
      HeadRecordOf(records[0], EncodeDirectory(records[1..]));
      EncodedIsParsed(records[1..]);
      assert [records[0]] + records[1..] == records;
    }
  }

  // ----- the parser

  predicate SignatureAt(p: Bytes, at: nat, signature: Bytes) {
    at + |signature| <= |p| && p[at..at + |signature|] == signature
  }

  /** The last occurrence at or after `from`. */
  method FindLast(p: Bytes, signature: Bytes, from: nat) returns (found: Option<nat>)
    ensures found.Some? ==> found.value >= from && SignatureAt(p, found.value, signature)
    ensures found.Some? ==> forall i :: found.value < i ==> !SignatureAt(p, i, signature)
    ensures found.None? ==> forall i :: from <= i ==> !SignatureAt(p, i, signature)
  {
    var i := |p| + 1;
    while i > from
      invariant forall k :: i <= k && from <= k ==> !SignatureAt(p, k, signature)
    {
      i := i - 1;
      if SignatureAt(p, i, signature) {
        return Some(i);
      }
    }
    return None;
  }

  /** What the end record, in the last 22 bytes, must say. */
  predicate EndRecordOk(p: Bytes)
    requires |p| >= EOCD_FIXED
  {
    var eocd := |p| - EOCD_FIXED;
    && SignatureAt(p, eocd, EOCD_SIGNATURE)
    && U16(p, eocd + 20) == 0
    && !(eocd >= LOCATOR_BYTES && SignatureAt(p, eocd - LOCATOR_BYTES, LOCATOR_SIGNATURE))
    && U16(p, eocd + 4) == 0 && U16(p, eocd + 6) == 0
    && U16(p, eocd + 8) == U16(p, eocd + 10) <= MAXIMUM_RECORDS
    && U32(p, eocd + 12) != U32_SENTINEL && U32(p, eocd + 16) != U32_SENTINEL
    && U32(p, eocd + 16) + U32(p, eocd + 12) == eocd
  }

  /** An accepted payload read as an archive. */
  function ArchiveOf(p: Bytes, records: seq<Record>): Archive
    requires |p| >= EOCD_FIXED && EndRecordOk(p)
  {
    var eocd := |p| - EOCD_FIXED;
    Archive(p[..U32(p, eocd + 16)], records, p[eocd..])
  }

  function DirectoryBytes(p: Bytes): Bytes
    requires |p| >= EOCD_FIXED && EndRecordOk(p)
  {
    var eocd := |p| - EOCD_FIXED;
    p[U32(p, eocd + 16)..eocd]
  }

  function DirectoryCount(p: Bytes): nat
    requires |p| >= EOCD_FIXED
  {
    U16(p, |p| - EOCD_FIXED + 10)
  }

  /** The checks on the payload are checks on its last 22 bytes and on what precedes them. */
  lemma EndInPlace(before: Bytes, end: Bytes)
    requires |end| == EOCD_FIXED
    ensures var p := before + end;
            EndRecordOk(p) <==>
              && EndDescribes(end, U32(end, 16), U32(end, 12), U16(end, 10))
              && U16(end, 10) <= MAXIMUM_RECORDS && U32(end, 16) + U32(end, 12) == |before| && NoLocator(before)
    ensures U32(before + end, |before| + 16) == U32(end, 16)
    ensures U16(before + end, |before| + 10) == U16(end, 10)
  {
    var p := before + end;
    assert forall at: nat :: at + 2 <= EOCD_FIXED ==> U16(end, at) == U16(p, |before| + at);
    assert p[|before|..|before| + 4] == end[..4];
    if |before| >= LOCATOR_BYTES {
      var at := |before| - LOCATOR_BYTES;
      assert p[at..at + 4] == before[at..at + 4];
    }
  }

  /** Sound: what the parser accepts is the encoding of a supported archive. */
  lemma AcceptedIsArchive(p: Bytes, records: seq<Record>)
    requires |p| >= EOCD_FIXED && EndRecordOk(p)
    requires ParseDirectory(DirectoryBytes(p), DirectoryCount(p)) == Some(records)
    ensures SupportedArchive(ArchiveOf(p, records)) && EncodeArchive(ArchiveOf(p, records)) == p
  {
    hide ParseDirectory, EncodeDirectory, WellFormedRecord, EndDescribes, NoLocator, U16, U32, SignatureAt;
    var eocd := |p| - EOCD_FIXED;
    var before, end := p[..eocd], p[eocd..];
    assert p == before + end;
    EndInPlace(before, end);
    ParsedIsEncoded(DirectoryBytes(p), DirectoryCount(p));
    assert p[..U32(p, eocd + 16)] + DirectoryBytes(p) == before;
  }

  lemma EndFields(a: Archive)
    requires SupportedArchive(a)
    ensures |a.end| == EOCD_FIXED && U32(a.end, 12) == |EncodeDirectory(a.records)| && U32(a.end, 16) == |a.data| && U16(a.end, 10) == |a.records|
  {
  }

  /** Complete: every supported archive passes every check and parses to its own records. */
  lemma ArchiveIsAccepted(a: Archive)
    requires SupportedArchive(a)
    ensures var p := EncodeArchive(a);
            && |p| >= EOCD_FIXED && EndRecordOk(p)
            && ParseDirectory(DirectoryBytes(p), DirectoryCount(p)) == Some(a.records)
  {
    hide ParseDirectory;
    hide EncodeDirectory;
    hide WellFormedRecord;
    hide EndDescribes;
    hide NoLocator;
    var p := EncodeArchive(a);
    var directory := EncodeDirectory(a.records);
    var before := a.data + directory;
    EndFields(a);
    assert p == before + a.end;
    EndInPlace(before, a.end);
    assert p[|a.data|..|before|] == directory;
    EncodedIsParsed(a.records);
  }

  /** `p` is the encoding of a supported archive with readable names, and these are the names. */
  ghost predicate Spells(p: Bytes, d: Decoder, names: seq<string>) {
    exists a :: SupportedArchive(a) && EncodeArchive(a) == p && Readable(d, a.records) && Names(d, a.records) == names
  }

  /** The names are settled by the bytes. */
  lemma SpellsOnce(p: Bytes, d: Decoder, names: seq<string>, others: seq<string>)
    requires Spells(p, d, names) && Spells(p, d, others)
    ensures names == others
  {
    var a :| SupportedArchive(a) && EncodeArchive(a) == p && Readable(d, a.records) && Names(d, a.records) == names;
    var b :| SupportedArchive(b) && EncodeArchive(b) == p && Readable(d, b.records) && Names(d, b.records) == others;
    ArchiveIsAccepted(a);
    ArchiveIsAccepted(b);
  }

  /** The answer for a payload whose end record is fine. */
  function Listed(d: Decoder, parsed: Option<seq<Record>>): Option<seq<string>> {
    match parsed
    case None => None
    case Some(records) => if Readable(d, records) then Some(Names(d, records)) else None
  }

  lemma ListedIsSpelled(p: Bytes, d: Decoder)
    requires |p| >= EOCD_FIXED && EndRecordOk(p)
    ensures var listed := Listed(d, ParseDirectory(DirectoryBytes(p), DirectoryCount(p)));
            forall names :: Spells(p, d, names) <==> listed == Some(names)
  {
    var parsed := ParseDirectory(DirectoryBytes(p), DirectoryCount(p));
    forall names
      ensures Spells(p, d, names) <==> Listed(d, parsed) == Some(names)
    {
      if Listed(d, parsed) == Some(names) {
        AcceptedIsArchive(p, parsed.value);
        assert ArchiveOf(p, parsed.value).records == parsed.value;
      }
      if Spells(p, d, names) {
        var a :| SupportedArchive(a) && EncodeArchive(a) == p && Readable(d, a.records) && Names(d, a.records) == names;
        ArchiveIsAccepted(a);
      }
    }
  }

  lemma RejectedSpellsNothing(p: Bytes, d: Decoder)
    requires |p| < EOCD_FIXED || !EndRecordOk(p)
    ensures forall names :: !Spells(p, d, names)
  {
    forall names
      ensures !Spells(p, d, names)
    {
      if a :| SupportedArchive(a) && EncodeArchive(a) == p && Readable(d, a.records) && Names(d, a.records) == names {
        ArchiveIsAccepted(a);
      }
    }
  }

  /** Where the search for an end record that is not at the end begins: it may have a comment of up to 65,535 bytes. */
  function WindowStart(p: Bytes): nat {
    if |p| - EOCD_FIXED < 0xFFFF then 0 else |p| - EOCD_FIXED - 0xFFFF
  }

  /** The last end-record signature in the window. */
  ghost predicate LastEnd(p: Bytes, at: nat) {
    && WindowStart(p) <= at && SignatureAt(p, at, EOCD_SIGNATURE)
    && forall i :: at < i ==> !SignatureAt(p, i, EOCD_SIGNATURE)
  }

  /** That end record, with the comment it declares, fills the payload to its end. */
  predicate Commented(p: Bytes, at: nat) {
    at + EOCD_FIXED <= |p| && at + EOCD_FIXED + U16(p, at + 20) == |p|
  }

  /** What is wrong with an end record in the last 22 bytes: the first of its fields that no supported archive has. */
  function FieldFault(p: Bytes): (fault: Option<ParseError>)
    requires |p| >= EOCD_FIXED && SignatureAt(p, |p| - EOCD_FIXED, EOCD_SIGNATURE)
    ensures fault.None? <==> EndRecordOk(p)
  {
    var eocd := |p| - EOCD_FIXED;
    if U16(p, eocd + 20) != 0 then Some(CommentUnsupported)
    else if || (eocd >= LOCATOR_BYTES && SignatureAt(p, eocd - LOCATOR_BYTES, LOCATOR_SIGNATURE))
            || U16_SENTINEL in [U16(p, eocd + 4), U16(p, eocd + 6), U16(p, eocd + 8), U16(p, eocd + 10)]
            || U32_SENTINEL in [U32(p, eocd + 12), U32(p, eocd + 16)]
         then Some(Zip64Unsupported)
    else if U16(p, eocd + 4) != 0 || U16(p, eocd + 6) != 0 then Some(MultiDiskUnsupported)
    else if U16(p, eocd + 8) != U16(p, eocd + 10) then Some(RecordCountMismatch)
    else if U16(p, eocd + 10) > MAXIMUM_RECORDS then Some(TooManyRecords)
    else if U32(p, eocd + 12) > eocd || U32(p, eocd + 16) > eocd then Some(DirectoryOutOfBounds)
    else if U32(p, eocd + 16) + U32(p, eocd + 12) != eocd then Some(DirectoryExtentInvalid)
    else None
  }

  /** The errors before the directory is read. */
  ghost predicate EndRefused(p: Bytes, e: ParseError) {
    if |p| < EOCD_FIXED then e == Truncated
    else if SignatureAt(p, |p| - EOCD_FIXED, EOCD_SIGNATURE) then FieldFault(p) == Some(e)
    else if exists at: nat :: LastEnd(p, at) && Commented(p, at) then e == CommentUnsupported
    else if exists at: nat :: LastEnd(p, at) && at + EOCD_FIXED > |p| then e == Truncated
    else e == EocdInvalid
  }

  /** The checks on the end record, in the source's order. */
  method ReadEndRecord(p: Bytes) returns (r: Result<(nat, nat), ParseError>)
    ensures r.Ok? <==> |p| >= EOCD_FIXED && EndRecordOk(p)
    ensures r.Ok? ==> r.value == (U32(p, |p| - EOCD_FIXED + 16), DirectoryCount(p)) && r.value.0 <= |p| - EOCD_FIXED
    ensures r.Err? ==> EndRefused(p, r.error)
  {
    var size := |p|;
    if size < EOCD_FIXED {
      return Err(Truncated);
    }
    var eocd := size - EOCD_FIXED;
    if !SignatureAt(p, eocd, EOCD_SIGNATURE) {
      var found := FindLast(p, EOCD_SIGNATURE, WindowStart(p));
      if found.None? {
        return Err(EocdInvalid);
      }
      assert LastEnd(p, found.value);
      assert forall at: nat :: LastEnd(p, at) ==> at == found.value;
      if found.value + EOCD_FIXED > size {
        return Err(Truncated);
      }
      if found.value + EOCD_FIXED + U16(p, found.value + 20) != size {
        return Err(EocdInvalid);
      }
      return Err(CommentUnsupported);
    }
    if U16(p, eocd + 20) != 0 {
      return Err(CommentUnsupported);
    }
    if eocd >= LOCATOR_BYTES && SignatureAt(p, eocd - LOCATOR_BYTES, LOCATOR_SIGNATURE) {
      return Err(Zip64Unsupported);
    }
    var diskNumber, directoryDisk := U16(p, eocd + 4), U16(p, eocd + 6);
    var recordsOnDisk, totalRecords := U16(p, eocd + 8), U16(p, eocd + 10);
    var directorySize, directoryOffset := U32(p, eocd + 12), U32(p, eocd + 16);
    if || diskNumber == U16_SENTINEL || directoryDisk == U16_SENTINEL
       || recordsOnDisk == U16_SENTINEL || totalRecords == U16_SENTINEL
       || directorySize == U32_SENTINEL || directoryOffset == U32_SENTINEL
    {
      return Err(Zip64Unsupported);
    }
    if diskNumber != 0 || directoryDisk != 0 {
      return Err(MultiDiskUnsupported);
    }
    if recordsOnDisk != totalRecords {
      return Err(RecordCountMismatch);
    }
    if totalRecords > MAXIMUM_RECORDS {
      return Err(TooManyRecords);
    }
    if directoryOffset > eocd || directorySize > eocd {
      return Err(DirectoryOutOfBounds);
    }
    if directoryOffset + directorySize != eocd {
      return Err(DirectoryExtentInvalid);
    }
    return Ok((directoryOffset, totalRecords));
  }

  /** Accepts exactly the encodings of supported archives, and lists their names in order. */
  method RawMemberNames(p: Bytes, d: Decoder) returns (r: Result<seq<string>, ParseError>)
    ensures forall names :: r == Ok(names) <==> Spells(p, d, names)
    ensures r.Err? ==>
              if |p| >= EOCD_FIXED && EndRecordOk(p) then Refused(DirectoryBytes(p), DirectoryCount(p), d, r.error)
              else EndRefused(p, r.error)
  {
    hide Spells;
    hide ParseDirectory;
    hide ListNames;
    hide Listed;
    hide EndRecordOk;
    hide EndRefused;
    hide Refused;
    hide SignatureAt;
    var end := ReadEndRecord(p);
    if end.Err? {
      RejectedSpellsNothing(p, d);
      return Err(end.error);
    }
    ListedIsSpelled(p, d);
    ListNamesIsListed(DirectoryBytes(p), DirectoryCount(p), d);
    r := ReadDirectory(p, end.value.0, |p| - EOCD_FIXED, end.value.1, d);
  }

  /** Why no readable record starts here. */
  function HeadFault(p: Bytes, d: Decoder): (fault: Option<ParseError>)
    ensures fault.None? <==> HeadRecord(p).Some? && DecodeName(d, HeadRecord(p).value).Some?
  {
    if |p| < DIRECTORY_FIXED then Some(DirectoryTruncated)
    else if p[..4] != DIRECTORY_SIGNATURE then Some(DirectorySignatureInvalid)
    else if U16(p, 28) == 0 then Some(MemberNameInvalid)
    else match HeadRecord(p)
      case None => Some(DirectoryTruncated)
      case Some(r) => if DecodeName(d, r).None? then Some(MemberNameUndecodable) else None
  }

  /**
   * Why these bytes are not `count` readable records: readable records come
   * first, and then either too few of them or something after the last.
   */
  ghost predicate Refused(p: Bytes, count: nat, d: Decoder, e: ParseError) {
    exists records, rest :: RefusedAfter(p, records, rest, count, d, e)
  }

  ghost predicate RefusedAfter(p: Bytes, records: seq<Record>, rest: Bytes, count: nat, d: Decoder, e: ParseError) {
    && p == EncodeDirectory(records) + rest && |records| <= count
    && (forall r :: r in records ==> WellFormedRecord(r)) && Readable(d, records)
    && if |records| < count then HeadFault(rest, d) == Some(e) else rest != [] && e == DirectoryExtentInvalid
  }

  /** The same reason, found record by record. */
  function Fault(p: Bytes, count: nat, d: Decoder): Option<ParseError>
    decreases count
  {
    if count == 0 then if p == [] then None else Some(DirectoryExtentInvalid)
    else if HeadFault(p, d).Some? then HeadFault(p, d)
    else
      HeadRecordFound(p);
      Fault(p[RecordLength(HeadRecord(p).value)..], count - 1, d)
  }

  /** The records in front and the reason after them are settled by the bytes. */
  lemma {:induction false} RefusedOnce(p: Bytes, records: seq<Record>, rest: Bytes, count: nat, d: Decoder, e: ParseError)
    requires RefusedAfter(p, records, rest, count, d, e)
    ensures Fault(p, count, d) == Some(e)
    decreases count
  {
    hide HeadRecord, DecodeName, WellFormedRecord, EncodeRecord, HeadFault;
    if records == [] {
      assert p == rest;
    } else {
      var r, more := records[0], records[1..];
      var tail := EncodeDirectory(more) + rest;
      assert p == EncodeRecord(r) + tail;
      HeadRecordOf(r, tail);
      assert HeadFault(p, d).None?;
      RefusedOnce(tail, more, rest, count - 1, d, e);
    }
  }

  lemma {:induction false} FaultIsRefused(p: Bytes, count: nat, d: Decoder, e: ParseError)
    requires Fault(p, count, d) == Some(e)
    ensures Refused(p, count, d, e)
    decreases count
  {
    hide HeadRecord, DecodeName, WellFormedRecord, EncodeRecord, HeadFault;
    if count > 0 && HeadFault(p, d).None? {
      var r := HeadRecord(p).value;
      HeadRecordFound(p);
      var tail := p[RecordLength(r)..];
      FaultIsRefused(tail, count - 1, d, e);
      var more, rest :| RefusedAfter(tail, more, rest, count - 1, d, e);
      var records := [r] + more;
      assert records[0] == r && records[1..] == more;
      assert EncodeDirectory(records) + rest == EncodeRecord(r) + (EncodeDirectory(more) + rest);
      assert RefusedAfter(p, records, rest, count, d, e);
    } else {
      assert EncodeDirectory([]) + p == p;
      assert RefusedAfter(p, [], p, count, d, e);
    }
  }

  /** Bytes are refused for a reason exactly when they list no names, and for one reason only. */
  lemma FaultIffRefused(p: Bytes, count: nat, d: Decoder, e: ParseError)
    ensures Fault(p, count, d) == Some(e) <==> Refused(p, count, d, e)
  {
    hide Fault;
    if Fault(p, count, d) == Some(e) {
      FaultIsRefused(p, count, d, e);
    }
    if records, rest :| RefusedAfter(p, records, rest, count, d, e) {
      RefusedOnce(p, records, rest, count, d, e);
    }
  }

  /** One record, bounds first. */
  method ReadRecord(p: Bytes, cursor: nat, limit: nat, d: Decoder) returns (r: Result<(string, nat), ParseError>)
    requires cursor <= limit <= |p|
    ensures var head := HeadRecord(p[cursor..limit]);
            && (r.Err? ==> HeadFault(p[cursor..limit], d) == Some(r.error))
            && (head.None? || DecodeName(d, head.value).None? ==> r.Err?)
            && (head.Some? && DecodeName(d, head.value).Some? ==>
                  && r == Ok((DecodeName(d, head.value).value, cursor + RecordLength(head.value)))
                  && RecordLength(head.value) <= limit - cursor
                  && p[cursor..limit][RecordLength(head.value)..] == p[cursor + RecordLength(head.value)..limit])
  {
    ghost var rest := p[cursor..limit];
    SignatureInSlice(p, cursor, limit);
    if cursor + DIRECTORY_FIXED > limit {
      return Err(DirectoryTruncated);
    }
    if !SignatureAt(p, cursor, DIRECTORY_SIGNATURE) {
      return Err(DirectorySignatureInvalid);
    }
    assert forall at: nat :: at + 2 <= DIRECTORY_FIXED ==> U16(rest, at) == U16(p, cursor + at);
    var flags, nameLength := U16(p, cursor + 8), U16(p, cursor + 28);
    var extraLength, commentBytes := U16(p, cursor + 30), U16(p, cursor + 32);
    if nameLength == 0 {
      return Err(MemberNameInvalid);
    }
    var start := cursor + DIRECTORY_FIXED;
    var end := start + nameLength;
    var recordEnd := end + extraLength + commentBytes;
    if recordEnd > limit {
      return Err(DirectoryTruncated);
    }
    ghost var head := HeadRecord(rest).value;
    SliceInSlice(p, cursor, limit, DIRECTORY_FIXED, DIRECTORY_FIXED + nameLength);
    assert head.name == rest[DIRECTORY_FIXED..DIRECTORY_FIXED + nameLength];
    assert head.header[8] == rest[8] && head.header[9] == rest[9];
    var name := if flags / UTF8_NAME_FLAG % 2 == 1 then d.utf8(p[start..end]) else Some(d.cp437(p[start..end]));
    if name.None? {
      return Err(MemberNameUndecodable);
    }
    return Ok((name.value, recordEnd));
  }

  /** The names of exactly `count` records, read off one by one. */
  function ListNames(p: Bytes, count: nat, d: Decoder): Option<seq<string>>
    decreases count
  {
    if count == 0 then if p == [] then Some([]) else None
    else
      match HeadRecord(p)
      case None => None
      case Some(r) =>
        HeadRecordFound(p);
        if DecodeName(d, r).None? then None
        else Prefixed([DecodeName(d, r).value], ListNames(p[RecordLength(r)..], count - 1, d))
  }

  function Prefixed(names: seq<string>, rest: Option<seq<string>>): Option<seq<string>> {
    match rest
    case None => None
    case Some(more) => Some(names + more)
  }

  lemma ListedCons(d: Decoder, r: Record, rest: Option<seq<Record>>)
    requires |r.header| == DIRECTORY_FIXED
    ensures Listed(d, match rest { case None => None case Some(more) => Some([r] + more) })
         == if DecodeName(d, r).None? then None else Prefixed([DecodeName(d, r).value], Listed(d, rest))
  {
    if rest.Some? {
      var all := [r] + rest.value;
      assert all[0] == r && all[1..] == rest.value;
      assert Readable(d, all) <==> DecodeName(d, r).Some? && Readable(d, rest.value) by {
        assert r in all;
        assert forall x :: x in all <==> x == r || x in rest.value;
      }
    }
  }

  lemma {:induction false} ListNamesIsListed(p: Bytes, count: nat, d: Decoder)
    ensures ListNames(p, count, d) == Listed(d, ParseDirectory(p, count))
    decreases count
  {
    hide HeadRecord, DecodeName, Prefixed;
    if count > 0 && HeadRecord(p).Some? {
      var r := HeadRecord(p).value;
      HeadRecordFound(p);
      ListNamesIsListed(p[RecordLength(r)..], count - 1, d);
      ListedCons(d, r, ParseDirectory(p[RecordLength(r)..], count - 1));
    }
  }

  /** Walk the records with a cursor, in bounds throughout. */
  method ReadDirectory(p: Bytes, offset: nat, limit: nat, total: nat, d: Decoder) returns (r: Result<seq<string>, ParseError>)
    requires offset <= limit <= |p|
    ensures forall names :: r == Ok(names) <==> ListNames(p[offset..limit], total, d) == Some(names)
    ensures forall e :: r == Err(e) <==> Refused(p[offset..limit], total, d, e)
  {
    hide HeadRecord;
    hide DecodeName;
    hide Prefixed;
    hide HeadFault;
    hide Refused;
    var names: seq<string> := [];
    var cursor := offset;
    FaultsAreRefused(p[offset..limit], total, d);
    PrefixedByNothing(ListNames(p[offset..limit], total, d));
    for i := 0 to total
      invariant offset <= cursor <= limit
      invariant Prefixed(names, ListNames(p[cursor..limit], total - i, d)) == ListNames(p[offset..limit], total, d)
      invariant Fault(p[cursor..limit], total - i, d) == Fault(p[offset..limit], total, d)
    {
      var record := ReadRecord(p, cursor, limit, d);
      if record.Err? {
        NothingMore(names);
        return Err(record.error);
      }
      PrefixedTwice(names, record.value.0, ListNames(p[record.value.1..limit], total - i - 1, d));
      names := names + [record.value.0];
      cursor := record.value.1;
    }
    NothingMore(names);
    if cursor != limit {
      return Err(DirectoryExtentInvalid);
    }
    return Ok(names);
  }

  lemma FaultsAreRefused(p: Bytes, count: nat, d: Decoder)
    ensures forall e :: Fault(p, count, d) == Some(e) <==> Refused(p, count, d, e)
  {
    forall e
      ensures Fault(p, count, d) == Some(e) <==> Refused(p, count, d, e)
    {
      FaultIffRefused(p, count, d, e);
    }
  }

  lemma PrefixedByNothing(rest: Option<seq<string>>)
    ensures Prefixed([], rest) == rest
  {
    if rest.Some? {
      assert [] + rest.value == rest.value;
    }
  }

  lemma NothingMore(names: seq<string>)
    ensures Prefixed(names, Some([])) == Some(names) && Prefixed(names, None).None?
  {
    assert names + [] == names;
  }

  lemma PrefixedTwice(names: seq<string>, name: string, rest: Option<seq<string>>)
    ensures Prefixed(names, Prefixed([name], rest)) == Prefixed(names + [name], rest)
  {
    if rest.Some? {
      assert names + ([name] + rest.value) == names + [name] + rest.value;
    }
  }

  lemma SliceInSlice(p: Bytes, cursor: nat, limit: nat, from: nat, to: nat)
    requires cursor <= limit <= |p| && from <= to <= limit - cursor
    ensures p[cursor..limit][from..to] == p[cursor + from..cursor + to]
  {
    var a, b := p[cursor..limit][from..to], p[cursor + from..cursor + to];
    assert forall i :: 0 <= i < |a| ==> a[i] == b[i];
  }

  lemma SignatureInSlice(p: Bytes, at: nat, limit: nat)
    requires at <= limit <= |p|
    ensures at + 4 <= limit ==> p[at..limit][..4] == p[at..at + 4]
  {
  }
}
