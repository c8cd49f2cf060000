/**
 MRT records, RFC 6396 section 2, and the files of `mrtlib.py`: `MrtRecord.parse`, `parse_pre` and
 `serialize`, and the `Reader` that undoes the `Writer`.
 */
module Mrt {
  import opened Wrappers
  import opened MrtBytes
  import opened MrtMessages

  const HEADER_SIZE: nat := 12
  const EXT_HEADER_SIZE: nat := 4

  /** A record; `ms` is the microsecond field of the extended header, for the one class that has it. */
  datatype Record = Record(timestamp: nat, typ: nat, subtype: nat, length: Option<nat>, ms: Option<nat>, message: Msg)

  /** The record class registered for the type uses the extended header. */
  predicate IsExtended(typ: nat) {
    typ == BGP4MP_ET
  }

  /** `_EXT_TS_TYPES` */
  predicate IsExtendedType(typ: nat) {
    typ in {17, 33, 49}
  }

  /** A record of the class and message class that its type and subtype are registered for. */
  predicate WellFormed(lib: Lib, r: Record) {
    && r.timestamp < U32 && r.typ < U16 && r.subtype < U16
    && Registered(r.typ, r.subtype, r.message)
    && (r.ms.Some? <==> IsExtended(r.typ)) && (r.ms.Some? ==> r.ms.value < U32)
    && Fits(lib, r.message) && |SerializeMsg(lib, r.message)| < U32
  }

  function FixRecord(lib: Lib, r: Record): Record
    requires Fits(lib, r.message)
  {
    r.(length := Some(|SerializeMsg(lib, r.message)|), message := FixMsg(lib, r.message))
  }

  function PutMs(ms: Option<nat>, tail: Bytes): Bytes
    requires ms.Some? ==> ms.value < U32
  {
    if ms.Some? then Put32(ms.value, tail) else tail
  }

  function Serialize(lib: Lib, r: Record): Bytes
    requires WellFormed(lib, r)
  {
    var body := SerializeMsg(lib, r.message);
    Put32(r.timestamp, Put16(r.typ, Put16(r.subtype, Put32(|body|, PutMs(r.ms, body)))))
  }

  datatype Header = Header(timestamp: nat, typ: nat, subtype: nat, length: nat)

  /** `parse_common_header` */
  function GetHeader(buf: Bytes): Parsed<Header> {
    var (timestamp, r1) :- Get32(buf);
    var (typ, r2) :- Get16(r1);
    var (subtype, r3) :- Get16(r2);
    var (length, r4) :- Get32(r3);
    Got(Header(timestamp, typ, subtype, length), r4)
  }

  function GetMs(typ: nat, buf: Bytes): Parsed<Option<nat>> {
    if !IsExtended(typ) then Got(None, buf)
    else
      var (ms, rest) :- Get32(buf);
      Got(Some(ms), rest)
  }

  /** The constructor takes its arguments in an order that exchanges the length and the microseconds. */
  function Construct(h: Header, ms: Option<nat>, m: Msg): Record {
    if ms.Some? then Record(h.timestamp, h.typ, h.subtype, ms, Some(h.length), m)
    else Record(h.timestamp, h.typ, h.subtype, Some(h.length), None, m)
  }

  function Parse(lib: Lib, buf: Bytes): Parsed<Record> {
    var (h, r1) :- GetHeader(buf);
    var (ms, r2) :- GetMs(h.typ, r1);
    var (m, none) :- ParseMsg(lib, h.typ, h.subtype, Clip(r2, h.length));
    Got(Construct(h, ms, m), Drop(r2, h.length))
  }

  /** How many bytes the record at the start of the buffer takes. */
  function ParsePre(buf: Bytes): Parsed<nat> {
    var (h, rest) :- GetHeader(buf);
    Got((if IsExtendedType(h.typ) then HEADER_SIZE + EXT_HEADER_SIZE else HEADER_SIZE) + h.length, rest)
  }

  // ---------------------------------------------------------------- one record

  lemma HeaderRoundTrip(h: Header, tail: Bytes)
    requires h.timestamp < U32 && h.typ < U16 && h.subtype < U16 && h.length < U32
    ensures var buf := Put32(h.timestamp, Put16(h.typ, Put16(h.subtype, Put32(h.length, tail))));
      GetHeader(buf) == Got(h, tail) && |buf| == HEADER_SIZE + |tail|
  {
    var b3 := Put32(h.length, tail);
    var b2 := Put16(h.subtype, b3);
    GetPut32(h.timestamp, Put16(h.typ, b2));
    GetPut16(h.typ, b2);
    GetPut16(h.subtype, b3);
    GetPut32(h.length, tail);
  }

  function HeaderOf(lib: Lib, r: Record): Header
    requires Fits(lib, r.message)
  {
    Header(r.timestamp, r.typ, r.subtype, |SerializeMsg(lib, r.message)|)
  }

  lemma SerializeAppend(lib: Lib, r: Record, rest: Bytes)
    requires WellFormed(lib, r)
    ensures var body := SerializeMsg(lib, r.message);
      Serialize(lib, r) + rest
      == Put32(r.timestamp, Put16(r.typ, Put16(r.subtype, Put32(|body|, PutMs(r.ms, body + rest)))))
  {
    var body := SerializeMsg(lib, r.message);
    if r.ms.Some? {
      PutAppend(r.ms.value, body, rest);
    }
    var b4 := PutMs(r.ms, body);
    var b3 := Put32(|body|, b4);
    var b2 := Put16(r.subtype, b3);
    PutAppend(|body|, b4, rest);
    PutAppend(r.subtype, b3, rest);
    PutAppend(r.typ, b2, rest);
    PutAppend(r.timestamp, Put16(r.typ, b2), rest);
  }

  /** What `parse` makes of a serialized record, in terms of what it makes of the message. */
  lemma ParseSerialized(lib: Lib, r: Record, rest: Bytes)
    requires WellFormed(lib, r)
    ensures Parse(lib, Serialize(lib, r) + rest)
         == match ParseMsg(lib, r.typ, r.subtype, SerializeMsg(lib, r.message))
            case Bad => Bad
            case Got(m, _) => Got(Construct(HeaderOf(lib, r), r.ms, m), rest)
  {
    var body := SerializeMsg(lib, r.message);
    SerializeAppend(lib, r, rest);
    HeaderRoundTrip(HeaderOf(lib, r), PutMs(r.ms, body + rest));
    if r.ms.Some? {
      GetPut32(r.ms.value, body + rest);
    }
    ClipPut(body, rest);
  }

  /**
   Parsing a serialized record of the common header, whatever bytes follow it, gives the fixed-up
   record and exactly those bytes, if and only if its message is faithful.
   */
  lemma RecordRoundTrip(lib: Lib, r: Record, rest: Bytes)
    requires LawfulLib(lib) && WellFormed(lib, r) && !IsExtended(r.typ)
    ensures Parse(lib, Serialize(lib, r) + rest) == Got(FixRecord(lib, r), rest) <==> Faithful(r.message)
  {
    ParseSerialized(lib, r, rest);
    MsgRoundTrip(lib, r.typ, r.message, r.subtype);
  }

  /** With the extended header, length and microseconds come back exchanged. */
  lemma ExtendedRoundTrip(lib: Lib, r: Record, rest: Bytes)
    requires LawfulLib(lib) && WellFormed(lib, r) && IsExtended(r.typ)
    ensures Parse(lib, Serialize(lib, r) + rest)
         == Got(FixRecord(lib, r).(length := r.ms, ms := Some(|SerializeMsg(lib, r.message)|)), rest)
    ensures Parse(lib, Serialize(lib, r) + rest) == Got(FixRecord(lib, r), rest)
       <==> r.ms == Some(|SerializeMsg(lib, r.message)|)
  {
    ParseSerialized(lib, r, rest);
    MsgRoundTrip(lib, r.typ, r.message, r.subtype);
  }

  /**
   `parse_pre` tells the length of a serialized record, but for the two types that it takes to have an
   extended header and that no record class serializes with one.
   */
  lemma ParsePreIsLength(lib: Lib, r: Record, rest: Bytes)
    requires WellFormed(lib, r)
    ensures ParsePre(Serialize(lib, r) + rest).Got?
    ensures ParsePre(Serialize(lib, r) + rest).value == |Serialize(lib, r)| <==> r.typ != 33 && r.typ != 49
  {
    var body := SerializeMsg(lib, r.message);
    SerializeAppend(lib, r, rest);
    HeaderRoundTrip(HeaderOf(lib, r), PutMs(r.ms, body + rest));
    HeaderRoundTrip(HeaderOf(lib, r), PutMs(r.ms, body));
    if r.ms.Some? {
      GetPut32(r.ms.value, body);
    }
  }

  // ---------------------------------------------------------------- files of records

  /** What the reader gives for a record that was written. */
  function Reread(lib: Lib, r: Record): Record
    requires Fits(lib, r.message)
  {
    Construct(HeaderOf(lib, r), r.ms, FixMsg(lib, r.message))
  }

  predicate Readable(lib: Lib, r: Record) {
    WellFormed(lib, r) && Faithful(r.message) && r.typ != 33 && r.typ != 49
  }

  predicate AllWellFormed(lib: Lib, rs: seq<Record>) {
    forall i :: 0 <= i < |rs| ==> WellFormed(lib, rs[i])
  }

  predicate AllReadable(lib: Lib, rs: seq<Record>) {
    forall i :: 0 <= i < |rs| ==> Readable(lib, rs[i])
  }

  function Written(lib: Lib, rs: seq<Record>): Bytes
    requires AllWellFormed(lib, rs)
  {
    if rs == [] then [] else Serialize(lib, rs[0]) + Written(lib, rs[1..])
  }

  function RereadAll(lib: Lib, rs: seq<Record>): seq<Record>
    requires AllWellFormed(lib, rs)
  {
    if rs == [] then [] else [Reread(lib, rs[0])] + RereadAll(lib, rs[1..])
  }

  datatype Item = Stop | Raised | Item(record: Record)

  /** One call of `next` on what is left of the file, and what is left then. */
  function NextItem(lib: Lib, left: Bytes): (n: (Item, Bytes))
    ensures n.0.Item? ==> |n.1| < |left|
  {
    if |left| < HEADER_SIZE then (Stop, [])
    else match ParsePre(left[..HEADER_SIZE])
      case Bad => (Raised, left)
      case Got(required, _) =>
        match Parse(lib, Clip(left, required))
        case Bad => (Raised, Drop(left, required))
        case Got(r, _) => (Item(r), Drop(left, required))
  }

  /** Iterating the reader until it stops; `None` when it raises an exception. */
  function ReadAll(lib: Lib, left: Bytes): Option<seq<Record>>
    decreases |left|
  {
    var (item, rest) := NextItem(lib, left);
    match item
    case Stop => Some([])
    case Raised => None
    case Item(r) =>
      match ReadAll(lib, rest)
      case None => None
      case Some(more) => Some([r] + more)
  }

  lemma ParsePreOfHeader(buf: Bytes)
    requires |buf| >= HEADER_SIZE
    ensures var p, q := ParsePre(buf[..HEADER_SIZE]), ParsePre(buf);
      p.Got? && q.Got? && p.value == q.value
  {
    var a, b := buf[..HEADER_SIZE], buf;
    assert a[4..] == b[4..HEADER_SIZE] && a[6..] == b[6..HEADER_SIZE] && a[8..] == b[8..HEADER_SIZE];
  }

  lemma SerializeLength(lib: Lib, r: Record)
    requires WellFormed(lib, r)
    ensures |Serialize(lib, r)| >= HEADER_SIZE
  {
    var body := SerializeMsg(lib, r.message);
    HeaderRoundTrip(HeaderOf(lib, r), PutMs(r.ms, body));
  }

  lemma NextReads(lib: Lib, r: Record, tail: Bytes)
    requires LawfulLib(lib) && Readable(lib, r)
    ensures NextItem(lib, Serialize(lib, r) + tail) == (Item(Reread(lib, r)), tail)
  {
    var buf := Serialize(lib, r) + tail;
    SerializeLength(lib, r);
    ParsePreIsLength(lib, r, tail);
    ParsePreOfHeader(buf);
    ClipPut(Serialize(lib, r), tail);
    ParseSerialized(lib, r, []);
    assert Serialize(lib, r) + [] == Serialize(lib, r);
    MsgRoundTrip(lib, r.typ, r.message, r.subtype);
  }

  lemma ReadAllStep(lib: Lib, left: Bytes, r: Record, rest: Bytes)
    requires NextItem(lib, left) == (Item(r), rest)
    ensures ReadAll(lib, left) == Onto([r], ReadAll(lib, rest))
  {
  }

  /** Reading a file gives the records that were written to it, in order, and then stops. */
  lemma {:induction false} ReaderUndoesWriter(lib: Lib, rs: seq<Record>)
    requires LawfulLib(lib) && AllReadable(lib, rs)
    ensures AllWellFormed(lib, rs) && ReadAll(lib, Written(lib, rs)) == Some(RereadAll(lib, rs))
  {
    if rs != [] {
      var first, more := rs[0], rs[1..];
      ReaderUndoesWriter(lib, more);
      var tail := Written(lib, more);
      NextReads(lib, first, tail);
      ReadAllStep(lib, Serialize(lib, first) + tail, Reread(lib, first), tail);
    }
  }

  /** For the common header what is read is the record itself, with its fields fixed up. */
  lemma RereadIsFixed(lib: Lib, r: Record)
    requires WellFormed(lib, r)
    ensures Reread(lib, r) == FixRecord(lib, r) <==> !IsExtended(r.typ) || r.ms == Some(|SerializeMsg(lib, r.message)|)
  {
  }

  /** A file object: its bytes and its position. */
  class File {
    var data: Bytes
    var pos: nat

    ghost predicate Valid()
      reads this
    {
      pos <= |data|
    }

    ghost function Left(): Bytes
      requires Valid()
      reads this
    {
      data[pos..]
    }

    constructor (bytes: Bytes)
      ensures Valid() && data == bytes && pos == 0
    {
      data, pos := bytes, 0;
    }

    method Read(n: nat) returns (buf: Bytes)
      requires Valid()
      modifies this`pos
      ensures Valid() && buf == Clip(old(Left()), n) && Left() == Drop(old(Left()), n)
      ensures pos == old(pos) + |buf|
    {
      var end := if pos + n <= |data| then pos + n else |data|;
      buf := data[pos..end];
      pos := end;
    }

    method SeekBack(n: nat)
      requires Valid() && n <= pos
      modifies this`pos
      ensures Valid() && pos == old(pos) - n
    {
      pos := pos - n;
    }

    method Write(buf: Bytes)
      modifies this`data
      ensures data == old(data) + buf
    {
      data := data + buf;
    }
  }

  class Writer {
    const f: File

    constructor (file: File)
      ensures f == file
    {
      f := file;
    }

    method Write(lib: Lib, r: Record)
      requires WellFormed(lib, r)
      modifies f`data
      ensures f.data == old(f.data) + Serialize(lib, r)
    {
      f.Write(Serialize(lib, r));
    }
  }

  class Reader {
    const f: File

    constructor (file: File)
      ensures f == file
    {
      f := file;
    }

    method Next(lib: Lib) returns (item: Item)
      requires f.Valid()
      modifies f`pos
      ensures f.Valid() && (item, f.Left()) == NextItem(lib, old(f.Left()))
    {
      ghost var left := f.Left();
      ghost var start := f.pos;
      var header := f.Read(HEADER_SIZE);
      if |header| < HEADER_SIZE {
        return Stop;
      }
      f.SeekBack(HEADER_SIZE);
      assert f.pos == start && f.Left() == left;
      var required := ParsePre(header);
      if required.Bad? {
        return Raised;
      }
      var buf := f.Read(required.value);
      var parsed := Parse(lib, buf);
      item := if parsed.Bad? then Raised else Item(parsed.value);
    }

    /** `for record in reader` */
    method Iterate(lib: Lib) returns (records: Option<seq<Record>>)
      requires f.Valid()
      modifies f`pos
      ensures records == ReadAll(lib, old(f.Left()))
    {
      var list: seq<Record> := [];
      OntoOne(list, Record(0, 0, 0, None, None, Unknown([])), ReadAll(lib, f.Left()));
      var go := true;
      while go
        invariant f.Valid()
        invariant ReadAll(lib, old(f.Left())) == Onto(list, if go then ReadAll(lib, f.Left()) else Some([]))
        decreases go, |f.Left()|
      {
        ghost var left := f.Left();
        var item := Next(lib);
        match item {
          case Stop =>
            go := false;
          case Raised =>
            return None;
          case Item(r) =>
            OntoOne(list, r, ReadAll(lib, f.Left()));
            list := list + [r];
        }
      }
      assert list + [] == list;
      return Some(list);
    }
  }
}
