/**
 Big-endian fields and the codecs that `mrtlib.py` calls for BGP and OSPF objects. A serializer puts
 its fields in front of what follows them; a parser takes them off again.
 */
module MrtBytes {
  import opened Wrappers

  type Byte = n: nat | n < 256

  type Bytes = seq<Byte>

  const U16: nat := 0x1_0000
  const U32: nat := 0x1_0000_0000

  /** A parsed value and the bytes after it, or the exception that ends the parsing. */
  datatype Parsed<T> = Got(value: T, rest: Bytes) | Bad {
    predicate IsFailure() {
      Bad?
    }

    function PropagateFailure<U>(): Parsed<U>
      requires Bad?
    {
      Bad
    }

    function Extract(): (T, Bytes)
      requires Got?
    {
      (value, rest)
    }
  }

  function Put8(n: nat, tail: Bytes): Bytes
    requires n < 256
  {
    [n] + tail
  }

  function Put16(n: nat, tail: Bytes): Bytes
    requires n < U16
  {
    [n / 256, n % 256] + tail
  }

  function Put32(n: nat, tail: Bytes): Bytes
    requires n < U32
  {
    Put16(n / U16, Put16(n % U16, tail))
  }

  function Get8(buf: Bytes): Parsed<nat> {
    if |buf| < 1 then Bad else Got(buf[0], buf[1..])
  }

  function Get16(buf: Bytes): Parsed<nat> {
    if |buf| < 2 then Bad
    else
      var high: nat, low: nat := buf[0], buf[1];
      Got(high * 256 + low, buf[2..])
  }

  function Get32(buf: Bytes): Parsed<nat> {
    var (high, rest) :- Get16(buf);
    var (low, rest2) :- Get16(rest);
    Got(high * U16 + low, rest2)
  }

  function GetRaw(n: nat, buf: Bytes): (p: Parsed<Bytes>)
    ensures p.Got? ==> |p.value| == n
  {
    if |buf| < n then Bad else Got(buf[..n], buf[n..])
  }

  lemma GetPut8(n: nat, tail: Bytes)
    requires n < 256
    ensures Get8(Put8(n, tail)) == Got(n, tail)
  {
  }

  lemma GetPut16(n: nat, tail: Bytes)
    requires n < U16
    ensures Get16(Put16(n, tail)) == Got(n, tail)
    ensures |Put16(n, tail)| == 2 + |tail|
  {
    assert ([n / 256, n % 256] + tail)[2..] == tail;
  }

  lemma GetPut32(n: nat, tail: Bytes)
    requires n < U32
    ensures Get32(Put32(n, tail)) == Got(n, tail)
    ensures |Put32(n, tail)| == 4 + |tail|
  {
    GetPut16(n / U16, Put16(n % U16, tail));
    GetPut16(n % U16, tail);
  }

  lemma GetPutRaw(b: Bytes, tail: Bytes)
    ensures GetRaw(|b|, b + tail) == Got(b, tail)
  {
  }

  /** A slice `buf[:n]`, which Python cuts at the end of the buffer. */
  function Clip(buf: Bytes, n: nat): Bytes {
    if n <= |buf| then buf[..n] else buf
  }

  /** A slice `buf[n:]` */
  function Drop(buf: Bytes, n: nat): Bytes {
    if n <= |buf| then buf[n..] else []
  }

  lemma ClipPut(b: Bytes, tail: Bytes)
    ensures Clip(b + tail, |b|) == b && Drop(b + tail, |b|) == tail
  {
  }

  // ---------------------------------------------------------------- codecs of other libraries

  /** An object of the BGP or OSPF packet library. */
  type Obj = nat

  datatype Codec = Codec(enc: Obj -> Bytes, dec: Bytes -> Parsed<Obj>)

  /** The encoding tells where it ends, and decoding undoes it. */
  ghost predicate Lawful(c: Codec) {
    forall x: Obj, tail: Bytes :: c.enc(x) != [] && c.dec(c.enc(x) + tail) == Got(x, tail)
  }

  /** The codecs of path attributes, IPv4 and IPv6 prefixes, NLRI, BGP messages and OSPF messages. */
  datatype Lib = Lib(attr: Codec, prefix4: Codec, prefix6: Codec, nlri: Codec, bgp: Codec, ospf: Codec)

  ghost predicate LawfulLib(lib: Lib) {
    && Lawful(lib.attr) && Lawful(lib.prefix4) && Lawful(lib.prefix6)
    && Lawful(lib.nlri) && Lawful(lib.bgp) && Lawful(lib.ospf)
  }

  lemma DecEnc(c: Codec, x: Obj, tail: Bytes)
    requires Lawful(c)
    ensures c.enc(x) != [] && c.dec(c.enc(x) + tail) == Got(x, tail)
  {
  }

  // ---------------------------------------------------------------- lists of path attributes

  function PutAttrs(c: Codec, attrs: seq<Obj>): Bytes {
    if attrs == [] then [] else c.enc(attrs[0]) + PutAttrs(c, attrs[1..])
  }

  /** Attributes until the slice is used up; a codec that takes nothing off it would never end. */
  function GetAttrs(c: Codec, buf: Bytes): Option<seq<Obj>>
    decreases |buf|
  {
    if buf == [] then Some([])
    else match c.dec(buf)
      case Bad => None
      case Got(a, rest) =>
        if |rest| >= |buf| then None
        else match GetAttrs(c, rest)
          case None => None
          case Some(more) => Some([a] + more)
  }

  lemma {:induction false} GetPutAttrs(c: Codec, attrs: seq<Obj>)
    requires Lawful(c)
    ensures GetAttrs(c, PutAttrs(c, attrs)) == Some(attrs)
  {
    if attrs != [] {
      var tail := PutAttrs(c, attrs[1..]);
      DecEnc(c, attrs[0], tail);
      GetPutAttrs(c, attrs[1..]);
      assert [attrs[0]] + attrs[1..] == attrs;
    }
  }

  /** The parsing loop over `bgp_attr_bin`. */
  method ParseAttrs(c: Codec, buf: Bytes) returns (attrs: Option<seq<Obj>>)
    ensures attrs == GetAttrs(c, buf)
  {
    var rest, list: seq<Obj> := buf, [];
    OntoOne(list, 0, GetAttrs(c, buf));
    while rest != []
      invariant GetAttrs(c, buf) == Onto(list, GetAttrs(c, rest))
      decreases |rest|
    {
      match c.dec(rest) {
        case Bad => return None;
        case Got(a, more) =>
          if |more| >= |rest| {
            return None;
          }
          OntoOne(list, a, GetAttrs(c, more));
          list, rest := list + [a], more;
      }
    }
    assert list + [] == list;
    return Some(list);
  }

  function Onto<T>(list: seq<T>, more: Option<seq<T>>): Option<seq<T>> {
    if more.None? then None else Some(list + more.value)
  }

  lemma OntoOne<T>(list: seq<T>, a: T, more: Option<seq<T>>)
    ensures Onto(list, Onto([a], more)) == Onto(list + [a], more)
    ensures Onto([], more) == more
  {
    if more.Some? {
      assert list + ([a] + more.value) == (list + [a]) + more.value;
      assert [] + more.value == more.value;
    }
  }

  /** The serializing loop over `bgp_attributes`. */
  method SerializeAttrs(c: Codec, attrs: seq<Obj>) returns (buf: Bytes)
    ensures buf == PutAttrs(c, attrs)
  {
    buf := [];
    for i := 0 to |attrs|
      invariant PutAttrs(c, attrs) == buf + PutAttrs(c, attrs[i..])
    {
      assert attrs[i..][1..] == attrs[i + 1..];
      Assoc(buf, c.enc(attrs[i]), PutAttrs(c, attrs[i + 1..]));
      buf := buf + c.enc(attrs[i]);
    }
  }

  lemma Assoc(a: Bytes, b: Bytes, c: Bytes)
    ensures (a + b) + c == a + (b + c)
  {
  }

  // ---------------------------------------------------------------- lists with a count

  /** A list that was parsed, and what is parsed after it. */
  function After<T>(list: seq<T>, more: Parsed<seq<T>>): Parsed<seq<T>> {
    if more.Bad? then Bad else Got(list + more.value, more.rest)
  }

  function GetList<T>(parse: Bytes -> Parsed<T>, n: nat, buf: Bytes): Parsed<seq<T>> {
    if n == 0 then Got([], buf)
    else
      match parse(buf)
      case Bad => Bad
      case Got(x, rest) => After([x], GetList(parse, n - 1, rest))
  }

  /** What holds of all that is parsed holds of the list. */
  lemma {:induction false} ListParsed<T>(parse: Bytes -> Parsed<T>, ok: T -> bool, n: nat, buf: Bytes)
    requires forall b :: parse(b).Got? ==> ok(parse(b).value)
    ensures GetList(parse, n, buf).Got? ==> forall x :: x in GetList(parse, n, buf).value ==> ok(x)
  {
    if n > 0 && parse(buf).Got? {
      ListParsed(parse, ok, n - 1, parse(buf).rest);
    }
  }

  lemma NoneAfter<T>(more: Parsed<seq<T>>)
    ensures After([], more) == more
  {
    if more.Got? {
      assert [] + more.value == more.value;
    }
  }

  lemma OneAfter<T>(list: seq<T>, x: T, more: Parsed<seq<T>>)
    ensures After(list, After([x], more)) == After(list + [x], more)
  {
    if more.Got? {
      assert list + ([x] + more.value) == (list + [x]) + more.value;
    }
  }

  /** The loop over the count, which parses one element after the other. */
  method ParseList<T>(parse: Bytes -> Parsed<T>, count: nat, buf: Bytes) returns (list: Parsed<seq<T>>)
    ensures list == GetList(parse, count, buf)
  {
    var got: seq<T>, rest := [], buf;
    NoneAfter(GetList(parse, count, buf));
    for i := 0 to count
      invariant GetList(parse, count, buf) == After(got, GetList(parse, count - i, rest))
    {
      match parse(rest) {
        case Bad => return Bad;
        case Got(x, more) =>
          OneAfter(got, x, GetList(parse, count - i - 1, more));
          got, rest := got + [x], more;
      }
    }
    assert got + [] == got;
    return Got(got, rest);
  }
}
