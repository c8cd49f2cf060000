/**
 The layouts of RFC 6396 sections 2 and 4, written down field by field as the diagrams of `mrtlib.py`
 have them, and that these are the bytes its serializers write and its parsers look at.
 */
module MrtWire {
  import opened Wrappers
  import opened MrtBytes
  import opened MrtMessages
  import opened Mrt

  /** `width` octets, the most significant first. */
  function BigEndian(width: nat, n: nat): (b: Bytes)
    ensures |b| == width
  {
    if width == 0 then [] else BigEndian(width - 1, n / 256) + [n % 256]
  }

  lemma BigEndian2(n: nat)
    ensures BigEndian(1, n) == [n % 256]
    ensures BigEndian(2, n) == [n / 256 % 256, n % 256]
  {
    assert BigEndian(0, n / 256) == [];
    assert BigEndian(1, n / 256) == BigEndian(0, n / 256 / 256) + [n / 256 % 256];
  }

  lemma Halves(n: nat)
    ensures n / 256 / 256 == n / 0x1_0000
    ensures n / 256 % 256 == n % 0x1_0000 / 256 && n % 256 == n % 0x1_0000 % 256
  {
  }

  lemma BigEndian4(n: nat)
    ensures BigEndian(4, n) == BigEndian(2, n / U16) + BigEndian(2, n % U16)
  {
    Halves(n);
    BigEndian2(n % U16);
    assert BigEndian(4, n) == BigEndian(3, n / 256) + [n % 256];
    assert BigEndian(3, n / 256) == BigEndian(2, n / 256 / 256) + [n / 256 % 256];
  }

  lemma Puts8(n: nat, tail: Bytes)
    requires n < 256
    ensures Put8(n, tail) == BigEndian(1, n) + tail
  {
    BigEndian2(n);
  }

  lemma Puts16(n: nat, tail: Bytes)
    requires n < U16
    ensures Put16(n, tail) == BigEndian(2, n) + tail
  {
    BigEndian2(n);
    assert n / 256 % 256 == n / 256;
  }

  lemma Puts32(n: nat, tail: Bytes)
    requires n < U32
    ensures Put32(n, tail) == BigEndian(4, n) + tail
  {
    var high, low := n / U16, n % U16;
    BigEndian4(n);
    Puts16(low, tail);
    Puts16(high, BigEndian(2, low) + tail);
    Assoc(BigEndian(2, high), BigEndian(2, low), tail);
  }

  lemma PutsBigEndian(n: nat, tail: Bytes)
    ensures n < 256 ==> Put8(n, tail) == BigEndian(1, n) + tail
    ensures n < U16 ==> Put16(n, tail) == BigEndian(2, n) + tail
    ensures n < U32 ==> Put32(n, tail) == BigEndian(4, n) + tail
  {
    if n < 256 {
      Puts8(n, tail);
    }
    if n < U16 {
      Puts16(n, tail);
    }
    if n < U32 {
      Puts32(n, tail);
    }
  }

  /** What a number is read from. */
  predicate Starts(buf: Bytes, width: nat, n: nat) {
    width <= |buf| && buf[..width] == BigEndian(width, n)
  }

  lemma Gets8(buf: Bytes)
    ensures Get8(buf).Got? <==> |buf| >= 1
    ensures |buf| >= 1 ==> Starts(buf, 1, Get8(buf).value) && Get8(buf).rest == buf[1..]
  {
    if |buf| >= 1 {
      BigEndian2(buf[0]);
    }
  }

  lemma Gets16(buf: Bytes)
    ensures Get16(buf).Got? <==> |buf| >= 2
    ensures |buf| >= 2 ==> Starts(buf, 2, Get16(buf).value) && Get16(buf).rest == buf[2..]
  {
    if |buf| >= 2 {
      var high: nat, low: nat := buf[0], buf[1];
      var n := high * 256 + low;
      assert n / 256 == high && n % 256 == low;
      BigEndian2(n);
    }
  }

  lemma Gets32(buf: Bytes)
    ensures Get32(buf).Got? <==> |buf| >= 4
    ensures |buf| >= 4 ==> Starts(buf, 4, Get32(buf).value) && Get32(buf).rest == buf[4..]
  {
    if |buf| >= 4 {
      var high, low := Get16(buf).value, Get16(buf[2..]).value;
      Gets16(buf);
      Gets16(buf[2..]);
      assert low < U16;
      assert (high * U16 + low) / U16 == high && (high * U16 + low) % U16 == low;
      BigEndian4(high * U16 + low);
      assert buf[..4] == buf[..2] + buf[2..][..2];
      assert buf[2..][2..] == buf[4..];
    }
  }

  // ---------------------------------------------------------------- messages

  /** The type octet: bit 0 says that the address is IPv6, bit 1 that the AS number has four octets. */
  function PeerType(p: Peer): nat {
    p.typ / 4 * 4
    + (if p.typ % 2 == 1 || |p.ip| == 16 then 1 else 0)
    + (if p.typ % 4 >= 2 || p.asNum > 0xffff then 2 else 0)
  }

  function PeerLayout(p: Peer): Bytes {
    BigEndian(1, PeerType(p)) + (p.bgpId + (p.ip + BigEndian(if PeerType(p) % 4 >= 2 then 4 else 2, p.asNum)))
  }

  function PeersLayout(ps: seq<Peer>): Bytes {
    if ps == [] then [] else PeerLayout(ps[0]) + PeersLayout(ps[1..])
  }

  function EntryLayout(attrs: Bytes, e: RibEntry): Bytes {
    var block := BigEndian(2, |attrs|) + attrs;
    BigEndian(2, e.peerIndex)
    + (BigEndian(4, e.originatedTime)
       + match e.pathId
         case None => block
         case Some(id) => BigEndian(4, id) + block)
  }

  function EntriesLayout(lib: Lib, es: seq<RibEntry>): Bytes {
    if es == [] then [] else EntryLayout(PutAttrs(lib.attr, es[0].attrs), es[0]) + EntriesLayout(lib, es[1..])
  }

  function EndsLayout(asWidth: nat, e: Ends, tail: Bytes): Bytes {
    BigEndian(asWidth, e.peerAs)
    + (BigEndian(asWidth, e.localAs)
       + (BigEndian(2, e.ifIndex)
          + (BigEndian(2, if |e.peerIp| == 4 then 1 else 2)
             + (e.peerIp + (e.localIp + tail)))))
  }

  /** The octets of a message, in the order of the diagrams. */
  function Layout(lib: Lib, m: Msg): Bytes {
    match m
    case PeerIndexTable(bgpId, viewName, _, peers, _) =>
      bgpId + (BigEndian(2, |viewName|) + (viewName + (BigEndian(2, |peers|) + PeersLayout(peers))))
    case Rib(subtype, seqNum, prefix, entries, _) =>
      var codec := if subtype in {4, 5, 10, 11} then lib.prefix6 else lib.prefix4;
      BigEndian(4, seqNum) + (codec.enc(prefix) + (BigEndian(2, |entries|) + EntriesLayout(lib, entries)))
    case RibGeneric(_, seqNum, afi, safi, nlri, entries, _) =>
      BigEndian(4, seqNum)
      + (BigEndian(2, afi)
         + (BigEndian(1, safi)
            + (lib.nlri.enc(nlri) + (BigEndian(2, |entries|) + EntriesLayout(lib, entries)))))
    case TableDump(_, viewNum, seqNum, net, prefixLen, status, originatedTime, peerIp, peerAs, attrs, _) =>
      BigEndian(2, viewNum)
      + (BigEndian(2, seqNum)
         + (net
            + (BigEndian(1, prefixLen)
               + (BigEndian(1, status)
                  + (BigEndian(4, originatedTime)
                     + (peerIp
                        + (BigEndian(2, peerAs)
                           + (BigEndian(2, |PutAttrs(lib.attr, attrs)|) + PutAttrs(lib.attr, attrs)))))))))
    case StateChange(subtype, ends, oldState, newState) =>
      EndsLayout(if subtype == 5 then 4 else 2, ends, BigEndian(2, oldState) + BigEndian(2, newState))
    case BgpMessage(subtype, ends, message) =>
      EndsLayout(if subtype in {4, 7} then 4 else 2, ends, lib.bgp.enc(message))
    case Ospf(remoteIp, localIp, message) => remoteIp + (localIp + lib.ospf.enc(message))
    case Unknown(buf) => buf
  }

  lemma FixedType(p: Peer)
    requires PeerFits(p)
    ensures FixPeer(p).typ == PeerType(p) < 256
    ensures IsAs4Bit(PeerType(p)) <==> PeerType(p) % 4 >= 2
  {
    var high, low := p.typ / 4, p.typ % 4;
    assert p.typ == 4 * high + low;
    TypeBits(high, low);
    TypeBits(high, PeerType(p) - 4 * high);
  }

  lemma TypeBits(high: nat, low: nat)
    requires low < 4
    ensures var typ := 4 * high + low;
      && (IsV6Bit(typ) <==> low == 1 || low == 3) && (IsAs4Bit(typ) <==> low >= 2)
      && typ / 4 == high && typ % 4 == low && typ % 2 == low % 2
  {
  }

  lemma PeerIsLaidOut(p: Peer, tail: Bytes)
    requires PeerFits(p)
    ensures PutPeer(p, tail) == PeerLayout(p) + tail
  {
    var q := FixPeer(p);
    FixedBits(p);
    FixedType(p);
    PutPeerAppend(p, tail);
    PutsBigEndian(p.asNum, []);
    var width := if PeerType(p) % 4 >= 2 then 4 else 2;
    assert BigEndian(width, p.asNum) + [] == BigEndian(width, p.asNum);
    PutsBigEndian(q.typ, p.bgpId + (p.ip + PutAs(IsAs4Bit(q.typ), p.asNum, [])));
  }

  lemma {:induction false} PeersAreLaidOut(ps: seq<Peer>)
    requires forall p :: p in ps ==> PeerFits(p)
    ensures PutPeers(ps, []) == PeersLayout(ps)
  {
    if ps != [] {
      PeersAreLaidOut(ps[1..]);
      PeerIsLaidOut(ps[0], PutPeers(ps[1..], []));
    }
  }

  lemma EntryIsLaidOut(c: Codec, e: RibEntry, tail: Bytes)
    requires EntryFits(c, e)
    ensures PutEntry(c, e, tail) == EntryLayout(PutAttrs(c, e.attrs), e) + tail
  {
    var attrs := PutAttrs(c, e.attrs);
    var block := BigEndian(2, |attrs|) + attrs;
    PutsBigEndian(|attrs|, attrs + tail);
    Assoc(BigEndian(2, |attrs|), attrs, tail);
    assert PutBlock(attrs, tail) == block + tail;
    var rest := match e.pathId case None => block case Some(id) => BigEndian(4, id) + block;
    if e.pathId.Some? {
      PutsBigEndian(e.pathId.value, block + tail);
      Assoc(BigEndian(4, e.pathId.value), block, tail);
    }
    PutsBigEndian(e.originatedTime, rest + tail);
    Assoc(BigEndian(4, e.originatedTime), rest, tail);
    PutsBigEndian(e.peerIndex, (BigEndian(4, e.originatedTime) + rest) + tail);
    Assoc(BigEndian(2, e.peerIndex), BigEndian(4, e.originatedTime) + rest, tail);
  }

  lemma {:induction false} EntriesAreLaidOut(lib: Lib, es: seq<RibEntry>)
    requires EntriesFit(lib.attr, es)
    ensures PutEntries(lib.attr, es, []) == EntriesLayout(lib, es)
  {
    if es != [] {
      EntriesAreLaidOut(lib, es[1..]);
      EntryIsLaidOut(lib.attr, es[0], PutEntries(lib.attr, es[1..], []));
    }
  }

  lemma CountedAreLaidOut(lib: Lib, es: seq<RibEntry>)
    requires CountedFit(lib.attr, es)
    ensures PutCounted(lib.attr, es) == BigEndian(2, |es|) + EntriesLayout(lib, es)
  {
    EntriesAreLaidOut(lib, es);
    PutsBigEndian(|es|, EntriesLayout(lib, es));
  }

  lemma EndsAreLaidOut(as4: bool, e: Ends, tail: Bytes)
    requires EndsFit(as4, e)
    ensures PutEnds(as4, e, tail) == EndsLayout(if as4 then 4 else 2, e, tail)
  {
    var b4 := e.peerIp + (e.localIp + tail);
    var b3 := Put16(AfiOf(e.peerIp), b4);
    var b2 := Put16(e.ifIndex, b3);
    var b1 := PutAs(as4, e.localAs, b2);
    PutsBigEndian(AfiOf(e.peerIp), b4);
    PutsBigEndian(e.ifIndex, b3);
    PutsBigEndian(e.localAs, b2);
    PutsBigEndian(e.peerAs, b1);
  }

  lemma TableDumpIsLaidOut(lib: Lib, m: Msg)
    requires m.TableDump? && Fits(lib, m)
    ensures PutTableDump(lib, m) == Layout(lib, m)
  {
    var attrs := PutAttrs(lib.attr, m.attrs);
    assert attrs + [] == attrs;
    var b8 := PutBlock(attrs, []);
    var b7 := Put16(m.peerAs, b8);
    var b5 := Put32(m.originatedTime, m.peerIp + b7);
    var b4 := Put8(m.status, b5);
    var b3 := Put8(m.prefixLen, b4);
    var b2 := Put16(m.seqNum, m.net + b3);
    PutsBigEndian(|attrs|, attrs);
    PutsBigEndian(m.peerAs, b8);
    PutsBigEndian(m.originatedTime, m.peerIp + b7);
    PutsBigEndian(m.status, b5);
    PutsBigEndian(m.prefixLen, b4);
    PutsBigEndian(m.seqNum, m.net + b3);
    PutsBigEndian(m.viewNum, b2);
  }

  /**
   Every message is serialized field by field as the diagrams have it: IPv4 and IPv6 prefixes with their
   own codecs, AS numbers of two or four octets as the subtype says, counts and lengths of what follows.
   */
  lemma MessageIsLaidOut(lib: Lib, typ: nat, subtype: nat, m: Msg)
    requires Registered(typ, subtype, m) && Fits(lib, m)
    ensures SerializeMsg(lib, m) == Layout(lib, m)
  {
    match m
    case PeerIndexTable(bgpId, viewName, _, peers, _) =>
      PeersAreLaidOut(peers);
      PutsBigEndian(|peers|, PeersLayout(peers));
      PutsBigEndian(|viewName|, viewName + Put16(|peers|, PeersLayout(peers)));
    case Rib(sub, seqNum, prefix, entries, _) =>
      CountedAreLaidOut(lib, entries);
      PutsBigEndian(seqNum, PrefixCodec(lib, sub).enc(prefix) + PutCounted(lib.attr, entries));
    case RibGeneric(_, seqNum, afi, safi, nlri, entries, _) =>
      CountedAreLaidOut(lib, entries);
      var b := lib.nlri.enc(nlri) + PutCounted(lib.attr, entries);
      PutsBigEndian(safi, b);
      PutsBigEndian(afi, Put8(safi, b));
      PutsBigEndian(seqNum, Put16(afi, Put8(safi, b)));
    case TableDump(_, _, _, _, _, _, _, _, _, _, _) => TableDumpIsLaidOut(lib, m);
    case StateChange(sub, ends, oldState, newState) =>
      PutsBigEndian(newState, []);
      assert BigEndian(2, newState) + [] == BigEndian(2, newState);
      PutsBigEndian(oldState, Put16(newState, []));
      EndsAreLaidOut(IsAs4(sub), ends, BigEndian(2, oldState) + BigEndian(2, newState));
    case BgpMessage(sub, ends, message) => EndsAreLaidOut(IsAs4(sub), ends, lib.bgp.enc(message));
    case Ospf(_, _, _) =>
    case Unknown(_) =>
  }

  // ---------------------------------------------------------------- what the parsers look at

  /** The classes that are registered, by the numbers of RFC 6396. */
  lemma RegisteredClasses(typ: nat, subtype: nat, m: Msg)
    ensures Registered(typ, subtype, m) <==>
      match m
      case Ospf(_, _, _) => typ == 11
      case TableDump(sub, _, _, _, _, _, _, _, _, _, _) => typ == 12 && sub == subtype && sub in {1, 2}
      case PeerIndexTable(_, _, _, _, _) => typ == 13 && subtype == 1
      case Rib(sub, _, _, _, _) => typ == 13 && sub == subtype && sub in {2, 3, 4, 5, 8, 9, 10, 11}
      case RibGeneric(sub, _, _, _, _, _, _) => typ == 13 && sub == subtype && sub in {6, 12}
      case StateChange(sub, _, _, _) => typ in {16, 17} && sub == subtype && sub in {0, 5}
      case BgpMessage(sub, _, _) => typ in {16, 17} && sub == subtype && sub in {1, 4, 6, 7}
      case Unknown(_) => typ !in {11, 12, 13, 16, 17}
  {
  }

  /** A subtype that no class is registered for is an error; an unknown type is not. */
  lemma UnregisteredSubtypes(lib: Lib, typ: nat, subtype: nat, buf: Bytes)
    ensures typ == 12 && subtype !in {1, 2} ==> ParseMsg(lib, typ, subtype, buf).Bad?
    ensures typ == 13 && subtype !in {1, 2, 3, 4, 5, 6, 8, 9, 10, 11, 12} ==> ParseMsg(lib, typ, subtype, buf).Bad?
    ensures typ in {16, 17} && subtype !in {0, 1, 4, 5, 6, 7} ==> ParseMsg(lib, typ, subtype, buf).Bad?
    ensures typ !in {11, 12, 13, 16, 17} ==> ParseMsg(lib, typ, subtype, buf) == Got(Unknown(buf), [])
  {
  }

  /**
   A RIB record is read as it is laid out, whatever bytes it has: the prefix with the codec of its
   family, and entries with path identifiers exactly for the additional-path subtypes.
   */
  lemma RibIsRead(lib: Lib, subtype: nat, buf: Bytes)
    requires subtype in {2, 3, 4, 5, 8, 9, 10, 11}
    requires ParseMsg(lib, 13, subtype, buf).Got?
    ensures var m := ParseMsg(lib, 13, subtype, buf).value;
      && m.Rib? && Starts(buf, 4, m.seqNum)
      && var prefix := (if subtype in {4, 5, 10, 11} then lib.prefix6 else lib.prefix4).dec(buf[4..]);
         && prefix.Got? && m.prefix == prefix.value
         && m.entryCount == Some(|m.entries|) && Starts(prefix.rest, 2, |m.entries|)
         && forall e :: e in m.entries ==> (e.pathId.Some? <==> subtype >= 8)
  {
    Gets32(buf);
    var prefix := PrefixCodec(lib, subtype).dec(Get32(buf).rest);
    CountedAreRead(lib.attr, IsAddPath(subtype), prefix.rest);
  }

  /** A generic RIB record has path identifiers exactly if its subtype is 12. */
  lemma RibGenericIsRead(lib: Lib, subtype: nat, buf: Bytes)
    requires subtype in {6, 12} && ParseMsg(lib, 13, subtype, buf).Got?
    ensures var m := ParseMsg(lib, 13, subtype, buf).value;
      && m.RibGeneric? && |buf| >= 7
      && Starts(buf, 4, m.seqNum) && Starts(buf[4..], 2, m.afi) && Starts(buf[6..], 1, m.safi)
      && var nlri := lib.nlri.dec(buf[7..]);
         && nlri.Got? && m.nlri == nlri.value
         && m.entryCount == Some(|m.entries|) && Starts(nlri.rest, 2, |m.entries|)
         && forall e :: e in m.entries ==> (e.pathId.Some? <==> subtype == 12)
  {
    Gets32(buf);
    Gets16(buf[4..]);
    assert buf[4..][2..] == buf[6..];
    Gets8(buf[6..]);
    assert buf[6..][1..] == buf[7..];
    CountedAreRead(lib.attr, IsAddPath(subtype), lib.nlri.dec(buf[7..]).rest);
  }

  /** A TABLE_DUMP record has addresses of four octets if its subtype is 1, and of sixteen if it is 2. */
  lemma TableDumpIsRead(lib: Lib, subtype: nat, buf: Bytes)
    requires subtype in {1, 2} && ParseMsg(lib, 12, subtype, buf).Got?
    ensures var m := ParseMsg(lib, 12, subtype, buf).value;
      var n := if subtype == 1 then 4 else 16;
      && m.TableDump? && |buf| >= 4 + n
      && Starts(buf, 2, m.viewNum) && Starts(buf[2..], 2, m.seqNum)
      && m.net == buf[4..4 + n] && |m.peerIp| == n && m.status == 1
  {
    Gets16(buf);
    Gets16(buf[2..]);
    var n := if subtype == 1 then 4 else 16;
    assert buf[2..][2..] == buf[4..];
    TableDumpFields(lib, subtype, buf);
    assert buf[4..][..n] == buf[4..4 + n];
  }

  lemma TableDumpFields(lib: Lib, subtype: nat, buf: Bytes)
    requires GetTableDump(lib, subtype, buf).Got?
    ensures Get16(buf).Got? && Get16(Get16(buf).rest).Got?
    ensures var m := GetTableDump(lib, subtype, buf).value;
      var net := GetRaw(if subtype == 1 then 4 else 16, Get16(Get16(buf).rest).rest);
      && m.TableDump? && m.viewNum == Get16(buf).value && m.seqNum == Get16(Get16(buf).rest).value
      && net.Got? && m.net == net.value && |m.peerIp| == (if subtype == 1 then 4 else 16) && m.status == 1
  {
  }

  lemma CountedAreRead(c: Codec, isAddPath: bool, buf: Bytes)
    requires GetCounted(c, isAddPath, buf).Some?
    ensures var counted := GetCounted(c, isAddPath, buf).value;
      Starts(buf, 2, counted.0) && |counted.1| == counted.0 && EntriesOk(isAddPath, counted.1)
  {
    Gets16(buf);
    var n, rest := Get16(buf).value, Get16(buf).rest;
    ListLength(EntryParser(c, isAddPath), n, rest);
    ParsedEntriesOk(c, isAddPath, n, rest);
  }

  lemma {:induction false} ListLength<T>(parse: Bytes -> Parsed<T>, n: nat, buf: Bytes)
    ensures GetList(parse, n, buf).Got? ==> |GetList(parse, n, buf).value| == n
  {
    if n > 0 && parse(buf).Got? {
      ListLength(parse, n - 1, parse(buf).rest);
    }
  }

  /** The AS numbers and addresses at the start of a BGP4MP message. */
  predicate EndsStand(buf: Bytes, width: nat, e: Ends) {
    && |buf| >= 2 * width + 4
    && Starts(buf, width, e.peerAs) && Starts(buf[width..], width, e.localAs)
    && Starts(buf[2 * width..], 2, e.ifIndex)
    && Starts(buf[2 * width + 2..], 2, if |e.peerIp| == 4 then 1 else 2)
    && e.peerIp + e.localIp <= buf[2 * width + 4..]
  }

  lemma EndsStandThere(as4: bool, buf: Bytes)
    requires GetEnds(as4, buf).Got?
    ensures EndsStand(buf, if as4 then 4 else 2, GetEnds(as4, buf).value)
  {
    var width := if as4 then 4 else 2;
    AsIsRead(as4, buf);
    AsIsRead(as4, buf[width..]);
    var r2 := buf[width..][width..];
    assert r2 == buf[2 * width..];
    Gets16(r2);
    Gets16(r2[2..]);
    assert r2[2..] == buf[2 * width + 2..];
    assert r2[2..][2..] == buf[2 * width + 4..];
    AddressesStand(if Get16(r2[2..]).value == 1 then 4 else 16, buf[2 * width + 4..]);
  }

  lemma AddressesStand(n: nat, buf: Bytes)
    ensures GetRaw(n, buf).Got? && GetRaw(n, GetRaw(n, buf).rest).Got? ==>
      GetRaw(n, buf).value + GetRaw(n, GetRaw(n, buf).rest).value <= buf
  {
  }

  /** They are read with the width the subtype says. */
  lemma EndsAreRead(lib: Lib, typ: nat, subtype: nat, buf: Bytes)
    requires typ in {16, 17} && ParseMsg(lib, typ, subtype, buf).Got?
    ensures var m := ParseMsg(lib, typ, subtype, buf).value;
      && (if subtype in {0, 5} then m.StateChange? else m.BgpMessage?)
      && EndsStand(buf, if subtype in {4, 5, 7} then 4 else 2, m.ends)
  {
    var ends := GetEnds(IsAs4(subtype), buf);
    if subtype in {0, 5} {
      StateChangeEnds(subtype, buf);
    } else {
      BgpMessageEnds(lib, subtype, buf);
    }
    EndsStandThere(IsAs4(subtype), buf);
  }

  lemma StateChangeEnds(subtype: nat, buf: Bytes)
    requires GetStateChange(subtype, buf).Got?
    ensures var m, ends := GetStateChange(subtype, buf).value, GetEnds(IsAs4(subtype), buf);
      m.StateChange? && ends.Got? && m.ends == ends.value
  {
  }

  lemma BgpMessageEnds(lib: Lib, subtype: nat, buf: Bytes)
    requires GetBgpMessage(lib, subtype, buf).Got?
    ensures var m, ends := GetBgpMessage(lib, subtype, buf).value, GetEnds(IsAs4(subtype), buf);
      m.BgpMessage? && ends.Got? && m.ends == ends.value
  {
  }

  lemma AsIsRead(as4: bool, buf: Bytes)
    ensures var width := if as4 then 4 else 2;
      GetAs(as4, buf).Got? ==> Starts(buf, width, GetAs(as4, buf).value) && GetAs(as4, buf).rest == buf[width..]
  {
    Gets16(buf);
    Gets32(buf);
  }

  /** A length that says more than there is takes the attributes that are there. */
  lemma ShortBlockIsRead(c: Codec, n: nat, attrs: seq<Obj>)
    requires Lawful(c) && |PutAttrs(c, attrs)| <= n < U16
    ensures GetBlock(c, BigEndian(2, n) + PutAttrs(c, attrs)) == Got((n, attrs), [])
  {
    Puts16(n, PutAttrs(c, attrs));
    GetPut16(n, PutAttrs(c, attrs));
    GetPutAttrs(c, attrs);
    assert Clip(PutAttrs(c, attrs), n) == PutAttrs(c, attrs);
  }

  // ---------------------------------------------------------------- records

  /** The header of a record, with the microseconds of the extended one after the length. */
  lemma RecordIsLaidOut(lib: Lib, r: Record)
    requires WellFormed(lib, r)
    ensures var body := Layout(lib, r.message);
      r.ms.Some? == (r.typ == 17)
      && Serialize(lib, r)
         == BigEndian(4, r.timestamp)
            + (BigEndian(2, r.typ)
               + (BigEndian(2, r.subtype)
                  + (BigEndian(4, |body|) + if r.ms.Some? then BigEndian(4, r.ms.value) + body else body)))
  {
    var body := SerializeMsg(lib, r.message);
    MessageIsLaidOut(lib, r.typ, r.subtype, r.message);
    var b4 := PutMs(r.ms, body);
    var b3 := Put32(|body|, b4);
    if r.ms.Some? {
      PutsBigEndian(r.ms.value, body);
    }
    PutsBigEndian(|body|, b4);
    PutsBigEndian(r.subtype, b3);
    PutsBigEndian(r.typ, Put16(r.subtype, b3));
    PutsBigEndian(r.timestamp, Put16(r.typ, Put16(r.subtype, b3)));
  }

  /** What `serialize` fixes up is what it wrote: lengths, counts, families. */
  lemma FixedIsWritten(lib: Lib, m: Msg)
    requires Fits(lib, m)
    ensures var f := FixMsg(lib, m);
      match f
      case PeerIndexTable(_, viewName, n, peers, count) => n == Some(|viewName|) && count == Some(|peers|)
      case Rib(_, _, _, entries, count) => count == Some(|entries|)
      case RibGeneric(_, _, _, _, _, entries, count) => count == Some(|entries|)
      case TableDump(_, _, _, _, _, _, _, _, _, attrs, n) => n == Some(|PutAttrs(lib.attr, attrs)|)
      case StateChange(_, ends, _, _) => ends.afi == Some(if |ends.peerIp| == 4 then 1 else 2)
      case BgpMessage(_, ends, _) => ends.afi == Some(if |ends.peerIp| == 4 then 1 else 2)
      case _ => f == m
  {
    match m
    case PeerIndexTable(_, _, _, peers, _) => FixedPeers(peers);
    case Rib(_, _, _, entries, _) => FixedEntries(lib, entries);
    case RibGeneric(_, _, _, _, _, entries, _) => FixedEntries(lib, entries);
    case _ =>
  }

  lemma {:induction false} FixedPeers(ps: seq<Peer>)
    requires forall p :: p in ps ==> PeerFits(p)
    ensures |FixPeers(ps)| == |ps|
    ensures forall i :: 0 <= i < |ps| ==> FixPeers(ps)[i] == ps[i].(typ := PeerType(ps[i]))
  {
    if ps != [] {
      assert ps[0] in ps;
      FixedType(ps[0]);
      FixedPeers(ps[1..]);
    }
  }

  lemma {:induction false} FixedEntries(lib: Lib, es: seq<RibEntry>)
    ensures |FixEntries(lib.attr, es)| == |es|
    ensures forall i :: 0 <= i < |es| ==>
      FixEntries(lib.attr, es)[i] == es[i].(attrLen := Some(|PutAttrs(lib.attr, es[i].attrs)|))
  {
    if es != [] {
      FixedEntries(lib, es[1..]);
    }
  }

  // ---------------------------------------------------------------- files

  /** The reader gives what was written, and goes on with whatever bytes follow. */
  lemma {:induction false} ReadsOn(lib: Lib, rs: seq<Record>, rest: Bytes)
    requires LawfulLib(lib) && AllReadable(lib, rs)
    ensures AllWellFormed(lib, rs)
    ensures ReadAll(lib, Written(lib, rs) + rest) == Onto(RereadAll(lib, rs), ReadAll(lib, rest))
  {
    if rs == [] {
      assert [] + rest == rest;
      OntoOne(RereadAll(lib, rs), Record(0, 0, 0, None, None, Unknown([])), ReadAll(lib, rest));
    } else {
      var first, more := rs[0], rs[1..];
      ReadsOn(lib, more, rest);
      var tail := Written(lib, more) + rest;
      NextReads(lib, first, tail);
      ReadAllStep(lib, Serialize(lib, first) + tail, Reread(lib, first), tail);
      Assoc(Serialize(lib, first), Written(lib, more), rest);
      OntoMore([Reread(lib, first)], RereadAll(lib, more), ReadAll(lib, rest));
    }
  }

  lemma OntoMore<T>(a: seq<T>, b: seq<T>, more: Option<seq<T>>)
    ensures Onto(a, Onto(b, more)) == Onto(a + b, more)
  {
    if more.Some? {
      assert a + (b + more.value) == (a + b) + more.value;
    }
  }

  /** Fewer bytes than a header at the end of the file are passed over in silence. */
  lemma ShortEndIsIgnored(lib: Lib, rs: seq<Record>, rest: Bytes)
    requires LawfulLib(lib) && AllReadable(lib, rs) && |rest| < 12
    ensures AllWellFormed(lib, rs)
    ensures ReadAll(lib, Written(lib, rs) + rest) == Some(RereadAll(lib, rs))
  {
    ReadsOn(lib, rs, rest);
    assert RereadAll(lib, rs) + [] == RereadAll(lib, rs);
  }

  function HeaderLayout(timestamp: nat, typ: nat, subtype: nat, length: nat): Bytes {
    BigEndian(4, timestamp) + (BigEndian(2, typ) + (BigEndian(2, subtype) + BigEndian(4, length)))
  }

  /** A whole header with a subtype that no class is registered for ends the reading with an exception. */
  lemma UnregisteredRaises(lib: Lib, rs: seq<Record>, timestamp: nat, subtype: nat, body: Bytes, rest: Bytes)
    requires LawfulLib(lib) && AllReadable(lib, rs)
    requires timestamp < U32 && subtype < U16 && subtype !in {1, 2} && |body| < U32
    ensures AllWellFormed(lib, rs)
    ensures ReadAll(lib, Written(lib, rs) + (HeaderLayout(timestamp, 12, subtype, |body|) + body + rest)) == None
  {
    var left := HeaderLayout(timestamp, 12, subtype, |body|) + body + rest;
    ReadsOn(lib, rs, left);
    NextRaises(lib, timestamp, subtype, body, rest);
    RaisedEnds(lib, left);
  }

  lemma RaisedEnds(lib: Lib, left: Bytes)
    requires NextItem(lib, left).0 == Raised
    ensures ReadAll(lib, left) == None
  {
  }

  lemma NextRaises(lib: Lib, timestamp: nat, subtype: nat, body: Bytes, rest: Bytes)
    requires timestamp < U32 && subtype < U16 && subtype !in {1, 2} && |body| < U32
    ensures NextItem(lib, HeaderLayout(timestamp, 12, subtype, |body|) + body + rest).0 == Raised
  {
    var header := HeaderLayout(timestamp, 12, subtype, |body|);
    HeaderIsRead(timestamp, 12, subtype, |body|, []);
    HeaderIsRead(timestamp, 12, subtype, |body|, body);
    assert header + [] == header;
    assert (header + body + rest)[..12] == header;
    ClipPut(header + body, rest);
    assert Clip(body, |body|) == body;
    UnregisteredSubtypes(lib, 12, subtype, body);
    ParseIsBad(lib, header + body, Header(timestamp, 12, subtype, |body|), body);
  }

  lemma ParseIsBad(lib: Lib, buf: Bytes, h: Header, body: Bytes)
    requires GetHeader(buf) == Got(h, body) && h.typ != 17 && ParseMsg(lib, h.typ, h.subtype, Clip(body, h.length)).Bad?
    ensures Parse(lib, buf).Bad?
  {
  }

  lemma HeaderIsRead(timestamp: nat, typ: nat, subtype: nat, length: nat, tail: Bytes)
    requires timestamp < U32 && typ < U16 && subtype < U16 && length < U32
    ensures var header := HeaderLayout(timestamp, typ, subtype, length);
      |header| == 12 && GetHeader(header + tail) == Got(Header(timestamp, typ, subtype, length), tail)
  {
    var b3 := BigEndian(4, length);
    var b2 := BigEndian(2, subtype) + b3;
    var b1 := BigEndian(2, typ) + b2;
    HeaderRoundTrip(Header(timestamp, typ, subtype, length), tail);
    PutsBigEndian(length, tail);
    Assoc(BigEndian(2, subtype), b3, tail);
    PutsBigEndian(subtype, b3 + tail);
    Assoc(BigEndian(2, typ), b2, tail);
    PutsBigEndian(typ, b2 + tail);
    Assoc(BigEndian(4, timestamp), b1, tail);
    PutsBigEndian(timestamp, b1 + tail);
  }
}
