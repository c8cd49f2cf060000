/**
 The MRT messages of `mrtlib.py`, RFC 6396 section 4: what their serializers write, what their parsers
 read, and when the one undoes the other. Values of fields that `serialize` overwrites are computed by
 the `Fix` functions.
 */
module MrtMessages {
  import opened Wrappers
  import opened MrtBytes

  type Addr4 = s: Bytes | |s| == 4 witness [0, 0, 0, 0]

  type Addr = s: Bytes | |s| == 4 || |s| == 16 witness [0, 0, 0, 0]

  // ---------------------------------------------------------------- peers

  datatype Peer = Peer(typ: nat, bgpId: Addr4, ip: Addr, asNum: nat)

  /** `IP_ADDR_FAMILY_BIT` */
  predicate IsV6Bit(typ: nat) {
    typ % 2 == 1
  }

  /** `AS_NUMBER_SIZE_BIT` */
  predicate IsAs4Bit(typ: nat) {
    typ / 2 % 2 == 1
  }

  function FixPeer(p: Peer): Peer {
    var typ := if |p.ip| == 16 && !IsV6Bit(p.typ) then p.typ + 1 else p.typ;
    p.(typ := if p.asNum > 0xffff && !IsAs4Bit(typ) then typ + 2 else typ)
  }

  predicate PeerFits(p: Peer) {
    p.typ < 256 && p.asNum < U32
  }

  function PutAs(as4: bool, asNum: nat, tail: Bytes): Bytes
    requires asNum < if as4 then U32 else U16
  {
    if as4 then Put32(asNum, tail) else Put16(asNum, tail)
  }

  function GetAs(as4: bool, buf: Bytes): Parsed<nat> {
    if as4 then Get32(buf) else Get16(buf)
  }

  function PutPeer(p: Peer, tail: Bytes): Bytes
    requires PeerFits(p)
  {
    var q := FixPeer(p);
    Put8(q.typ, p.bgpId + (p.ip + PutAs(IsAs4Bit(q.typ), p.asNum, tail)))
  }

  function GetPeer(buf: Bytes): Parsed<Peer> {
    var (typ, r1) :- Get8(buf);
    var (bgpId, r2) :- GetRaw(4, r1);
    var (ip, r3) :- GetRaw(if IsV6Bit(typ) then 16 else 4, r2);
    var (asNum, r4) :- GetAs(IsAs4Bit(typ), r3);
    Got(Peer(typ, bgpId, ip, asNum), r4)
  }

  /** The bit for IPv6 is never cleared, so an IPv4 peer must not come with it. */
  predicate PeerOk(p: Peer) {
    |p.ip| == 4 ==> !IsV6Bit(p.typ)
  }

  lemma GetPutAs(as4: bool, asNum: nat, tail: Bytes)
    requires asNum < if as4 then U32 else U16
    ensures GetAs(as4, PutAs(as4, asNum, tail)) == Got(asNum, tail)
  {
    if as4 {
      GetPut32(asNum, tail);
    } else {
      GetPut16(asNum, tail);
    }
  }

  lemma FixedBits(p: Peer)
    requires PeerFits(p)
    ensures var q := FixPeer(p);
      && q.typ < 256
      && (IsV6Bit(q.typ) <==> IsV6Bit(p.typ) || |p.ip| == 16)
      && (IsAs4Bit(q.typ) <==> IsAs4Bit(p.typ) || p.asNum > 0xffff)
  {
  }

  lemma PeerRoundTrip(p: Peer, tail: Bytes)
    requires PeerFits(p)
    ensures GetPeer(PutPeer(p, tail)) == Got(FixPeer(p), tail) <==> PeerOk(p)
  {
    var q := FixPeer(p);
    FixedBits(p);
    var as4 := IsAs4Bit(q.typ);
    var a := PutAs(as4, p.asNum, tail);
    GetPut8(q.typ, p.bgpId + (p.ip + a));
    GetPutRaw(p.bgpId, p.ip + a);
    if PeerOk(p) {
      GetPutRaw(p.ip, a);
      GetPutAs(as4, p.asNum, tail);
    }
  }

  function PutPeers(ps: seq<Peer>, tail: Bytes): Bytes
    requires forall p :: p in ps ==> PeerFits(p)
  {
    if ps == [] then tail else PutPeer(ps[0], PutPeers(ps[1..], tail))
  }

  function PeerParser(): Bytes -> Parsed<Peer> {
    b => GetPeer(b)
  }

  function GetPeers(n: nat, buf: Bytes): Parsed<seq<Peer>> {
    GetList(PeerParser(), n, buf)
  }

  function FixPeers(ps: seq<Peer>): seq<Peer> {
    if ps == [] then [] else [FixPeer(ps[0])] + FixPeers(ps[1..])
  }

  predicate PeersOk(ps: seq<Peer>) {
    forall p :: p in ps ==> PeerOk(p)
  }

  lemma {:induction false} PeersRoundTrip(ps: seq<Peer>, tail: Bytes)
    requires (forall p :: p in ps ==> PeerFits(p)) && PeersOk(ps)
    ensures GetPeers(|ps|, PutPeers(ps, tail)) == Got(FixPeers(ps), tail)
  {
    if ps != [] {
      assert ps[0] in ps;
      PeerRoundTrip(ps[0], PutPeers(ps[1..], tail));
      PeersRoundTrip(ps[1..], tail);
    }
  }

  lemma ParsedPeerOk(buf: Bytes)
    ensures GetPeer(buf).Got? ==> PeerOk(GetPeer(buf).value)
  {
  }

  /** Parsed peers are always of the good kind. */
  lemma ParsedPeersOk(n: nat, buf: Bytes)
    ensures GetPeers(n, buf).Got? ==> PeersOk(GetPeers(n, buf).value)
  {
    forall b: Bytes
      ensures PeerParser()(b).Got? ==> PeerOk(PeerParser()(b).value)
    {
      ParsedPeerOk(b);
    }
    ListParsed(PeerParser(), PeerOk, n, buf);
  }

  lemma {:induction false} FixedPeersOk(ps: seq<Peer>)
    requires PeersOk(FixPeers(ps))
    ensures PeersOk(ps)
  {
    if ps != [] {
      var first, more := FixPeer(ps[0]), FixPeers(ps[1..]);
      assert first in FixPeers(ps);
      assert forall p :: p in more ==> p in FixPeers(ps);
      FixedPeersOk(ps[1..]);
      assert ps == [ps[0]] + ps[1..];
    }
  }

  // ---------------------------------------------------------------- RIB entries

  datatype RibEntry = RibEntry(
    peerIndex: nat, originatedTime: nat, attrs: seq<Obj>, attrLen: Option<nat>, pathId: Option<nat>)

  function FixEntry(c: Codec, e: RibEntry): RibEntry {
    e.(attrLen := Some(|PutAttrs(c, e.attrs)|))
  }

  predicate EntryFits(c: Codec, e: RibEntry) {
    && e.peerIndex < U16 && e.originatedTime < U32
    && (e.pathId.Some? ==> e.pathId.value < U32)
    && |PutAttrs(c, e.attrs)| < U16
  }

  /** The attributes with their length before them. */
  function PutBlock(b: Bytes, tail: Bytes): Bytes
    requires |b| < U16
  {
    Put16(|b|, b + tail)
  }

  function PutEntry(c: Codec, e: RibEntry, tail: Bytes): Bytes
    requires EntryFits(c, e)
  {
    var block := PutBlock(PutAttrs(c, e.attrs), tail);
    Put16(e.peerIndex, Put32(e.originatedTime,
      if e.pathId.Some? then Put32(e.pathId.value, block) else block))
  }

  function GetPathId(isAddPath: bool, buf: Bytes): Parsed<Option<nat>> {
    if !isAddPath then Got(None, buf)
    else
      var (pathId, rest) :- Get32(buf);
      Got(Some(pathId), rest)
  }

  /** The slice of the attributes may be shorter than its length says. */
  function GetBlock(c: Codec, buf: Bytes): Parsed<(nat, seq<Obj>)> {
    var (n, rest) :- Get16(buf);
    match GetAttrs(c, Clip(rest, n))
    case None => Bad
    case Some(attrs) => Got((n, attrs), Drop(rest, n))
  }

  function GetEntry(c: Codec, isAddPath: bool, buf: Bytes): Parsed<RibEntry> {
    var (peerIndex, r1) :- Get16(buf);
    var (originatedTime, r2) :- Get32(r1);
    var (pathId, r3) :- GetPathId(isAddPath, r2);
    var (block, r4) :- GetBlock(c, r3);
    Got(RibEntry(peerIndex, originatedTime, block.1, Some(block.0), pathId), r4)
  }

  lemma GetPutBlock(c: Codec, attrs: seq<Obj>, tail: Bytes)
    requires Lawful(c) && |PutAttrs(c, attrs)| < U16
    ensures GetBlock(c, PutBlock(PutAttrs(c, attrs), tail)) == Got((|PutAttrs(c, attrs)|, attrs), tail)
  {
    var b := PutAttrs(c, attrs);
    GetPut16(|b|, b + tail);
    ClipPut(b, tail);
    GetPutAttrs(c, attrs);
  }

  /** An entry carries a path identifier exactly when its table is of an additional-path subtype. */
  predicate EntryOk(isAddPath: bool, e: RibEntry) {
    e.pathId.Some? == isAddPath
  }

  lemma EntryRoundTrip(c: Codec, e: RibEntry, tail: Bytes)
    requires Lawful(c) && EntryFits(c, e)
    ensures GetEntry(c, e.pathId.Some?, PutEntry(c, e, tail)) == Got(FixEntry(c, e), tail)
  {
    var block := PutBlock(PutAttrs(c, e.attrs), tail);
    var b := if e.pathId.Some? then Put32(e.pathId.value, block) else block;
    GetPut16(e.peerIndex, Put32(e.originatedTime, b));
    GetPut32(e.originatedTime, b);
    if e.pathId.Some? {
      GetPut32(e.pathId.value, block);
    }
    GetPutBlock(c, e.attrs, tail);
  }

  predicate EntriesFit(c: Codec, es: seq<RibEntry>) {
    forall e :: e in es ==> EntryFits(c, e)
  }

  function PutEntries(c: Codec, es: seq<RibEntry>, tail: Bytes): Bytes
    requires EntriesFit(c, es)
  {
    if es == [] then tail else PutEntry(c, es[0], PutEntries(c, es[1..], tail))
  }

  function EntryParser(c: Codec, isAddPath: bool): Bytes -> Parsed<RibEntry> {
    b => GetEntry(c, isAddPath, b)
  }

  function GetEntries(c: Codec, isAddPath: bool, n: nat, buf: Bytes): Parsed<seq<RibEntry>> {
    GetList(EntryParser(c, isAddPath), n, buf)
  }

  function FixEntries(c: Codec, es: seq<RibEntry>): seq<RibEntry> {
    if es == [] then [] else [FixEntry(c, es[0])] + FixEntries(c, es[1..])
  }

  predicate EntriesOk(isAddPath: bool, es: seq<RibEntry>) {
    forall e :: e in es ==> EntryOk(isAddPath, e)
  }

  lemma {:induction false} EntriesRoundTrip(c: Codec, isAddPath: bool, es: seq<RibEntry>, tail: Bytes)
    requires Lawful(c) && EntriesFit(c, es) && EntriesOk(isAddPath, es)
    ensures GetEntries(c, isAddPath, |es|, PutEntries(c, es, tail)) == Got(FixEntries(c, es), tail)
  {
    if es != [] {
      assert es[0] in es;
      EntryRoundTrip(c, es[0], PutEntries(c, es[1..], tail));
      EntriesRoundTrip(c, isAddPath, es[1..], tail);
    }
  }

  lemma ParsedEntryOk(c: Codec, isAddPath: bool, buf: Bytes)
    ensures GetEntry(c, isAddPath, buf).Got? ==> EntryOk(isAddPath, GetEntry(c, isAddPath, buf).value)
  {
  }

  /** Parsed entries always have what the subtype calls for. */
  lemma ParsedEntriesOk(c: Codec, isAddPath: bool, n: nat, buf: Bytes)
    ensures GetEntries(c, isAddPath, n, buf).Got? ==> EntriesOk(isAddPath, GetEntries(c, isAddPath, n, buf).value)
  {
    var parse := EntryParser(c, isAddPath);
    var ok := e => EntryOk(isAddPath, e);
    forall b: Bytes
      ensures parse(b).Got? ==> ok(parse(b).value)
    {
      ParsedEntryOk(c, isAddPath, b);
    }
    ListParsed(parse, ok, n, buf);
    if GetEntries(c, isAddPath, n, buf).Got? {
      assert forall e :: e in GetEntries(c, isAddPath, n, buf).value ==> ok(e);
    }
  }

  lemma {:induction false} FixedEntriesOk(c: Codec, isAddPath: bool, es: seq<RibEntry>)
    requires EntriesOk(isAddPath, FixEntries(c, es))
    ensures EntriesOk(isAddPath, es)
  {
    if es != [] {
      var first, more := FixEntry(c, es[0]), FixEntries(c, es[1..]);
      assert first in FixEntries(c, es);
      assert forall e :: e in more ==> e in FixEntries(c, es);
      FixedEntriesOk(c, isAddPath, es[1..]);
      assert es == [es[0]] + es[1..];
    }
  }

  // ---------------------------------------------------------------- messages

  /** The fields that BGP4MP messages start with; `afi` is set when they are serialized. */
  datatype Ends = Ends(peerAs: nat, localAs: nat, ifIndex: nat, afi: Option<nat>, peerIp: Addr, localIp: Addr)

  /** `subtype` stands for the class, where several classes differ by it only. */
  datatype Msg =
    | PeerIndexTable(bgpId: Addr4, viewName: Bytes, viewNameLen: Option<nat>, peers: seq<Peer>, peerCount: Option<nat>)
    | Rib(subtype: nat, seqNum: nat, prefix: Obj, entries: seq<RibEntry>, entryCount: Option<nat>)
    | RibGeneric(subtype: nat, seqNum: nat, afi: nat, safi: nat, nlri: Obj, entries: seq<RibEntry>,
                 entryCount: Option<nat>)
    | TableDump(subtype: nat, viewNum: nat, seqNum: nat, net: Addr, prefixLen: nat, status: nat,
                originatedTime: nat, peerIp: Addr, peerAs: nat, attrs: seq<Obj>, attrLen: Option<nat>)
    | StateChange(subtype: nat, ends: Ends, oldState: nat, newState: nat)
    | BgpMessage(subtype: nat, ends: Ends, message: Obj)
    | Ospf(remoteIp: Addr4, localIp: Addr4, message: Obj)
    | Unknown(buf: Bytes)

  const OSPFv2: nat := 11
  const TABLE_DUMP: nat := 12
  const TABLE_DUMP_V2: nat := 13
  const BGP4MP: nat := 16
  const BGP4MP_ET: nat := 17

  predicate IsRib(subtype: nat) {
    2 <= subtype <= 5 || 8 <= subtype <= 11
  }

  /** `_IS_ADDPATH` */
  predicate IsAddPath(subtype: nat) {
    8 <= subtype <= 12
  }

  /** `_PREFIX_CLS` */
  function PrefixCodec(lib: Lib, subtype: nat): Codec {
    if subtype in {2, 3, 8, 9} then lib.prefix4 else lib.prefix6
  }

  /** The classes of BGP4MP messages whose AS numbers have four octets. */
  predicate IsAs4(subtype: nat) {
    subtype in {4, 5, 7}
  }

  /** The class of the message is the one registered for the type and subtype. */
  predicate Registered(typ: nat, subtype: nat, m: Msg) {
    match m
    case PeerIndexTable(_, _, _, _, _) => typ == TABLE_DUMP_V2 && subtype == 1
    case Rib(sub, _, _, _, _) => typ == TABLE_DUMP_V2 && subtype == sub && IsRib(sub)
    case RibGeneric(sub, _, _, _, _, _, _) => typ == TABLE_DUMP_V2 && subtype == sub && sub in {6, 12}
    case TableDump(sub, _, _, _, _, _, _, _, _, _, _) => typ == TABLE_DUMP && subtype == sub && sub in {1, 2}
    case StateChange(sub, _, _, _) => typ in {BGP4MP, BGP4MP_ET} && subtype == sub && sub in {0, 5}
    case BgpMessage(sub, _, _) => typ in {BGP4MP, BGP4MP_ET} && subtype == sub && sub in {1, 4, 6, 7}
    case Ospf(_, _, _) => typ == OSPFv2
    case Unknown(_) => typ !in {OSPFv2, TABLE_DUMP, TABLE_DUMP_V2, BGP4MP, BGP4MP_ET}
  }

  // ---------------------------------------------------------------- RIB tables

  predicate CountedFit(c: Codec, es: seq<RibEntry>) {
    |es| < U16 && EntriesFit(c, es)
  }

  function PutCounted(c: Codec, es: seq<RibEntry>): Bytes
    requires CountedFit(c, es)
  {
    Put16(|es|, PutEntries(c, es, []))
  }

  /** `parse_rib_entries`; what follows the entries is ignored. */
  function GetCounted(c: Codec, isAddPath: bool, buf: Bytes): Option<(nat, seq<RibEntry>)> {
    match Get16(buf)
    case Bad => None
    case Got(n, rest) =>
      match GetEntries(c, isAddPath, n, rest)
      case Bad => None
      case Got(es, _) => Some((n, es))
  }

  lemma CountedRoundTrip(c: Codec, isAddPath: bool, es: seq<RibEntry>)
    requires Lawful(c) && CountedFit(c, es)
    ensures GetCounted(c, isAddPath, PutCounted(c, es)) == Some((|es|, FixEntries(c, es))) <==> EntriesOk(isAddPath, es)
  {
    GetPut16(|es|, PutEntries(c, es, []));
    if EntriesOk(isAddPath, es) {
      EntriesRoundTrip(c, isAddPath, es, []);
    } else {
      ParsedEntriesOk(c, isAddPath, |es|, PutEntries(c, es, []));
      if EntriesOk(isAddPath, FixEntries(c, es)) {
        FixedEntriesOk(c, isAddPath, es);
      }
    }
  }

  // ---------------------------------------------------------------- BGP4MP addresses

  predicate EndsFit(as4: bool, e: Ends) {
    && e.peerAs < (if as4 then U32 else U16)
    && e.localAs < (if as4 then U32 else U16)
    && e.ifIndex < U16
    && |e.peerIp| == |e.localIp|
  }

  function AfiOf(ip: Addr): (afi: nat)
    ensures afi == 1 || afi == 2
  {
    if |ip| == 4 then 1 else 2
  }

  function FixEnds(e: Ends): Ends {
    e.(afi := Some(AfiOf(e.peerIp)))
  }

  function PutEnds(as4: bool, e: Ends, tail: Bytes): Bytes
    requires EndsFit(as4, e)
  {
    PutAs(as4, e.peerAs, PutAs(as4, e.localAs, Put16(e.ifIndex, Put16(AfiOf(e.peerIp),
      e.peerIp + (e.localIp + tail)))))
  }

  function GetEnds(as4: bool, buf: Bytes): Parsed<Ends> {
    var (peerAs, r1) :- GetAs(as4, buf);
    var (localAs, r2) :- GetAs(as4, r1);
    var (ifIndex, r3) :- Get16(r2);
    var (afi, r4) :- Get16(r3);
    if afi != 1 && afi != 2 then Bad
    else
      var (peerIp, r5) :- GetRaw(if afi == 1 then 4 else 16, r4);
      var (localIp, r6) :- GetRaw(if afi == 1 then 4 else 16, r5);
      Got(Ends(peerAs, localAs, ifIndex, Some(afi), peerIp, localIp), r6)
  }

  lemma EndsRoundTrip(as4: bool, e: Ends, tail: Bytes)
    requires EndsFit(as4, e)
    ensures GetEnds(as4, PutEnds(as4, e, tail)) == Got(FixEnds(e), tail)
  {
    var b4 := e.peerIp + (e.localIp + tail);
    var b3 := Put16(AfiOf(e.peerIp), b4);
    var b2 := Put16(e.ifIndex, b3);
    GetPutAs(as4, e.peerAs, PutAs(as4, e.localAs, b2));
    GetPutAs(as4, e.localAs, b2);
    GetPut16(e.ifIndex, b3);
    GetPut16(AfiOf(e.peerIp), b4);
    GetPutRaw(e.peerIp, e.localIp + tail);
    GetPutRaw(e.localIp, tail);
  }

  // ---------------------------------------------------------------- serializers and parsers

  /** Every field fits its width, and addresses are of the family the class is for. */
  predicate Fits(lib: Lib, m: Msg) {
    match m
    case PeerIndexTable(_, viewName, _, peers, _) =>
      |viewName| < U16 && |peers| < U16 && forall p :: p in peers ==> PeerFits(p)
    case Rib(_, seqNum, _, entries, _) => seqNum < U32 && CountedFit(lib.attr, entries)
    case RibGeneric(_, seqNum, afi, safi, _, entries, _) =>
      seqNum < U32 && afi < U16 && safi < 256 && CountedFit(lib.attr, entries)
    case TableDump(sub, viewNum, seqNum, net, prefixLen, status, time, peerIp, peerAs, attrs, _) =>
      && viewNum < U16 && seqNum < U16 && prefixLen < 256 && status == 1 && time < U32 && peerAs < U16
      && |net| == DumpAddrLen(sub) && |peerIp| == DumpAddrLen(sub)
      && |PutAttrs(lib.attr, attrs)| < U16
    case StateChange(sub, ends, oldState, newState) => EndsFit(IsAs4(sub), ends) && oldState < U16 && newState < U16
    case BgpMessage(sub, ends, _) => EndsFit(IsAs4(sub), ends)
    case Ospf(_, _, _) => true
    case Unknown(_) => true
  }

  function DumpAddrLen(subtype: nat): nat {
    if subtype == 1 then 4 else 16
  }

  function PutPeerIndexTable(bgpId: Addr4, viewName: Bytes, peers: seq<Peer>): Bytes
    requires |viewName| < U16 && |peers| < U16 && forall p :: p in peers ==> PeerFits(p)
  {
    bgpId + Put16(|viewName|, viewName + Put16(|peers|, PutPeers(peers, [])))
  }

  function GetPeerIndexTable(buf: Bytes): (p: Parsed<Msg>)
    ensures p.Got? ==> p.rest == []
  {
    var (bgpId, r1) :- GetRaw(4, buf);
    var (n, r2) :- Get16(r1);
    var (viewName, r3) :- GetRaw(n, r2);
    var (count, r4) :- Get16(r3);
    var (peers, r5) :- GetPeers(count, r4);
    Got(PeerIndexTable(bgpId, viewName, Some(n), peers, Some(count)), [])
  }

  /** The fields before the peers come back in any case. */
  lemma PeerIndexTableHeader(bgpId: Addr4, viewName: Bytes, peers: seq<Peer>)
    requires |viewName| < U16 && |peers| < U16 && forall p :: p in peers ==> PeerFits(p)
    ensures GetPeerIndexTable(PutPeerIndexTable(bgpId, viewName, peers))
         == match GetPeers(|peers|, PutPeers(peers, []))
            case Bad => Bad
            case Got(read, _) => Got(PeerIndexTable(bgpId, viewName, Some(|viewName|), read, Some(|peers|)), [])
  {
    var b3 := PutPeers(peers, []);
    var b2 := Put16(|peers|, b3);
    GetPutRaw(bgpId, Put16(|viewName|, viewName + b2));
    GetPut16(|viewName|, viewName + b2);
    GetPutRaw(viewName, b2);
    GetPut16(|peers|, b3);
  }

  lemma PeerIndexTableRoundTrip(bgpId: Addr4, viewName: Bytes, peers: seq<Peer>)
    requires |viewName| < U16 && |peers| < U16 && forall p :: p in peers ==> PeerFits(p)
    ensures GetPeerIndexTable(PutPeerIndexTable(bgpId, viewName, peers))
         == Got(PeerIndexTable(bgpId, viewName, Some(|viewName|), FixPeers(peers), Some(|peers|)), [])
       <==> PeersOk(peers)
  {
    PeerIndexTableHeader(bgpId, viewName, peers);
    if PeersOk(peers) {
      PeersRoundTrip(peers, []);
    } else {
      ParsedPeersOk(|peers|, PutPeers(peers, []));
      if PeersOk(FixPeers(peers)) {
        FixedPeersOk(peers);
      }
    }
  }

  function GetRib(lib: Lib, subtype: nat, buf: Bytes): (p: Parsed<Msg>)
    ensures p.Got? ==> p.rest == []
  {
    var (seqNum, r1) :- Get32(buf);
    var (prefix, r2) :- PrefixCodec(lib, subtype).dec(r1);
    match GetCounted(lib.attr, IsAddPath(subtype), r2)
    case None => Bad
    case Some(counted) => Got(Rib(subtype, seqNum, prefix, counted.1, Some(counted.0)), [])
  }

  lemma RibHeader(lib: Lib, subtype: nat, seqNum: nat, prefix: Obj, b: Bytes)
    requires LawfulLib(lib) && seqNum < U32
    ensures GetRib(lib, subtype, Put32(seqNum, PrefixCodec(lib, subtype).enc(prefix) + b))
         == match GetCounted(lib.attr, IsAddPath(subtype), b)
            case None => Bad
            case Some(counted) => Got(Rib(subtype, seqNum, prefix, counted.1, Some(counted.0)), [])
  {
    var c := PrefixCodec(lib, subtype);
    GetPut32(seqNum, c.enc(prefix) + b);
    DecEnc(c, prefix, b);
  }

  lemma RibRoundTrip(lib: Lib, subtype: nat, seqNum: nat, prefix: Obj, es: seq<RibEntry>)
    requires LawfulLib(lib) && seqNum < U32 && CountedFit(lib.attr, es)
    ensures GetRib(lib, subtype, Put32(seqNum, PrefixCodec(lib, subtype).enc(prefix) + PutCounted(lib.attr, es)))
         == Got(Rib(subtype, seqNum, prefix, FixEntries(lib.attr, es), Some(|es|)), [])
       <==> EntriesOk(IsAddPath(subtype), es)
  {
    RibHeader(lib, subtype, seqNum, prefix, PutCounted(lib.attr, es));
    CountedRoundTrip(lib.attr, IsAddPath(subtype), es);
  }

  function GetRibGeneric(lib: Lib, subtype: nat, buf: Bytes): (p: Parsed<Msg>)
    ensures p.Got? ==> p.rest == []
  {
    var (seqNum, r1) :- Get32(buf);
    var (afi, r2) :- Get16(r1);
    var (safi, r3) :- Get8(r2);
    var (nlri, r4) :- lib.nlri.dec(r3);
    match GetCounted(lib.attr, IsAddPath(subtype), r4)
    case None => Bad
    case Some(counted) => Got(RibGeneric(subtype, seqNum, afi, safi, nlri, counted.1, Some(counted.0)), [])
  }

  lemma RibGenericRoundTrip(lib: Lib, subtype: nat, seqNum: nat, afi: nat, safi: nat, nlri: Obj, es: seq<RibEntry>)
    requires LawfulLib(lib) && seqNum < U32 && afi < U16 && safi < 256 && CountedFit(lib.attr, es)
    ensures GetRibGeneric(lib, subtype,
                          Put32(seqNum, Put16(afi, Put8(safi, lib.nlri.enc(nlri) + PutCounted(lib.attr, es)))))
         == Got(RibGeneric(subtype, seqNum, afi, safi, nlri, FixEntries(lib.attr, es), Some(|es|)), [])
       <==> EntriesOk(IsAddPath(subtype), es)
  {
    var b4 := PutCounted(lib.attr, es);
    var b3 := Put8(safi, lib.nlri.enc(nlri) + b4);
    GetPut32(seqNum, Put16(afi, b3));
    GetPut16(afi, b3);
    GetPut8(safi, lib.nlri.enc(nlri) + b4);
    DecEnc(lib.nlri, nlri, b4);
    CountedRoundTrip(lib.attr, IsAddPath(subtype), es);
  }

  function PutTableDump(lib: Lib, m: Msg): Bytes
    requires m.TableDump? && Fits(lib, m)
  {
    Put16(m.viewNum, Put16(m.seqNum, m.net + Put8(m.prefixLen, Put8(m.status, Put32(m.originatedTime,
      m.peerIp + Put16(m.peerAs, PutBlock(PutAttrs(lib.attr, m.attrs), [])))))))
  }

  /** The constructor asserts that the status is 1. */
  function GetTableDump(lib: Lib, subtype: nat, buf: Bytes): (p: Parsed<Msg>)
    ensures p.Got? ==> p.rest == []
  {
    var (viewNum, r1) :- Get16(buf);
    var (seqNum, r2) :- Get16(r1);
    var (net, r3) :- GetRaw(DumpAddrLen(subtype), r2);
    var (prefixLen, r4) :- Get8(r3);
    var (status, r5) :- Get8(r4);
    var (time, r6) :- Get32(r5);
    var (peerIp, r7) :- GetRaw(DumpAddrLen(subtype), r6);
    var (peerAs, r8) :- Get16(r7);
    var (block, r9) :- GetBlock(lib.attr, r8);
    if status != 1 then Bad
    else
      Got(TableDump(subtype, viewNum, seqNum, net, prefixLen, status, time, peerIp, peerAs, block.1, Some(block.0)), [])
  }

  lemma TableDumpRoundTrip(lib: Lib, m: Msg)
    requires LawfulLib(lib) && m.TableDump? && Fits(lib, m)
    ensures GetTableDump(lib, m.subtype, PutTableDump(lib, m))
         == Got(m.(attrLen := Some(|PutAttrs(lib.attr, m.attrs)|)), [])
  {
    var b8 := PutBlock(PutAttrs(lib.attr, m.attrs), []);
    var b7 := Put16(m.peerAs, b8);
    var b6 := m.peerIp + b7;
    var b5 := Put32(m.originatedTime, b6);
    var b4 := Put8(m.status, b5);
    var b3 := Put8(m.prefixLen, b4);
    var b2 := m.net + b3;
    GetPut16(m.viewNum, Put16(m.seqNum, b2));
    GetPut16(m.seqNum, b2);
    GetPutRaw(m.net, b3);
    GetPut8(m.prefixLen, b4);
    GetPut8(m.status, b5);
    GetPut32(m.originatedTime, b6);
    GetPutRaw(m.peerIp, b7);
    GetPut16(m.peerAs, b8);
    GetPutBlock(lib.attr, m.attrs, []);
  }

  function GetStateChange(subtype: nat, buf: Bytes): (p: Parsed<Msg>)
    ensures p.Got? ==> p.rest == []
  {
    var (ends, r1) :- GetEnds(IsAs4(subtype), buf);
    var (oldState, r2) :- Get16(r1);
    var (newState, r3) :- Get16(r2);
    Got(StateChange(subtype, ends, oldState, newState), [])
  }

  function GetBgpMessage(lib: Lib, subtype: nat, buf: Bytes): (p: Parsed<Msg>)
    ensures p.Got? ==> p.rest == []
  {
    var (ends, r1) :- GetEnds(IsAs4(subtype), buf);
    var (message, r2) :- lib.bgp.dec(r1);
    Got(BgpMessage(subtype, ends, message), [])
  }

  function GetOspf(lib: Lib, buf: Bytes): (p: Parsed<Msg>)
    ensures p.Got? ==> p.rest == []
  {
    var (remoteIp, r1) :- GetRaw(4, buf);
    var (localIp, r2) :- GetRaw(4, r1);
    var (message, r3) :- lib.ospf.dec(r2);
    Got(Ospf(remoteIp, localIp, message), [])
  }

  function SerializeMsg(lib: Lib, m: Msg): Bytes
    requires Fits(lib, m)
  {
    match m
    case PeerIndexTable(bgpId, viewName, _, peers, _) => PutPeerIndexTable(bgpId, viewName, peers)
    case Rib(sub, seqNum, prefix, entries, _) =>
      Put32(seqNum, PrefixCodec(lib, sub).enc(prefix) + PutCounted(lib.attr, entries))
    case RibGeneric(_, seqNum, afi, safi, nlri, entries, _) =>
      Put32(seqNum, Put16(afi, Put8(safi, lib.nlri.enc(nlri) + PutCounted(lib.attr, entries))))
    case TableDump(_, _, _, _, _, _, _, _, _, _, _) => PutTableDump(lib, m)
    case StateChange(sub, ends, oldState, newState) => PutEnds(IsAs4(sub), ends, Put16(oldState, Put16(newState, [])))
    case BgpMessage(sub, ends, message) => PutEnds(IsAs4(sub), ends, lib.bgp.enc(message))
    case Ospf(remoteIp, localIp, message) => remoteIp + (localIp + lib.ospf.enc(message))
    case Unknown(buf) => buf
  }

  /** The parser of the class registered for the type and subtype; a subtype without one is an error. */
  function ParseMsg(lib: Lib, typ: nat, subtype: nat, buf: Bytes): (p: Parsed<Msg>)
    ensures p.Got? ==> p.rest == []
  {
    if typ == OSPFv2 then GetOspf(lib, buf)
    else if typ == TABLE_DUMP then
      if subtype in {1, 2} then GetTableDump(lib, subtype, buf) else Bad
    else if typ == TABLE_DUMP_V2 then
      if subtype == 1 then GetPeerIndexTable(buf)
      else if IsRib(subtype) then GetRib(lib, subtype, buf)
      else if subtype in {6, 12} then GetRibGeneric(lib, subtype, buf)
      else Bad
    else if typ == BGP4MP || typ == BGP4MP_ET then
      if subtype in {0, 5} then GetStateChange(subtype, buf)
      else if subtype in {1, 4, 6, 7} then GetBgpMessage(lib, subtype, buf)
      else Bad
    else Got(Unknown(buf), [])
  }

  /** The message with the fields that `serialize` fixes up. */
  function FixMsg(lib: Lib, m: Msg): Msg {
    match m
    case PeerIndexTable(_, viewName, _, peers, _) =>
      m.(viewNameLen := Some(|viewName|), peers := FixPeers(peers), peerCount := Some(|peers|))
    case Rib(sub, seqNum, prefix, entries, _) =>
      Rib(sub, seqNum, prefix, FixEntries(lib.attr, entries), Some(|entries|))
    case RibGeneric(sub, seqNum, afi, safi, nlri, entries, _) =>
      RibGeneric(sub, seqNum, afi, safi, nlri, FixEntries(lib.attr, entries), Some(|entries|))
    case TableDump(_, _, _, _, _, _, _, _, _, attrs, _) => m.(attrLen := Some(|PutAttrs(lib.attr, attrs)|))
    case StateChange(sub, ends, oldState, newState) => StateChange(sub, FixEnds(ends), oldState, newState)
    case BgpMessage(sub, ends, message) => BgpMessage(sub, FixEnds(ends), message)
    case Ospf(_, _, _) => m
    case Unknown(_) => m
  }

  /** What a caller must see to: no IPv6 bit on IPv4 peers, path identifiers where the subtype has them. */
  predicate Faithful(m: Msg) {
    match m
    case PeerIndexTable(_, _, _, peers, _) => PeersOk(peers)
    case Rib(sub, _, _, entries, _) => EntriesOk(IsAddPath(sub), entries)
    case RibGeneric(sub, _, _, _, _, entries, _) => EntriesOk(IsAddPath(sub), entries)
    case _ => true
  }

  lemma StateChangeRoundTrip(subtype: nat, ends: Ends, oldState: nat, newState: nat)
    requires EndsFit(IsAs4(subtype), ends) && oldState < U16 && newState < U16
    ensures GetStateChange(subtype, PutEnds(IsAs4(subtype), ends, Put16(oldState, Put16(newState, []))))
         == Got(StateChange(subtype, FixEnds(ends), oldState, newState), [])
  {
    EndsRoundTrip(IsAs4(subtype), ends, Put16(oldState, Put16(newState, [])));
    GetPut16(oldState, Put16(newState, []));
    GetPut16(newState, []);
  }

  lemma BgpMessageRoundTrip(lib: Lib, subtype: nat, ends: Ends, message: Obj)
    requires LawfulLib(lib) && EndsFit(IsAs4(subtype), ends)
    ensures GetBgpMessage(lib, subtype, PutEnds(IsAs4(subtype), ends, lib.bgp.enc(message)))
         == Got(BgpMessage(subtype, FixEnds(ends), message), [])
  {
    EndsRoundTrip(IsAs4(subtype), ends, lib.bgp.enc(message));
    DecEnc(lib.bgp, message, []);
    assert lib.bgp.enc(message) + [] == lib.bgp.enc(message);
  }

  lemma OspfRoundTrip(lib: Lib, remoteIp: Addr4, localIp: Addr4, message: Obj)
    requires LawfulLib(lib)
    ensures GetOspf(lib, remoteIp + (localIp + lib.ospf.enc(message))) == Got(Ospf(remoteIp, localIp, message), [])
  {
    GetPutRaw(remoteIp, localIp + lib.ospf.enc(message));
    GetPutRaw(localIp, lib.ospf.enc(message));
    DecEnc(lib.ospf, message, []);
    assert lib.ospf.enc(message) + [] == lib.ospf.enc(message);
  }

  /** Every registered message comes back as it was fixed up, exactly when it is faithful. */
  lemma MsgRoundTrip(lib: Lib, typ: nat, m: Msg, subtype: nat)
    requires LawfulLib(lib) && Registered(typ, subtype, m) && Fits(lib, m)
    ensures ParseMsg(lib, typ, subtype, SerializeMsg(lib, m)) == Got(FixMsg(lib, m), []) <==> Faithful(m)
  {
    match m
    case PeerIndexTable(bgpId, viewName, _, peers, _) => PeerIndexTableRoundTrip(bgpId, viewName, peers);
    case Rib(sub, seqNum, prefix, entries, _) => RibRoundTrip(lib, sub, seqNum, prefix, entries);
    case RibGeneric(sub, seqNum, afi, safi, nlri, entries, _) =>
      RibGenericRoundTrip(lib, sub, seqNum, afi, safi, nlri, entries);
    case TableDump(_, _, _, _, _, _, _, _, _, _, _) => TableDumpRoundTrip(lib, m);
    case StateChange(sub, ends, oldState, newState) => StateChangeRoundTrip(sub, ends, oldState, newState);
    case BgpMessage(sub, ends, message) => BgpMessageRoundTrip(lib, sub, ends, message);
    case Ospf(remoteIp, localIp, message) => OspfRoundTrip(lib, remoteIp, localIp, message);
    case Unknown(_) =>
  }

  // ---------------------------------------------------------------- the loops over peers and entries

  lemma PutAppend(n: nat, a: Bytes, b: Bytes)
    ensures n < 256 ==> Put8(n, a + b) == Put8(n, a) + b
    ensures n < U16 ==> Put16(n, a + b) == Put16(n, a) + b
    ensures n < U32 ==> Put32(n, a + b) == Put32(n, a) + b
  {
  }

  lemma PutPeerAppend(p: Peer, tail: Bytes)
    requires PeerFits(p)
    ensures PutPeer(p, tail) == PutPeer(p, []) + tail
  {
    var q := FixPeer(p);
    FixedBits(p);
    var a := PutAs(IsAs4Bit(q.typ), p.asNum, []);
    assert [] + tail == tail;
    PutAppend(p.asNum, [], tail);
    Assoc(p.ip, a, tail);
    Assoc(p.bgpId, p.ip + a, tail);
    PutAppend(q.typ, p.bgpId + (p.ip + a), tail);
  }

  /** The loop over `peer_entries` when they are serialized. */
  method SerializePeers(ps: seq<Peer>) returns (buf: Bytes)
    requires forall p :: p in ps ==> PeerFits(p)
    ensures buf == PutPeers(ps, [])
  {
    buf := [];
    for i := 0 to |ps|
      invariant PutPeers(ps, []) == buf + PutPeers(ps[i..], [])
    {
      assert ps[i..][0] == ps[i] && ps[i..][1..] == ps[i + 1..];
      PutPeerAppend(ps[i], PutPeers(ps[i + 1..], []));
      Assoc(buf, PutPeer(ps[i], []), PutPeers(ps[i + 1..], []));
      buf := buf + PutPeer(ps[i], []);
    }
  }
}
