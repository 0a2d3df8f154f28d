/**
 The Ethernet parser of the capture tools.  A `Layout` describes the headers of a frame: VLAN tags, an
 IPv4 header with options or an IPv6 header with a chain of extension headers, and a TCP or UDP header.
 The parser accepts exactly the captures that begin with a printed well-formed layout and reports what
 that layout denotes, so shortening or lengthening a capture past its headers changes nothing but the
 captured size.
 */
module Packets {
  import opened Bytes

  datatype Protocol = Tcp | Udp

  /** What the parser reports.  Addresses are kept as their bytes. */
  datatype TransportPacket = TransportPacket(
    source: Bytes, destination: Bytes, sourcePort: nat, destinationPort: nat,
    protocol: Protocol, tcpFlags: nat, payloadBytes: nat, capturedPayloadBytes: nat)

  predicate IsVlan(etherType: nat) {
    etherType == 0x8100 || etherType == 0x88A8 || etherType == 0x9100
  }

  predicate IsExtension(header: nat) {
    || header == 0 || header == 43 || header == 60 || header == 135 || header == 139 || header == 140
    || header == 44 || header == 51
  }

  function ExtensionSize(header: nat, lengthByte: Byte): nat {
    if header == 44 then 8 else if header == 51 then (lengthByte + 2) * 4 else (lengthByte + 1) * 8
  }

  function Min(a: nat, b: nat): nat {
    if a <= b then a else b
  }

  function Less(a: nat, b: nat): nat {
    if a <= b then 0 else a - b
  }

  // ----- Reading: what the parser computes, on the bytes not yet consumed -----

  datatype Ip = Ip(source: Bytes, destination: Bytes, protocol: Byte, rest: Bytes, payload: nat)
  datatype Tagged = Tagged(etherType: nat, rest: Bytes)
  datatype Tail = Tail(header: Byte, rest: Bytes, left: nat)
  datatype Parsed = Parsed(packet: TransportPacket, rest: Bytes)

  /** `b` begins at an ether type. */
  function SkipTags(b: Bytes): Option<Tagged>
    requires |b| >= 2
  {
    if !IsVlan(WordAt(b, 0)) then Some(Tagged(WordAt(b, 0), b[2..]))
    else if |b| < 6 then None
    else SkipTags(b[4..])
  }

  function ReadV4(b: Bytes): Option<Ip> {
    if |b| < 20 || b[0] / 16 != 4 then None
    else
      var header := b[0] % 16 * 4;
      if header < 20 || |b| < header || WordAt(b, 2) < header || WordAt(b, 6) % 0x2000 != 0 then None
      else Some(Ip(b[12..16], b[16..20], b[9], b[header..], WordAt(b, 2) - header))
  }

  /** One extension header can be stepped over. */
  predicate ExtensionFits(header: Byte, b: Bytes, left: nat) {
    && |b| >= 2 && left >= 2
    && (header == 44 ==> |b| >= 8 && WordAt(b, 2) / 8 == 0)
    && 8 <= ExtensionSize(header, b[1]) <= Min(|b|, left)
  }

  function SkipExtensions(header: Byte, b: Bytes, left: nat): Option<Tail>
    decreases left
  {
    if !IsExtension(header) then Some(Tail(header, b, left))
    else if !ExtensionFits(header, b, left) then None
    else
      var size := ExtensionSize(header, b[1]);
      SkipExtensions(b[0], b[size..], left - size)
  }

  function ReadV6(b: Bytes): Option<Ip> {
    if |b| < 40 || b[0] / 16 != 6 then None
    else match SkipExtensions(b[6], b[40..], WordAt(b, 4))
      case None => None
      case Some(t) => Some(Ip(b[8..24], b[24..40], t.header, t.rest, t.left))
  }

  function ReadTcp(ip: Ip): Option<Parsed> {
    var b := ip.rest;
    if |b| < 20 then None
    else
      var header := b[12] / 16 * 4;
      if header < 20 || ip.payload < header || |b| < header then None
      else
        var payload := ip.payload - header;
        Some(Parsed(TransportPacket(ip.source, ip.destination, WordAt(b, 0), WordAt(b, 2), Tcp, b[13],
                                    payload, Min(payload, |b| - header)), b[header..]))
  }

  function ReadUdp(ip: Ip): Option<Parsed> {
    var b := ip.rest;
    if |b| < 8 || WordAt(b, 4) < 8 then None
    else
      var payload := Min(WordAt(b, 4) - 8, Less(ip.payload, 8));
      Some(Parsed(TransportPacket(ip.source, ip.destination, WordAt(b, 0), WordAt(b, 2), Udp, 0,
                                  payload, Min(payload, |b| - 8)), b[8..]))
  }

  function ReadIp(t: Tagged): Option<Ip> {
    if t.etherType == 0x0800 then ReadV4(t.rest)
    else if t.etherType == 0x86DD then ReadV6(t.rest)
    else None
  }

  function ReadSegment(ip: Ip): Option<Parsed> {
    if ip.protocol == 6 then ReadTcp(ip) else if ip.protocol == 17 then ReadUdp(ip) else None
  }

  function Read(b: Bytes): Option<Parsed> {
    if |b| < 14 then None
    else match SkipTags(b[12..])
      case None => None
      case Some(t) =>
        match ReadIp(t)
        case None => None
        case Some(ip) => ReadSegment(ip)
  }

  function ReadPacket(b: Bytes): Option<TransportPacket> {
    match Read(b) case None => None case Some(p) => Some(p.packet)
  }

  // ----- Layouts: the headers a frame may carry, and their bytes before a continuation -----

  datatype Tag = Tag(kind: Word, info: Bytes)

  /** An extension header without its leading next-header byte, which the chain determines. */
  datatype Extension = Extension(kind: Byte, body: Bytes)

  datatype Network =
    | V4(tos: Byte, total: Word, ident: Bytes, flags: Byte, ttl: Byte, checksum: Bytes,
         source: Bytes, destination: Bytes, options: Bytes)
    | V6(traffic: Byte, flow: Bytes, payload: Word, hops: Byte,
         source: Bytes, destination: Bytes, extensions: seq<Extension>)

  datatype Segment =
    | TcpHeader(sourcePort: Word, destinationPort: Word, numbers: Bytes, reserved: Byte, tcpFlags: Byte,
                window: Bytes, options: Bytes)
    | UdpHeader(sourcePort: Word, destinationPort: Word, length: Word, checksum: Bytes)

  datatype Layout = Layout(macs: Bytes, tags: seq<Tag>, network: Network, segment: Segment)

  predicate GoodTags(tags: seq<Tag>) {
    forall i :: 0 <= i < |tags| ==> tags[i].kind in {0x8100, 0x88A8, 0x9100} && |tags[i].info| == 2
  }

  predicate GoodExtension(e: Extension) {
    && e.kind in {0, 43, 44, 51, 60, 135, 139, 140} && |e.body| >= 1
    && (e.kind == 44 ==> |e.body| == 7 && WordAt(e.body, 1) < 8)
    && (e.kind == 51 ==> |e.body| == 7 + 4 * e.body[0] as int)
    && (e.kind != 44 && e.kind != 51 ==> |e.body| == 7 + 8 * e.body[0] as int)
  }

  predicate GoodExtensions(es: seq<Extension>) {
    forall i :: 0 <= i < |es| ==> GoodExtension(es[i])
  }

  /** Header options: whole four-byte words, at most ten of them. */
  predicate GoodOptions(options: Bytes) {
    |options| % 4 == 0 && |options| <= 40
  }

  function ExtensionBytes(es: seq<Extension>): nat {
    if es == [] then 0 else 1 + |es[0].body| + ExtensionBytes(es[1..])
  }

  predicate GoodNetwork(n: Network) {
    match n
    case V4(_, total, ident, flags, _, checksum, source, destination, options) =>
      && |ident| == 2 && flags < 8 && |checksum| == 2 && |source| == 4 && |destination| == 4
      && GoodOptions(options) && total >= 20 + |options|
    case V6(traffic, flow, payload, _, source, destination, extensions) =>
      && traffic < 16 && |flow| == 3 && |source| == 16 && |destination| == 16
      && GoodExtensions(extensions) && ExtensionBytes(extensions) <= payload
  }

  /** The bytes the network header promises to the transport header and its payload. */
  function NetworkPayload(n: Network): nat
    requires GoodNetwork(n)
  {
    if n.V4? then n.total - 20 - |n.options| else n.payload - ExtensionBytes(n.extensions)
  }

  predicate GoodSegment(s: Segment, room: nat) {
    match s
    case TcpHeader(_, _, numbers, reserved, _, window, options) =>
      && |numbers| == 8 && reserved < 16 && |window| == 6 && GoodOptions(options) && 20 + |options| <= room
    case UdpHeader(_, _, length, checksum) => length >= 8 && |checksum| == 2
  }

  predicate Good(l: Layout) {
    && |l.macs| == 12 && GoodTags(l.tags) && GoodNetwork(l.network)
    && GoodSegment(l.segment, NetworkPayload(l.network))
  }

  function ProtocolNumber(s: Segment): Byte {
    if s.TcpHeader? then 6 else 17
  }

  function PrintTags(tags: seq<Tag>, etherType: Word, k: Bytes): (b: Bytes)
    ensures |b| >= 2
  {
    if tags == [] then Be16(etherType) + k
    else Be16(tags[0].kind) + tags[0].info + PrintTags(tags[1..], etherType, k)
  }

  function FirstHeader(es: seq<Extension>, last: Byte): Byte {
    if es == [] then last else es[0].kind
  }

  function PrintExtensions(es: seq<Extension>, last: Byte, k: Bytes): Bytes {
    if es == [] then k
    else [FirstHeader(es[1..], last)] + es[0].body + PrintExtensions(es[1..], last, k)
  }

  function PrintV4(n: Network, protocol: Byte, k: Bytes): Bytes
    requires n.V4? && GoodNetwork(n)
  {
    [0x45 + |n.options| / 4, n.tos] + Be16(n.total) + n.ident + [n.flags * 32, 0, n.ttl, protocol] +
    n.checksum + n.source + n.destination + n.options + k
  }

  function PrintV6(n: Network, protocol: Byte, k: Bytes): Bytes
    requires n.V6? && GoodNetwork(n)
  {
    [0x60 + n.traffic] + n.flow + Be16(n.payload) + [FirstHeader(n.extensions, protocol), n.hops] +
    n.source + n.destination + PrintExtensions(n.extensions, protocol, k)
  }

  function PrintNetwork(n: Network, protocol: Byte, k: Bytes): Bytes
    requires GoodNetwork(n)
  {
    if n.V4? then PrintV4(n, protocol, k) else PrintV6(n, protocol, k)
  }

  function PrintSegment(s: Segment, room: nat, k: Bytes): Bytes
    requires GoodSegment(s, room)
  {
    match s
    case TcpHeader(sp, dp, numbers, reserved, flags, window, options) =>
      Be16(sp) + Be16(dp) + numbers + [(5 + |options| / 4) * 16 + reserved, flags] + window + options + k
    case UdpHeader(sp, dp, length, checksum) => Be16(sp) + Be16(dp) + Be16(length) + checksum + k
  }

  function EtherType(n: Network): Word {
    if n.V4? then 0x0800 else 0x86DD
  }

  function Print(l: Layout, k: Bytes): Bytes
    requires Good(l)
  {
    l.macs + PrintTags(l.tags, EtherType(l.network),
      PrintNetwork(l.network, ProtocolNumber(l.segment), PrintSegment(l.segment, NetworkPayload(l.network), k)))
  }

  function SegmentPayload(s: Segment, room: nat): nat
    requires GoodSegment(s, room)
  {
    if s.TcpHeader? then room - 20 - |s.options| else Min(s.length - 8, Less(room, 8))
  }

  /** What a layout followed by `captured` bytes of capture means. */
  function Denotes(l: Layout, captured: nat): (p: TransportPacket)
    requires Good(l)
  {
    var payload := SegmentPayload(l.segment, NetworkPayload(l.network));
    TransportPacket(l.network.source, l.network.destination, l.segment.sourcePort, l.segment.destinationPort,
                    if l.segment.TcpHeader? then Tcp else Udp,
                    if l.segment.TcpHeader? then l.segment.tcpFlags else 0,
                    payload, Min(payload, captured))
  }

  // ----- Every printed layout is read back -----

  lemma {:induction false} TagsComplete(tags: seq<Tag>, etherType: Word, k: Bytes)
    requires GoodTags(tags) && !IsVlan(etherType)
    ensures SkipTags(PrintTags(tags, etherType, k)) == Some(Tagged(etherType, k))
  {
    var b := PrintTags(tags, etherType, k);
    if tags == [] {
      assert b[2..] == k;
    } else {
      TagsComplete(tags[1..], etherType, k);
      assert WordAt(b, 0) == WordAt(Be16(tags[0].kind), 0);
      assert b[4..] == PrintTags(tags[1..], etherType, k);
    }
  }

  /** The first extension header of a chain can be stepped over, and the rest of the chain follows it. */
  lemma ExtensionComplete(e: Extension, next: Byte, k: Bytes, left: nat)
    requires GoodExtension(e) && 1 + |e.body| <= left
    ensures var b := [next] + e.body + k;
      && ExtensionFits(e.kind, b, left) && ExtensionSize(e.kind, b[1]) == 1 + |e.body|
      && b[0] == next && b[1 + |e.body|..] == k
  {
    var b := [next] + e.body + k;
    assert b[1] == e.body[0];
    if e.kind == 44 {
      assert b[2] == e.body[1] && b[3] == e.body[2];
    }
  }

  lemma {:induction false} ExtensionIsSkipped(e: Extension, next: Byte, k: Bytes, left: nat)
    requires GoodExtension(e) && 1 + |e.body| <= left
    ensures SkipExtensions(e.kind, [next] + e.body + k, left) == SkipExtensions(next, k, left - 1 - |e.body|)
  {
    ExtensionComplete(e, next, k, left);
  }

  /** The first header of a printed chain is stepped over. */
  lemma {:induction false} FirstIsSkipped(es: seq<Extension>, last: Byte, k: Bytes, left: nat)
    requires es != [] && GoodExtension(es[0]) && 1 + |es[0].body| <= left
    ensures SkipExtensions(FirstHeader(es, last), PrintExtensions(es, last, k), left)
         == SkipExtensions(FirstHeader(es[1..], last), PrintExtensions(es[1..], last, k), left - 1 - |es[0].body|)
  {
    ExtensionIsSkipped(es[0], FirstHeader(es[1..], last), PrintExtensions(es[1..], last, k), left);
  }

  lemma {:induction false} ExtensionsComplete(es: seq<Extension>, last: Byte, k: Bytes, left: nat)
    requires GoodExtensions(es) && !IsExtension(last) && ExtensionBytes(es) <= left
    ensures SkipExtensions(FirstHeader(es, last), PrintExtensions(es, last, k), left)
         == Some(Tail(last, k, left - ExtensionBytes(es)))
    decreases |es|
  {
    if es != [] {
      ExtensionsComplete(es[1..], last, k, left - 1 - |es[0].body|);
      FirstIsSkipped(es, last, k, left);
    }
  }

  lemma V4Fields(n: Network, protocol: Byte, k: Bytes)
    requires n.V4? && GoodNetwork(n)
    ensures var b := PrintV4(n, protocol, k);
      && |b| >= 20 + |n.options| && b[0] == 0x45 + |n.options| / 4 && WordAt(b, 2) == n.total
      && b[6] == n.flags * 32 && b[7] == 0 && b[9] == protocol
      && b[12..16] == n.source && b[16..20] == n.destination && b[20 + |n.options|..] == k
  {
    var b := PrintV4(n, protocol, k);
    assert WordAt(b, 2) == WordAt(Be16(n.total), 0);
  }

  lemma V4Complete(n: Network, protocol: Byte, k: Bytes)
    requires n.V4? && GoodNetwork(n)
    ensures ReadV4(PrintV4(n, protocol, k)) == Some(Ip(n.source, n.destination, protocol, k, NetworkPayload(n)))
  {
    var b := PrintV4(n, protocol, k);
    V4Fields(n, protocol, k);
    assert WordAt(b, 6) == n.flags * 0x2000;
    assert b[0] % 16 * 4 == 20 + |n.options|;
  }

  lemma V6Slices(n: Network, protocol: Byte, k: Bytes)
    requires n.V6? && GoodNetwork(n)
    ensures var b := PrintV6(n, protocol, k);
      && |b| >= 40 && b[0] == 0x60 + n.traffic && WordAt(b, 4) == n.payload
      && b[6] == FirstHeader(n.extensions, protocol) && b[8..24] == n.source && b[24..40] == n.destination
      && b[40..] == PrintExtensions(n.extensions, protocol, k)
  {
    var b := PrintV6(n, protocol, k);
    assert WordAt(b, 4) == WordAt(Be16(n.payload), 0);
  }

  lemma V6Complete(n: Network, protocol: Byte, k: Bytes)
    requires n.V6? && GoodNetwork(n) && !IsExtension(protocol)
    ensures ReadV6(PrintV6(n, protocol, k)) == Some(Ip(n.source, n.destination, protocol, k, NetworkPayload(n)))
  {
    var b := PrintV6(n, protocol, k);
    V6Slices(n, protocol, k);
    ExtensionsComplete(n.extensions, protocol, k, n.payload);
  }

  lemma NetworkComplete(n: Network, protocol: Byte, k: Bytes)
    requires GoodNetwork(n) && !IsExtension(protocol)
    ensures ReadIp(Tagged(EtherType(n), PrintNetwork(n, protocol, k)))
         == Some(Ip(n.source, n.destination, protocol, k, NetworkPayload(n)))
  {
    if n.V4? {
      V4Complete(n, protocol, k);
    } else {
      V6Complete(n, protocol, k);
    }
  }

  lemma SegmentComplete(ip: Ip, s: Segment, k: Bytes)
    requires GoodSegment(s, ip.payload) && ip.protocol == ProtocolNumber(s)
    requires ip.rest == PrintSegment(s, ip.payload, k)
    ensures ReadSegment(ip).Some? && ReadSegment(ip).value.rest == k
    ensures ReadSegment(ip).value.packet == TransportPacket(ip.source, ip.destination, s.sourcePort,
      s.destinationPort, if s.TcpHeader? then Tcp else Udp, if s.TcpHeader? then s.tcpFlags else 0,
      SegmentPayload(s, ip.payload), Min(SegmentPayload(s, ip.payload), |k|))
  {
    var b := ip.rest;
    assert WordAt(b, 0) == WordAt(Be16(s.sourcePort), 0);
    assert WordAt(b, 2) == WordAt(Be16(s.destinationPort), 0);
    if s.TcpHeader? {
      assert b[12] / 16 == 5 + |s.options| / 4 && b[13] == s.tcpFlags;
      assert b[20 + |s.options|..] == k;
    } else {
      assert WordAt(b, 4) == WordAt(Be16(s.length), 0);
      assert b[8..] == k;
    }
  }

  lemma PrintedIsRead(l: Layout, k: Bytes)
    requires Good(l)
    ensures Read(Print(l, k)) == Some(Parsed(Denotes(l, |k|), k))
  {
    var protocol, room := ProtocolNumber(l.segment), NetworkPayload(l.network);
    var segment := PrintSegment(l.segment, room, k);
    var network := PrintNetwork(l.network, protocol, segment);
    assert Print(l, k)[12..] == PrintTags(l.tags, EtherType(l.network), network);
    TagsComplete(l.tags, EtherType(l.network), network);
    NetworkComplete(l.network, protocol, segment);
    SegmentComplete(Ip(l.network.source, l.network.destination, protocol, segment, room), l.segment, k);
  }

  // ----- Everything read is a printed layout -----

  lemma {:induction false} TagsSound(b: Bytes, t: Tagged) returns (tags: seq<Tag>)
    requires |b| >= 2 && SkipTags(b) == Some(t)
    ensures GoodTags(tags) && t.etherType < 0x1_0000 && b == PrintTags(tags, t.etherType, t.rest)
    decreases |b|
  {
    if IsVlan(WordAt(b, 0)) {
      var tail := TagsSound(b[4..], t);
      tags := [Tag(WordAt(b, 0), b[2..4])] + tail;
      assert tags[1..] == tail;
      assert b == Be16(WordAt(b, 0)) + b[2..4] + b[4..];
    } else {
      tags := [];
      assert b == Be16(WordAt(b, 0)) + b[2..];
    }
  }

  lemma ExtensionSound(header: Byte, b: Bytes, left: nat) returns (e: Extension)
    requires IsExtension(header) && ExtensionFits(header, b, left)
    ensures GoodExtension(e) && e.kind == header && 1 + |e.body| == ExtensionSize(header, b[1])
    ensures b == [b[0]] + e.body + b[ExtensionSize(header, b[1])..]
  {
    e := Extension(header, b[1..ExtensionSize(header, b[1])]);
    if header == 44 {
      assert WordAt(e.body, 1) == WordAt(b, 2);
    }
  }

  lemma {:induction false} ExtensionsSound(header: Byte, b: Bytes, left: nat, t: Tail)
    returns (es: seq<Extension>)
    requires SkipExtensions(header, b, left) == Some(t)
    ensures GoodExtensions(es) && !IsExtension(t.header) && header == FirstHeader(es, t.header)
    ensures ExtensionBytes(es) <= left && t.left == left - ExtensionBytes(es)
    ensures b == PrintExtensions(es, t.header, t.rest)
    decreases left
  {
    es := [];
    if IsExtension(header) {
      var size := ExtensionSize(header, b[1]);
      var tail := ExtensionsSound(b[0], b[size..], left - size, t);
      var e := ExtensionSound(header, b, left);
      es := [e] + tail;
      ChainGrows(e, tail, t.header, t.rest);
    }
  }

  lemma ChainGrows(e: Extension, tail: seq<Extension>, last: Byte, k: Bytes)
    requires GoodExtension(e) && GoodExtensions(tail)
    ensures var es := [e] + tail;
      && GoodExtensions(es) && FirstHeader(es, last) == e.kind
      && ExtensionBytes(es) == 1 + |e.body| + ExtensionBytes(tail)
      && PrintExtensions(es, last, k) == [FirstHeader(tail, last)] + e.body + PrintExtensions(tail, last, k)
  {
    assert ([e] + tail)[1..] == tail;
  }

  lemma V4Slices(b: Bytes, header: nat)
    requires 20 <= header <= |b|
    ensures b == [b[0], b[1]] + Be16(WordAt(b, 2)) + b[4..6] + [b[6], b[7], b[8], b[9]] + b[10..12] +
                 b[12..16] + b[16..20] + b[20..header] + b[header..]
  {
    assert b == b[..12] + b[12..16] + b[16..20] + b[20..header] + b[header..];
    assert b[..12] == [b[0], b[1]] + Be16(WordAt(b, 2)) + b[4..6] + [b[6], b[7], b[8], b[9]] + b[10..12];
  }

  lemma V4Sound(b: Bytes, ip: Ip) returns (n: Network)
    requires ReadV4(b) == Some(ip)
    ensures n.V4? && GoodNetwork(n) && b == PrintV4(n, ip.protocol, ip.rest)
    ensures n.source == ip.source && n.destination == ip.destination && NetworkPayload(n) == ip.payload
  {
    var header := b[0] % 16 * 4;
    n := V4(b[1], WordAt(b, 2), b[4..6], b[6] / 32, b[8], b[10..12], b[12..16], b[16..20], b[20..header]);
    assert b[6] == n.flags * 32 && b[7] == 0;
    V4Slices(b, header);
  }

  lemma V6Sound(b: Bytes, ip: Ip) returns (n: Network)
    requires ReadV6(b) == Some(ip)
    ensures n.V6? && GoodNetwork(n) && b == PrintV6(n, ip.protocol, ip.rest)
    ensures n.source == ip.source && n.destination == ip.destination && NetworkPayload(n) == ip.payload
  {
    var t := SkipExtensions(b[6], b[40..], WordAt(b, 4)).value;
    var es := ExtensionsSound(b[6], b[40..], WordAt(b, 4), t);
    n := V6(b[0] % 16, b[1..4], WordAt(b, 4), b[7], b[8..24], b[24..40], es);
    assert b == [b[0]] + b[1..4] + Be16(WordAt(b, 4)) + [b[6], b[7]] + b[8..24] + b[24..40] + b[40..];
  }

  lemma SegmentSound(ip: Ip, p: Parsed) returns (s: Segment)
    requires ReadSegment(ip) == Some(p)
    ensures GoodSegment(s, ip.payload) && ip.protocol == ProtocolNumber(s)
    ensures ip.rest == PrintSegment(s, ip.payload, p.rest)
  {
    var b := ip.rest;
    if ip.protocol == 6 {
      var header := b[12] / 16 * 4;
      s := TcpHeader(WordAt(b, 0), WordAt(b, 2), b[4..12], b[12] % 16, b[13], b[14..20], b[20..header]);
      assert b == Be16(WordAt(b, 0)) + Be16(WordAt(b, 2)) + b[4..12] + [b[12], b[13]] + b[14..20] +
                  b[20..header] + b[header..];
    } else {
      s := UdpHeader(WordAt(b, 0), WordAt(b, 2), WordAt(b, 4), b[6..8]);
      assert b == Be16(WordAt(b, 0)) + Be16(WordAt(b, 2)) + Be16(WordAt(b, 4)) + b[6..8] + b[8..];
    }
  }

  lemma ReadIsPrinted(b: Bytes, p: Parsed) returns (l: Layout)
    requires Read(b) == Some(p)
    ensures Good(l) && b == Print(l, p.rest) && p.packet == Denotes(l, |p.rest|)
  {
    var t := SkipTags(b[12..]).value;
    var tags := TagsSound(b[12..], t);
    var ip := ReadIp(t).value;
    var n: Network;
    if t.etherType == 0x0800 {
      n := V4Sound(t.rest, ip);
    } else {
      n := V6Sound(t.rest, ip);
    }
    var s := SegmentSound(ip, p);
    l := Layout(b[..12], tags, n, s);
    assert b == b[..12] + b[12..];
    PrintedIsRead(l, p.rest);
  }

  // ----- What truncation does -----

  lemma {:induction false} TagsThenMore(tags: seq<Tag>, etherType: Word, k: Bytes, more: Bytes)
    ensures PrintTags(tags, etherType, k + more) == PrintTags(tags, etherType, k) + more
  {
    if tags != [] {
      TagsThenMore(tags[1..], etherType, k, more);
    }
  }

  lemma {:induction false} ExtensionsThenMore(es: seq<Extension>, last: Byte, k: Bytes, more: Bytes)
    ensures PrintExtensions(es, last, k + more) == PrintExtensions(es, last, k) + more
  {
    if es != [] {
      ExtensionsThenMore(es[1..], last, k, more);
    }
  }

  lemma NetworkThenMore(n: Network, protocol: Byte, k: Bytes, more: Bytes)
    requires GoodNetwork(n)
    ensures PrintNetwork(n, protocol, k + more) == PrintNetwork(n, protocol, k) + more
  {
    if n.V6? {
      ExtensionsThenMore(n.extensions, protocol, k, more);
    }
  }

  lemma PrintThenMore(l: Layout, k: Bytes, more: Bytes)
    requires Good(l)
    ensures Print(l, k + more) == Print(l, k) + more
  {
    var protocol, room := ProtocolNumber(l.segment), NetworkPayload(l.network);
    var segment := PrintSegment(l.segment, room, k);
    assert PrintSegment(l.segment, room, k + more) == segment + more;
    NetworkThenMore(l.network, protocol, segment, more);
    TagsThenMore(l.tags, EtherType(l.network), PrintNetwork(l.network, protocol, segment), more);
  }

  /** The parser accepts exactly the captures that begin with a well-formed layout. */
  lemma AcceptedIffLayout(b: Bytes)
    ensures ReadPacket(b).Some? <==> exists l: Layout, k: Bytes :: Good(l) && b == Print(l, k)
    ensures forall l: Layout, k: Bytes :: Good(l) && b == Print(l, k) ==> ReadPacket(b) == Some(Denotes(l, |k|))
  {
    forall l: Layout, k: Bytes | Good(l) && b == Print(l, k)
      ensures ReadPacket(b) == Some(Denotes(l, |k|))
    {
      PrintedIsRead(l, k);
    }
    if Read(b).Some? {
      var l := ReadIsPrinted(b, Read(b).value);
      assert Good(l) && b == Print(l, Read(b).value.rest);
    }
  }

  /** A longer capture of an accepted packet reports the same packet, with at least as much captured. */
  lemma LongerCaptureAgrees(b: Bytes, more: Bytes)
    requires ReadPacket(b).Some?
    ensures ReadPacket(b + more).Some?
    ensures var (p, q) := (ReadPacket(b).value, ReadPacket(b + more).value);
      && q == p.(capturedPayloadBytes := q.capturedPayloadBytes)
      && p.capturedPayloadBytes <= q.capturedPayloadBytes <= q.payloadBytes
  {
    var p := Read(b).value;
    var l := ReadIsPrinted(b, p);
    PrintThenMore(l, p.rest, more);
    PrintedIsRead(l, p.rest + more);
  }

  function HeaderBytes(l: Layout): nat
    requires Good(l)
  {
    |Print(l, [])|
  }

  lemma HeadersThenPayload(l: Layout, k: Bytes)
    requires Good(l)
    ensures |Print(l, k)| == HeaderBytes(l) + |k|
  {
    PrintThenMore(l, [], k);
    assert [] + k == k;
  }

  lemma KeptHeadersAreRead(l: Layout, k: Bytes, n: nat)
    requires Good(l) && HeaderBytes(l) <= n <= HeaderBytes(l) + |k| == |Print(l, k)|
    ensures ReadPacket(Print(l, k)[..n]) == Some(Denotes(l, n - HeaderBytes(l)))
  {
    var kept, dropped := k[..n - HeaderBytes(l)], k[n - HeaderBytes(l)..];
    assert k == kept + dropped;
    PrintThenMore(l, kept, dropped);
    HeadersThenPayload(l, kept);
    PrintedIsRead(l, kept);
  }

  lemma ReadPrefixKeepsHeaders(l: Layout, k: Bytes, head: Bytes, tail: Bytes)
    requires Good(l) && head + tail == Print(l, k) && Read(head).Some?
    ensures HeaderBytes(l) <= |head|
  {
    var p := Read(head).value;
    var short := ReadIsPrinted(head, p);
    PrintThenMore(short, p.rest, tail);
    PrintedIsRead(short, p.rest + tail);
    PrintedIsRead(l, k);
    HeadersThenPayload(l, k);
  }

  lemma CutHeadersAreRefused(l: Layout, k: Bytes, head: Bytes, tail: Bytes)
    requires Good(l) && head + tail == Print(l, k) && |head| < HeaderBytes(l)
    ensures ReadPacket(head) == None
  {
    if Read(head).Some? {
      ReadPrefixKeepsHeaders(l, k, head, tail);
    }
  }

  lemma CutAnywhere(b: Bytes, n: nat)
    requires n <= |b|
    ensures b[..n] + b[n..] == b
  {
  }

  /** Cutting a capture short keeps it readable exactly when all its headers survive the cut. */
  lemma TruncatedIsReadIff(l: Layout, k: Bytes, n: nat)
    requires Good(l) && n <= |Print(l, k)|
    ensures ReadPacket(Print(l, k)[..n]).Some? <==> HeaderBytes(l) <= n
    ensures HeaderBytes(l) <= n ==> ReadPacket(Print(l, k)[..n]) == Some(Denotes(l, n - HeaderBytes(l)))
  {
    var b := Print(l, k);
    if HeaderBytes(l) <= n {
      HeadersThenPayload(l, k);
      KeptHeadersAreRead(l, k, n);
    } else {
      CutAnywhere(b, n);
      CutHeadersAreRefused(l, k, b[..n], b[n..]);
    }
  }

  // ----- The parser's own loops -----

  method ParseV4(packet: Bytes, offset: nat) returns (r: Option<(Bytes, Bytes, Byte, nat, nat)>)
    requires offset <= |packet|
    ensures r.Some? <==> ReadV4(packet[offset..]).Some?
    ensures r.Some? ==> var (source, destination, protocol, at, payload) := r.value;
      && offset <= at <= |packet|
      && ReadV4(packet[offset..]) == Some(Ip(source, destination, protocol, packet[at..], payload))
  {
    ghost var b := packet[offset..];
    if |packet| < offset + 20 { return None; }
    var versionIhl := packet[offset];
    assert versionIhl == b[0];
    if versionIhl / 16 != 4 { return None; }
    var headerBytes := versionIhl % 16 * 4;
    if headerBytes < 20 || |packet| < offset + headerBytes { return None; }
    var totalBytes := WordAt(packet, offset + 2);
    assert totalBytes == WordAt(b, 2);
    if totalBytes < headerBytes { return None; }
    var fragment := WordAt(packet, offset + 6);
    assert fragment == WordAt(b, 6);
    if fragment % 0x2000 != 0 { return None; }
    assert packet[offset + headerBytes..] == b[headerBytes..];
    assert packet[offset + 12..offset + 16] == b[12..16];
    assert packet[offset + 16..offset + 20] == b[16..20];
    return Some((packet[offset + 12..offset + 16], packet[offset + 16..offset + 20], packet[offset + 9],
                 offset + headerBytes, totalBytes - headerBytes));
  }

  /** `ExtensionFits` at an offset of the whole packet. */
  predicate FitsAt(packet: Bytes, at: nat, header: Byte, left: nat) {
    && at + 2 <= |packet| && left >= 2
    && (header == 44 ==> at + 8 <= |packet| && WordAt(packet, at + 2) / 8 == 0)
    && 8 <= ExtensionSize(header, packet[at + 1]) <= Min(|packet| - at, left)
  }

  lemma FitsAtIff(packet: Bytes, at: nat, header: Byte, left: nat)
    requires at <= |packet|
    ensures ExtensionFits(header, packet[at..], left) <==> FitsAt(packet, at, header, left)
  {
    var b := packet[at..];
    if at + 2 <= |packet| {
      assert b[1] == packet[at + 1];
    }
    if at + 8 <= |packet| {
      assert WordAt(b, 2) == WordAt(packet, at + 2);
    }
  }

  lemma ExtensionStep(packet: Bytes, at: nat, header: Byte, left: nat)
    requires at <= |packet| && IsExtension(header)
    ensures !FitsAt(packet, at, header, left) ==> SkipExtensions(header, packet[at..], left) == None
    ensures FitsAt(packet, at, header, left) ==>
      var size := ExtensionSize(header, packet[at + 1]);
      SkipExtensions(header, packet[at..], left) == SkipExtensions(packet[at], packet[at + size..], left - size)
  {
    var b := packet[at..];
    FitsAtIff(packet, at, header, left);
    if FitsAt(packet, at, header, left) {
      var size := ExtensionSize(header, packet[at + 1]);
      assert b[size..] == packet[at + size..];
    }
  }

  /** The length of the extension header at `at`, unless it does not fit or is a later fragment. */
  method ExtensionLength(packet: Bytes, at: nat, header: Byte, consumed: nat, payloadBytes: nat)
    returns (r: Option<nat>)
    requires at <= |packet| && consumed <= payloadBytes
    ensures r.Some? <==> FitsAt(packet, at, header, payloadBytes - consumed)
    ensures r.Some? ==> r.value == ExtensionSize(header, packet[at + 1])
  {
    if at + 2 > |packet| || consumed + 2 > payloadBytes { return None; }
    var lengthByte: nat := packet[at + 1];
    var extensionBytes;
    if header == 44 {
      extensionBytes := 8;
      if at + extensionBytes > |packet| { return None; }
      var fragment := WordAt(packet, at + 2);
      if fragment / 8 != 0 { return None; }
    } else if header == 51 {
      extensionBytes := (lengthByte + 2) * 4;
    } else {
      extensionBytes := (lengthByte + 1) * 8;
    }
    if extensionBytes < 8 || at + extensionBytes > |packet| || consumed + extensionBytes > payloadBytes {
      return None;
    }
    return Some(extensionBytes);
  }

  /** Skipping from `start` comes to skipping from `at`. */
  ghost predicate Walked(packet: Bytes, start: nat, first: Byte, payload: nat, at: nat, header: Byte, left: nat) {
    && start <= at <= |packet|
    && SkipExtensions(first, packet[start..], payload) == SkipExtensions(header, packet[at..], left)
  }

  lemma WalkNext(packet: Bytes, start: nat, first: Byte, payload: nat, at: nat, header: Byte, left: nat, size: nat)
    requires Walked(packet, start, first, payload, at, header, left) && IsExtension(header)
    requires FitsAt(packet, at, header, left) && size == ExtensionSize(header, packet[at + 1])
    ensures Walked(packet, start, first, payload, at + size, packet[at], left - size)
  {
    ExtensionStep(packet, at, header, left);
  }

  /** The extension loop: both cursors advance by at least eight bytes each time round. */
  method WalkExtensions(packet: Bytes, start: nat, first: Byte, payloadBytes: nat)
    returns (r: Option<(Byte, nat, nat)>)
    requires start <= |packet|
    ensures r.Some? <==> SkipExtensions(first, packet[start..], payloadBytes).Some?
    ensures r.Some? ==> var (header, at, left) := r.value;
      && start <= at <= |packet|
      && SkipExtensions(first, packet[start..], payloadBytes) == Some(Tail(header, packet[at..], left))
  {
    var nextHeader, at, consumed := first, start, 0;
    ghost var left: nat := payloadBytes;
    while IsExtension(nextHeader)
      invariant start <= at <= |packet| && left == payloadBytes - consumed
      invariant Walked(packet, start, first, payloadBytes, at, nextHeader, left)
      decreases left
    {
      var extensionBytes := ExtensionLength(packet, at, nextHeader, consumed, payloadBytes);
      if extensionBytes == None {
        ExtensionStep(packet, at, nextHeader, left);
        return None;
      }
      WalkNext(packet, start, first, payloadBytes, at, nextHeader, left, extensionBytes.value);
      nextHeader := packet[at];
      at := at + extensionBytes.value;
      consumed := consumed + extensionBytes.value;
      left := left - extensionBytes.value;
    }
    return Some((nextHeader, at, payloadBytes - consumed));
  }

  method ParseV6(packet: Bytes, offset: nat) returns (r: Option<(Bytes, Bytes, Byte, nat, nat)>)
    requires offset <= |packet|
    ensures r.Some? <==> ReadV6(packet[offset..]).Some?
    ensures r.Some? ==> var (source, destination, protocol, at, payload) := r.value;
      && offset <= at <= |packet|
      && ReadV6(packet[offset..]) == Some(Ip(source, destination, protocol, packet[at..], payload))
  {
    ghost var b := packet[offset..];
    if |packet| < offset + 40 || packet[offset] / 16 != 6 { return None; }
    assert packet[offset] == b[0] && packet[offset + 6] == b[6];
    assert WordAt(packet, offset + 4) == WordAt(b, 4);
    assert packet[offset + 40..] == b[40..];
    assert packet[offset + 8..offset + 24] == b[8..24];
    assert packet[offset + 24..offset + 40] == b[24..40];
    var walked := WalkExtensions(packet, offset + 40, packet[offset + 6], WordAt(packet, offset + 4));
    match walked
    case None => return None;
    case Some(t) =>
      return Some((packet[offset + 8..offset + 24], packet[offset + 24..offset + 40], t.0, t.1, t.2));
  }

  method ParseSegment(packet: Bytes, ip: (Bytes, Bytes, Byte, nat, nat)) returns (r: Option<TransportPacket>)
    requires ip.3 <= |packet|
    ensures r == match ReadSegment(Ip(ip.0, ip.1, ip.2, packet[ip.3..], ip.4))
                 case None => None
                 case Some(p) => Some(p.packet)
  {
    var (source, destination, protocol, at, ipPayload) := ip;
    ghost var b := packet[at..];
    if protocol != 6 && protocol != 17 { return None; }
    if |packet| < at + (if protocol == 6 then 20 else 8) { return None; }
    var sourcePort, destinationPort := WordAt(packet, at), WordAt(packet, at + 2);
    assert sourcePort == WordAt(b, 0) && destinationPort == WordAt(b, 2);
    if protocol == 6 {
      var headerBytes := packet[at + 12] / 16 * 4;
      assert packet[at + 12] == b[12] && packet[at + 13] == b[13];
      if headerBytes < 20 || ipPayload < headerBytes { return None; }
      if |packet| < at + headerBytes { return None; }
      var payload := ipPayload - headerBytes;
      return Some(TransportPacket(source, destination, sourcePort, destinationPort, Tcp, packet[at + 13],
                                  payload, Min(payload, Less(|packet|, at + headerBytes))));
    } else {
      var udpLength := WordAt(packet, at + 4);
      assert udpLength == WordAt(b, 4);
      if udpLength < 8 { return None; }
      var payload := Min(Less(udpLength, 8), Less(ipPayload, 8));
      return Some(TransportPacket(source, destination, sourcePort, destinationPort, Udp, 0,
                                  payload, Min(payload, Less(|packet|, at + 8))));
    }
  }

  method EthernetTransport(packet: Bytes) returns (r: Option<TransportPacket>)
    ensures r == ReadPacket(packet)
  {
    if |packet| < 14 { return None; }
    var etherType: nat, offset := WordAt(packet, 12), 14;
    assert packet[12..][2..] == packet[14..];
    while IsVlan(etherType)
      invariant 14 <= offset <= |packet| && etherType == WordAt(packet, offset - 2)
      invariant SkipTags(packet[12..]) == SkipTags(packet[offset - 2..])
      decreases |packet| - offset
    {
      if |packet| < offset + 4 { return None; }
      etherType := WordAt(packet, offset + 2);
      assert packet[offset - 2..][4..] == packet[offset + 2..];
      offset := offset + 4;
    }
    assert packet[offset - 2..][2..] == packet[offset..];
    var parsed;
    if etherType == 0x0800 {
      parsed := ParseV4(packet, offset);
    } else if etherType == 0x86DD {
      parsed := ParseV6(packet, offset);
    } else {
      return None;
    }
    match parsed
    case None => return None;
    case Some(ip) => r := ParseSegment(packet, ip);
  }
}
