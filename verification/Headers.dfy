/**
 Finding the TCP header of an outgoing packet (`parse_ipv4` and the first half of `path_egress`)
 against the header formats of section 3.1 of RFC 791 and section 3.1 of RFC 9293.
 */
module Headers {
  import opened Wrappers
  import opened Bytes

  /** The linear part of a packet, and whether the kernel marks it as IPv4. */
  datatype Skb = Skb(data: seq<Byte>, ipv4: bool, ifindex: nat)

  const ETH_LEN := 14
  const IP_MIN := 20
  const TCP_MIN := 20
  const TCP_PROTO: nat := 6

  /** What the program reads out of the headers; numbers as the wire means them. */
  datatype Segment = Segment(saddr: nat, daddr: nat, sport: nat, dport: nat, seqNo: nat,
                             fin: bool, syn: bool, rst: bool, ack: bool, payload: nat)

  datatype Parsed = NotIPv4 | NotTcp | TcpShort | Tcp(seg: Segment)

  /** `parse_ipv4`: where the IPv4 header starts. An Ethernet header is looked for first. */
  function FindIPv4(skb: Skb): Option<nat> {
    var d := skb.data;
    if |d| >= ETH_LEN && d[12] == 0x08 && d[13] == 0x00 then
      if ETH_LEN + IP_MIN <= |d| then Some(ETH_LEN) else None
    else if skb.ipv4 then
      if IP_MIN <= |d| then Some(0) else None
    else None
  }

  function Word16(d: seq<Byte>, i: nat): nat
    requires i + 2 <= |d|
  {
    Join2(d[i], d[i + 1])
  }

  function Word32(d: seq<Byte>, i: nat): nat
    requires i + 4 <= |d|
  {
    Join4(d[i], d[i + 1], d[i + 2], d[i + 3])
  }

  predicate Flag(b: Byte, weight: nat)
    requires weight > 0
  {
    b / weight % 2 == 1
  }

  /** The fields of a TCP header at t inside an IPv4 packet at ip. */
  function ReadSegment(d: seq<Byte>, ip: nat, t: nat, payload: nat): Segment
    requires ip + IP_MIN <= |d| && t + TCP_MIN <= |d|
  {
    Segment(Word32(d, ip + 12), Word32(d, ip + 16), Word16(d, t), Word16(d, t + 2), Word32(d, t + 4),
            Flag(d[t + 13], 1), Flag(d[t + 13], 2), Flag(d[t + 13], 4), Flag(d[t + 13], 16), payload)
  }

  /** Everything up to the payload length; each read lies inside the linear data. */
  function Parse(skb: Skb): Parsed {
    match FindIPv4(skb)
    case None => NotIPv4
    case Some(ip) =>
      var d := skb.data;
      if d[ip + 9] != TCP_PROTO then NotTcp else
      var ipLen := d[ip] % 16 * 4;
      var t := ip + ipLen;
      if t + TCP_MIN > |d| then TcpShort else
      var tcpLen := d[t + 12] / 16 * 4;
      if tcpLen < TCP_MIN then TcpShort else
      var total := Word16(d, ip + 2);
      if total < ipLen + tcpLen then TcpShort else
      Tcp(ReadSegment(d, ip, t, total - ipLen - tcpLen))
  }

  // ---- the formats ----

  /** An IPv4 header, RFC 791 section 3.1; `middle` is identification, flags and fragment offset. */
  datatype IpHeader = IpHeader(tos: Byte, total: nat, middle: seq<Byte>, ttl: Byte, proto: Byte, sum: seq<Byte>,
                               saddr: nat, daddr: nat, options: seq<Byte>)

  /** A TCP header, RFC 9293 section 3.1, up to its options; `flags` is the control byte. */
  datatype TcpHeader = TcpHeader(sport: nat, dport: nat, seqNo: nat, ackNo: nat, words: nat, reserved: nat,
                                 flags: Byte, rest: seq<Byte>)

  predicate IpOk(h: IpHeader) {
    && h.total < 0x10000 && |h.middle| == 4 && |h.sum| == 2 && h.saddr < 0x1_0000_0000 && h.daddr < 0x1_0000_0000
    && |h.options| % 4 == 0 && |h.options| <= 40
  }

  predicate TcpOk(h: TcpHeader) {
    && h.sport < 0x10000 && h.dport < 0x10000 && h.seqNo < 0x1_0000_0000 && h.ackNo < 0x1_0000_0000
    && 5 <= h.words <= 15 && h.reserved < 16 && |h.rest| == 6
  }

  function IpBytes(h: IpHeader): (b: seq<Byte>)
    requires IpOk(h)
    ensures |b| == IP_MIN + |h.options|
  {
    [0x40 + 5 + |h.options| / 4, h.tos] + Split2(h.total) + h.middle + [h.ttl, h.proto] + h.sum +
    Split4(h.saddr) + Split4(h.daddr) + h.options
  }

  function TcpBytes(h: TcpHeader): (b: seq<Byte>)
    requires TcpOk(h)
    ensures |b| == TCP_MIN
  {
    Split2(h.sport) + Split2(h.dport) + Split4(h.seqNo) + Split4(h.ackNo) + [h.words * 16 + h.reserved, h.flags] + h.rest
  }

  /** What the headers say, with the payload length that the total length implies. */
  function Meaning(i: IpHeader, t: TcpHeader, payload: nat): Segment {
    Segment(i.saddr, i.daddr, t.sport, t.dport, t.seqNo,
            Flag(t.flags, 1), Flag(t.flags, 2), Flag(t.flags, 4), Flag(t.flags, 16), payload)
  }

  lemma IpLength(options: nat)
    requires options % 4 == 0 && options <= 40
    ensures (0x40 + 5 + options / 4) % 16 * 4 == 20 + options
  {}

  lemma IpAddresses(h: IpHeader)
    requires IpOk(h)
    ensures Word32(IpBytes(h), 12) == h.saddr && Word32(IpBytes(h), 16) == h.daddr
  {
    var b := IpBytes(h);
    var s, d := Split4(h.saddr), Split4(h.daddr);
    assert b[12] == s[0] && b[13] == s[1] && b[14] == s[2] && b[15] == s[3];
    assert b[16] == d[0] && b[17] == d[1] && b[18] == d[2] && b[19] == d[3];
  }

  lemma IpFields(h: IpHeader)
    requires IpOk(h)
    ensures var b := IpBytes(h); b[0] % 16 * 4 == |b| && b[9] == h.proto && Word16(b, 2) == h.total
  {
    var b := IpBytes(h);
    IpLength(|h.options|);
    assert b[0] == 0x40 + 5 + |h.options| / 4;
    assert b[2] == Split2(h.total)[0] && b[3] == Split2(h.total)[1];
  }

  lemma TcpFields(h: TcpHeader)
    requires TcpOk(h)
    ensures var b := TcpBytes(h);
            && b[12] / 16 == h.words && b[13] == h.flags
            && Word16(b, 0) == h.sport && Word16(b, 2) == h.dport && Word32(b, 4) == h.seqNo
  {
    var b := TcpBytes(h);
    assert b[0] == Split2(h.sport)[0] && b[1] == Split2(h.sport)[1];
    assert b[2] == Split2(h.dport)[0] && b[3] == Split2(h.dport)[1];
    assert forall k :: 0 <= k < 4 ==> b[4 + k] == Split4(h.seqNo)[k];
    assert b[4 + 0] == Split4(h.seqNo)[0];
  }

  /** The bytes b lie in d from position at. */
  ghost predicate LiesAt(d: seq<Byte>, at: nat, b: seq<Byte>) {
    at + |b| <= |d| && d[at..at + |b|] == b
  }

  /** What the program reads of an IPv4 header at ip. */
  ghost predicate ReadsIp(d: seq<Byte>, ip: nat, h: IpHeader) {
    && ip + IP_MIN <= |d| && d[ip] % 16 * 4 == IP_MIN + |h.options| && d[ip + 9] == h.proto
    && Word16(d, ip + 2) == h.total && Word32(d, ip + 12) == h.saddr && Word32(d, ip + 16) == h.daddr
  }

  /** What it reads of a TCP header at t. */
  ghost predicate ReadsTcp(d: seq<Byte>, t: nat, h: TcpHeader) {
    && t + TCP_MIN <= |d| && d[t + 12] / 16 == h.words && d[t + 13] == h.flags
    && Word16(d, t) == h.sport && Word16(d, t + 2) == h.dport && Word32(d, t + 4) == h.seqNo
  }

  lemma IpRead(d: seq<Byte>, ip: nat, h: IpHeader)
    requires IpOk(h) && LiesAt(d, ip, IpBytes(h))
    ensures ReadsIp(d, ip, h)
  {
    IpFields(h);
    IpAddresses(h);
    var b := IpBytes(h);
    assert d[ip] == b[0] && d[ip + 9] == b[9];
    assert d[ip + 2] == b[2] && d[ip + 3] == b[3];
    assert d[ip + 12] == b[12] && d[ip + 13] == b[13] && d[ip + 14] == b[14] && d[ip + 15] == b[15];
    assert d[ip + 16] == b[16] && d[ip + 17] == b[17] && d[ip + 18] == b[18] && d[ip + 19] == b[19];
  }

  lemma TcpRead(d: seq<Byte>, t: nat, h: TcpHeader)
    requires TcpOk(h) && LiesAt(d, t, TcpBytes(h))
    ensures ReadsTcp(d, t, h)
  {
    TcpFields(h);
    var b := TcpBytes(h);
    assert d[t] == b[0] && d[t + 1] == b[1] && d[t + 2] == b[2] && d[t + 3] == b[3];
    assert d[t + 4] == b[4] && d[t + 5] == b[5] && d[t + 6] == b[6] && d[t + 7] == b[7];
    assert d[t + 12] == b[12] && d[t + 13] == b[13];
  }

  lemma Placed(link: seq<Byte>, a: seq<Byte>, b: seq<Byte>, tail: seq<Byte>)
    ensures LiesAt(link + a + b + tail, |link|, a)
    ensures LiesAt(link + a + b + tail, |link| + |a|, b)
  {}

  /**
   Once the IPv4 header is found where it is, every field comes out as it went in, and no
   subtraction underflows.
   */
  lemma ParseAt(skb: Skb, ip: nat, i: IpHeader, t: TcpHeader, payload: nat)
    requires FindIPv4(skb) == Some(ip) && i.proto == TCP_PROTO && t.words >= 5
    requires i.total == IP_MIN + |i.options| + t.words * 4 + payload
    requires ReadsIp(skb.data, ip, i) && ReadsTcp(skb.data, ip + IP_MIN + |i.options|, t)
    ensures Parse(skb) == Tcp(Meaning(i, t, payload))
  {
    var d, at := skb.data, ip + IP_MIN + |i.options|;
    assert at == ip + d[ip] % 16 * 4;
    assert d[at + 12] / 16 * 4 == t.words * 4;
    assert ReadSegment(d, ip, at, payload) == Meaning(i, t, payload);
  }

  /** Both headers are read wherever they follow each other, whatever comes before and after. */
  lemma ReadsBoth(link: seq<Byte>, i: IpHeader, t: TcpHeader, tail: seq<Byte>)
    requires IpOk(i) && TcpOk(t)
    ensures var d := link + IpBytes(i) + TcpBytes(t) + tail;
            ReadsIp(d, |link|, i) && ReadsTcp(d, |link| + IP_MIN + |i.options|, t)
  {
    Placed(link, IpBytes(i), TcpBytes(t), tail);
    IpRead(link + IpBytes(i) + TcpBytes(t) + tail, |link|, i);
    TcpRead(link + IpBytes(i) + TcpBytes(t) + tail, |link| + |IpBytes(i)|, t);
  }

  /** Header extraction behind an Ethernet header with the IPv4 type. */
  lemma EthernetParses(skb: Skb, macs: seq<Byte>, i: IpHeader, t: TcpHeader, tail: seq<Byte>, payload: nat)
    requires IpOk(i) && TcpOk(t) && i.proto == TCP_PROTO && |macs| == 12
    requires i.total == IP_MIN + |i.options| + t.words * 4 + payload
    requires skb.data == macs + [0x08, 0x00] + IpBytes(i) + TcpBytes(t) + tail
    ensures Parse(skb) == Tcp(Meaning(i, t, payload))
  {
    ReadsBoth(macs + [0x08, 0x00], i, t, tail);
    ParseAt(skb, ETH_LEN, i, t, payload);
  }

  /** The address block whose first two bytes read as the Ethernet type of IPv4. */
  predicate LooksLikeEthernet(saddr: nat) {
    saddr / 0x10000 == 0x0800
  }

  /**
   A raw IPv4 packet is taken for what it is exactly when its source is outside 8.0.0.0/16:
   inside, its first two source bytes pass for an Ethernet type.
   */
  lemma RawFoundIff(skb: Skb, i: IpHeader, rest: seq<Byte>)
    requires IpOk(i) && skb.ipv4 && skb.data == IpBytes(i) + rest
    ensures FindIPv4(skb) == Some(0) <==> !LooksLikeEthernet(i.saddr)
    ensures LooksLikeEthernet(i.saddr) ==>
              FindIPv4(skb) == if |skb.data| >= ETH_LEN + IP_MIN then Some(ETH_LEN) else None
  {
    var b := IpBytes(i);
    assert b[12] == Split4(i.saddr)[0] && b[13] == Split4(i.saddr)[1];
    assert skb.data[12] == b[12] && skb.data[13] == b[13];
  }

  lemma RawTcpFound(skb: Skb, i: IpHeader, t: TcpHeader, tail: seq<Byte>)
    requires IpOk(i) && TcpOk(t) && skb.ipv4 && skb.data == IpBytes(i) + TcpBytes(t) + tail
    requires !LooksLikeEthernet(i.saddr)
    ensures FindIPv4(skb) == Some(0)
  {
    assert skb.data == IpBytes(i) + (TcpBytes(t) + tail);
    RawFoundIff(skb, i, TcpBytes(t) + tail);
  }

  lemma PlacedFirst(a: seq<Byte>, b: seq<Byte>, tail: seq<Byte>)
    ensures LiesAt(a + b + tail, 0, a) && LiesAt(a + b + tail, |a|, b)
  {}

  lemma ReadsRaw(d: seq<Byte>, i: IpHeader, t: TcpHeader, tail: seq<Byte>)
    requires IpOk(i) && TcpOk(t) && d == IpBytes(i) + TcpBytes(t) + tail
    ensures ReadsIp(d, 0, i) && ReadsTcp(d, IP_MIN + |i.options|, t)
  {
    PlacedFirst(IpBytes(i), TcpBytes(t), tail);
    IpRead(d, 0, i);
    TcpRead(d, |IpBytes(i)|, t);
  }

  /** Header extraction without a link header. */
  lemma RawParses(skb: Skb, i: IpHeader, t: TcpHeader, tail: seq<Byte>, payload: nat)
    requires IpOk(i) && TcpOk(t) && i.proto == TCP_PROTO && skb.ipv4
    requires i.total == IP_MIN + |i.options| + t.words * 4 + payload
    requires skb.data == IpBytes(i) + TcpBytes(t) + tail
    requires !LooksLikeEthernet(i.saddr)
    ensures Parse(skb) == Tcp(Meaning(i, t, payload))
  {
    RawTcpFound(skb, i, t, tail);
    ReadsRaw(skb.data, i, t, tail);
    ParseAt(skb, 0, i, t, payload);
  }

  // ---- everything else ----

  /** An Ethernet header with the IPv4 type comes first. */
  ghost predicate IsEthernetIPv4(d: seq<Byte>) {
    exists macs, rest :: EthernetLayout(d, macs, rest)
  }

  ghost predicate EthernetLayout(d: seq<Byte>, macs: seq<Byte>, rest: seq<Byte>) {
    |macs| == 12 && d == macs + [0x08, 0x00] + rest
  }

  lemma EthernetIff(d: seq<Byte>)
    ensures IsEthernetIPv4(d) <==> |d| >= ETH_LEN && d[12] == 0x08 && d[13] == 0x00
  {
    if |d| >= ETH_LEN && d[12] == 0x08 && d[13] == 0x00 {
      assert d == d[..12] + [0x08, 0x00] + d[ETH_LEN..];
      assert EthernetLayout(d, d[..12], d[ETH_LEN..]);
    }
  }

  /** A packet is no IPv4 packet exactly when neither a frame nor a marked packet has room for the header. */
  lemma NotIPv4Iff(skb: Skb)
    ensures Parse(skb) == NotIPv4 <==>
              if IsEthernetIPv4(skb.data) then |skb.data| < ETH_LEN + IP_MIN else !skb.ipv4 || |skb.data| < IP_MIN
  {
    EthernetIff(skb.data);
  }

  /** What follows the IPv4 header is no TCP header the lengths allow for. */
  predicate BadTcp(i: IpHeader, rest: seq<Byte>) {
    |rest| < TCP_MIN || rest[12] / 16 < 5 || i.total < IP_MIN + |i.options| + rest[12] / 16 * 4
  }

  lemma ReadAt(link: seq<Byte>, i: IpHeader, rest: seq<Byte>)
    requires IpOk(i)
    ensures var d := link + IpBytes(i) + rest;
            ReadsIp(d, |link|, i) && d[|link| + IP_MIN + |i.options|..] == rest
  {
    var d := link + IpBytes(i) + rest;
    assert d[|link|..|link| + |IpBytes(i)|] == IpBytes(i);
    IpRead(d, |link|, i);
  }

  /** The outcome for any bytes behind an IPv4 header that is found where it is. */
  lemma OutcomeAt(skb: Skb, ip: nat, i: IpHeader, rest: seq<Byte>)
    requires FindIPv4(skb) == Some(ip) && ReadsIp(skb.data, ip, i)
    requires ip + IP_MIN + |i.options| <= |skb.data| && skb.data[ip + IP_MIN + |i.options|..] == rest
    ensures Parse(skb) == NotTcp <==> i.proto != TCP_PROTO
    ensures Parse(skb) == TcpShort <==> i.proto == TCP_PROTO && BadTcp(i, rest)
    ensures Parse(skb).Tcp? <==> i.proto == TCP_PROTO && !BadTcp(i, rest)
  {
    var d, at := skb.data, ip + IP_MIN + |i.options|;
    assert at == ip + d[ip] % 16 * 4;
    assert |rest| == |d| - at;
    if |rest| >= TCP_MIN { assert d[at + 12] == rest[12]; }
  }

  /**
   Behind an Ethernet header: another protocol is no TCP packet, and a TCP packet is short exactly
   when fewer than 20 bytes follow, the data offset is below 5 or the total length below both headers.
   */
  lemma EthernetOutcome(skb: Skb, macs: seq<Byte>, i: IpHeader, rest: seq<Byte>)
    requires IpOk(i) && |macs| == 12 && skb.data == macs + [0x08, 0x00] + IpBytes(i) + rest
    ensures Parse(skb) == NotTcp <==> i.proto != TCP_PROTO
    ensures Parse(skb) == TcpShort <==> i.proto == TCP_PROTO && BadTcp(i, rest)
    ensures Parse(skb).Tcp? <==> i.proto == TCP_PROTO && !BadTcp(i, rest)
  {
    ReadAt(macs + [0x08, 0x00], i, rest);
    OutcomeAt(skb, ETH_LEN, i, rest);
  }

  lemma ReadRaw(d: seq<Byte>, i: IpHeader, rest: seq<Byte>)
    requires IpOk(i) && d == IpBytes(i) + rest
    ensures ReadsIp(d, 0, i) && d[IP_MIN + |i.options|..] == rest
  {
    assert d[0..0 + |IpBytes(i)|] == IpBytes(i);
    IpRead(d, 0, i);
  }

  /** The same without a link header, outside 8.0.0.0/16. */
  lemma RawOutcome(skb: Skb, i: IpHeader, rest: seq<Byte>)
    requires IpOk(i) && skb.ipv4 && skb.data == IpBytes(i) + rest && !LooksLikeEthernet(i.saddr)
    ensures Parse(skb) == NotTcp <==> i.proto != TCP_PROTO
    ensures Parse(skb) == TcpShort <==> i.proto == TCP_PROTO && BadTcp(i, rest)
    ensures Parse(skb).Tcp? <==> i.proto == TCP_PROTO && !BadTcp(i, rest)
  {
    RawFoundIff(skb, i, rest);
    ReadRaw(skb.data, i, rest);
    OutcomeAt(skb, 0, i, rest);
  }
}
