/** Mux frame headers: encoding, decoding and their round trip. */
module MuxFrame {
  import opened Bytes
  import opened Address

  const STATUS_NEW: byte := 1
  const STATUS_KEEP: byte := 2
  const STATUS_END: byte := 3
  const STATUS_KEEP_ALIVE: byte := 4

  const OPTION_DATA: byte := 1
  const OPTION_ERROR: byte := 2

  const NETWORK_TCP: byte := 1
  const NETWORK_UDP: byte := 2

  const ZERO_ID: seq<byte> := [0, 0, 0, 0, 0, 0, 0, 0]

  datatype Network = TCP | UDP | OtherNetwork

  datatype Target = NoTarget | Dest(network: Network, addr: Address, port: nat)

  datatype Meta = Meta(session: nat, status: byte, option: byte, target: Target, globalID: seq<byte>) {
    predicate HasData() {
      option % 2 == 1
    }
  }

  /** The destination written after the fixed part; on failure only the port has been written. */
  function NetworkByte(n: Network): seq<byte>
  {
    match n
    case TCP => [NETWORK_TCP]
    case UDP => [NETWORK_UDP]
    case OtherNetwork => []
  }

  function AddrOrPort(c: Config, a: AddrPort): seq<byte>
    requires a.port < 65536
  {
    match WriteAddressPort(c, a.addr, a.port)
    case Some(w) => w
    case None => if c.portFirst then U16(a.port) else []
  }

  /** FrameMetadata.WriteTo, without the length in front; udp is the UDP destination attached to the buffer. */
  function EncodeMeta(c: Config, m: Meta, udp: Option<AddrPort>): Option<seq<byte>>
    requires m.session < 65536
    requires m.target.Dest? ==> m.target.port < 65536
    requires udp.Some? ==> udp.value.port < 65536
  {
    var fixed := U16(m.session) + [m.status, m.option];
    if m.status == STATUS_NEW then
      if m.target.NoTarget? then None
      else match WriteAddressPort(c, m.target.addr, m.target.port)
        case Some(w) => Some(fixed + NetworkByte(m.target.network) + w + (if udp.Some? then m.globalID else []))
        case None => None
    else if udp.Some? then Some(fixed + [NETWORK_UDP] + AddrOrPort(c, udp.value))
    else Some(fixed)
  }

  /** UnmarshalFromBuffer. */
  function ParseMeta(c: Config, b: seq<byte>): Parsed<Meta>
  {
    if |b| < 4 then Failed
    else
      var m := Meta(FromU16(b[..2]), b[2], b[3], NoTarget, ZERO_ID);
      if m.status == STATUS_NEW || (m.status == STATUS_KEEP && |b| > 4 && b[4] == NETWORK_UDP) then
        if |b| < 8 then Failed
        else match ReadAddressPort(c, b[5..])
          case Ok(a, rest) =>
            if b[4] == NETWORK_TCP then Ok(m.(target := Dest(TCP, a.addr, a.port)), rest)
            else if b[4] == NETWORK_UDP then
              var m' := m.(target := Dest(UDP, a.addr, a.port));
              Ok(if m.status == STATUS_NEW && m.HasData() && |rest| >= 8 then m'.(globalID := rest[..8]) else m', rest)
            else Failed
          case Failed => Failed
      else Ok(m, b[4..])
  }

  /** A header that can be written so that it can be read: a TCP or UDP target with a faithful address. */
  ghost predicate Writable(c: Config, m: Meta, udp: Option<AddrPort>)
  {
    && m.session < 65536 && |m.globalID| == 8
    && (m.target.Dest? ==> m.target.port < 65536)
    && (m.status == STATUS_NEW ==>
          && m.target.Dest? && !m.target.network.OtherNetwork?
          && m.target.addr.Typed() && Faithful(c, m.target.addr))
    && (udp.Some? ==> udp.value.port < 65536 && udp.value.addr.Typed() && Faithful(c, udp.value.addr))
  }

  /** What the other side sees of a header. */
  function Received(m: Meta, udp: Option<AddrPort>): Meta
  {
    Meta(m.session, m.status, m.option,
         if m.status == STATUS_NEW then m.target
         else if m.status == STATUS_KEEP && udp.Some? then Dest(UDP, udp.value.addr, udp.value.port)
         else NoTarget,
         if m.status == STATUS_NEW && m.HasData() && m.target.Dest? && m.target.network.UDP? && udp.Some? then m.globalID
         else ZERO_ID)
  }

  /** The fixed part in front of anything. */
  lemma {:induction false} FixedPart(session: nat, status: byte, option: byte, tail: seq<byte>)
    requires session < 65536
    ensures var b := U16(session) + [status, option] + tail;
            && |b| == 4 + |tail| && FromU16(b[..2]) == session && b[2] == status && b[3] == option && b[4..] == tail
  {
    var b := U16(session) + [status, option] + tail;
    assert b[..2] == U16(session);
  }

  lemma {:induction false} AfterNetworkByte(fixed: seq<byte>, n: byte, w: seq<byte>, rest: seq<byte>)
    requires |fixed| == 4
    ensures var b := fixed + [n] + w + rest; b == fixed + ([n] + w + rest) && b[4] == n && b[5..] == w + rest
  {
  }

  /** Decoding a header with a destination, given how the destination decodes. */
  lemma {:induction false} ParseDestination(c: Config, m: Meta, n: byte, w: seq<byte>, rest: seq<byte>, a: AddrPort)
    requires m.session < 65536 && |w| >= 4
    requires m.status == STATUS_NEW || (m.status == STATUS_KEEP && n == NETWORK_UDP)
    requires n == NETWORK_TCP || n == NETWORK_UDP
    requires ReadAddressPort(c, w + rest) == Ok(a, rest)
    ensures ParseMeta(c, U16(m.session) + [m.status, m.option] + [n] + w + rest)
         == Ok(Meta(m.session, m.status, m.option, Dest(if n == NETWORK_TCP then TCP else UDP, a.addr, a.port),
                    if m.status == STATUS_NEW && m.HasData() && n == NETWORK_UDP && |rest| >= 8 then rest[..8] else ZERO_ID), rest)
  {
    var fixed := U16(m.session) + [m.status, m.option];
    AfterNetworkByte(fixed, n, w, rest);
    FixedPart(m.session, m.status, m.option, [n] + w + rest);
  }

  /** A faithful destination can be written, in at most 259 bytes, and read back. */
  lemma {:induction false} DestinationRoundTrip(c: Config, a: AddrPort, rest: seq<byte>)
    requires c.Consistent() && a.port < 65536 && a.addr.Typed() && Faithful(c, a.addr)
    ensures WriteAddressPort(c, a.addr, a.port).Some?
    ensures 4 <= |WriteAddressPort(c, a.addr, a.port).value| <= 259
    ensures ReadAddressPort(c, WriteAddressPort(c, a.addr, a.port).value + rest) == Ok(a, rest)
  {
    AddressPortRoundTrip(c, a.addr, a.port, rest);
    AddressPortLength(c, a.addr, a.port);
  }

  /** A New frame's header decodes to itself. */
  lemma {:induction false} NewRoundTrip(c: Config, m: Meta, udp: Option<AddrPort>)
    requires c.Consistent() && Writable(c, m, udp) && m.status == STATUS_NEW
    ensures EncodeMeta(c, m, udp).Some? && 4 <= |EncodeMeta(c, m, udp).value| <= 272
    ensures ParseMeta(c, EncodeMeta(c, m, udp).value).Ok?
    ensures ParseMeta(c, EncodeMeta(c, m, udp).value).value == Received(m, udp)
  {
    var rest := if udp.Some? then m.globalID else [];
    var a := AddrPort(m.target.addr, m.target.port);
    DestinationRoundTrip(c, a, rest);
    var w := WriteAddressPort(c, m.target.addr, m.target.port).value;
    var n := if m.target.network.TCP? then NETWORK_TCP else NETWORK_UDP;
    ParseDestination(c, m, n, w, rest, a);
    assert udp.Some? ==> rest[..8] == m.globalID;
  }

  /** So does any other header. */
  lemma {:induction false} OtherRoundTrip(c: Config, m: Meta, udp: Option<AddrPort>)
    requires c.Consistent() && Writable(c, m, udp) && m.status != STATUS_NEW
    ensures EncodeMeta(c, m, udp).Some? && 4 <= |EncodeMeta(c, m, udp).value| <= 272
    ensures ParseMeta(c, EncodeMeta(c, m, udp).value).Ok?
    ensures ParseMeta(c, EncodeMeta(c, m, udp).value).value == Received(m, udp)
  {
    var fixed := U16(m.session) + [m.status, m.option];
    if udp.None? {
      FixedPart(m.session, m.status, m.option, []);
      assert fixed + [] == fixed;
    } else {
      DestinationRoundTrip(c, udp.value, []);
      var w := WriteAddressPort(c, udp.value.addr, udp.value.port).value;
      assert fixed + [NETWORK_UDP] + w + [] == fixed + [NETWORK_UDP] + w;
      if m.status == STATUS_KEEP {
        ParseDestination(c, m, NETWORK_UDP, w, [], udp.value);
      } else {
        AfterNetworkByte(fixed, NETWORK_UDP, w, []);
        FixedPart(m.session, m.status, m.option, [NETWORK_UDP] + w + []);
      }
    }
  }

  lemma {:induction false} MetaRoundTrip(c: Config, m: Meta, udp: Option<AddrPort>)
    requires c.Consistent() && Writable(c, m, udp)
    ensures EncodeMeta(c, m, udp).Some? && 4 <= |EncodeMeta(c, m, udp).value| <= 272
    ensures ParseMeta(c, EncodeMeta(c, m, udp).value).Ok?
    ensures ParseMeta(c, EncodeMeta(c, m, udp).value).value == Received(m, udp)
  {
    if m.status == STATUS_NEW {
      NewRoundTrip(c, m, udp);
    } else {
      OtherRoundTrip(c, m, udp);
    }
  }

  /** Where the fields of a New header lie on the wire: session, status, option, network, port, address. */
  lemma {:induction false} NewLayout(c: Config, m: Meta, udp: Option<AddrPort>)
    requires c.Consistent() && Writable(c, m, udp) && c.portFirst && m.status == STATUS_NEW
    ensures EncodeMeta(c, m, udp).Some? && |EncodeMeta(c, m, udp).value| >= 8
    ensures var b := EncodeMeta(c, m, udp).value;
            && FromU16(b[..2]) == m.session && b[2] == 1 && b[3] == m.option
            && b[4] == (if m.target.network.TCP? then 1 else 2)
            && FromU16(b[5..7]) == m.target.port && b[7] == c.byteOf[m.target.addr.Family()]
            && (m.target.addr.Domain? ==> |b| > 8 && b[8] == |m.target.addr.name| && m.target.addr.name <= b[9..])
            && (!m.target.addr.Domain? ==> m.target.addr.ip <= b[8..])
  {
    var a := WriteAddress(c, m.target.addr).value;
    var b, id := EncodeMeta(c, m, udp).value, if udp.Some? then m.globalID else [];
    LaidOut(U16(m.session), m.status, m.option, NetworkByte(m.target.network)[0], U16(m.target.port), a, id);
    assert NetworkByte(m.target.network) == [NetworkByte(m.target.network)[0]];
    if m.target.addr.Domain? {
      assert b[9..] == (a + id)[2..] == m.target.addr.name + id;
    } else {
      assert b[8..] == (a + id)[1..] == m.target.addr.ip + id;
    }
  }

  lemma {:induction false} LaidOut(session: seq<byte>, status: byte, option: byte, network: byte, port: seq<byte>, addr: seq<byte>, id: seq<byte>)
    requires |session| == |port| == 2 && addr != []
    ensures var b := session + [status, option] + [network] + (port + addr) + id;
            && |b| >= 8 && b[..2] == session && b[2] == status && b[3] == option && b[4] == network
            && b[5..7] == port && b[7..] == addr + id && b[7] == addr[0]
  {
  }
}
