/** The address and port codec: normalised addresses, both port orders. */
module Address {
  import opened Bytes

  datatype Family = FamilyIPv4 | FamilyIPv6 | FamilyDomain

  datatype Address = IPv4(ip: seq<byte>) | IPv6(ip: seq<byte>) | Domain(name: seq<byte>) {
    function Family(): Family {
      match this
      case IPv4(_) => FamilyIPv4
      case IPv6(_) => FamilyIPv6
      case Domain(_) => FamilyDomain
    }

    /** What the Go types admit: arrays of 4 and of 16 bytes. */
    predicate Typed() {
      match this
      case IPv4(ip) => |ip| == 4
      case IPv6(ip) => |ip| == 16
      case Domain(_) => true
    }
  }

  /** The result of reading from a stream. */
  datatype Parsed<+T> = Ok(value: T, rest: seq<byte>) | Failed

  /** IPv4-mapped IPv6 addresses, section 2.5.5.2 of RFC 4291. */
  predicate Mapped(ip: seq<byte>)
  {
    |ip| == 16 && (forall i :: 0 <= i < 10 ==> ip[i] == 0) && ip[10] == 0xff && ip[11] == 0xff
  }

  /** net.IPAddress: nil unless there are 4 or 16 bytes. */
  function IPAddress(ip: seq<byte>): (r: Option<Address>)
    ensures |ip| == 4 ==> r == Some(IPv4(ip))
    ensures Mapped(ip) ==> r == Some(IPv4(ip[12..]))
    ensures |ip| == 16 && !Mapped(ip) ==> r == Some(IPv6(ip))
    ensures |ip| !in {4, 16} ==> r == None
    ensures r.Some? ==> r.value.Typed() && !r.value.Domain? && !(r.value.IPv6? && Mapped(r.value.ip))
    decreases |ip|
  {
    if |ip| == 4 then Some(IPv4(ip))
    else if |ip| == 16 then
      if Mapped(ip) then IPAddress(ip[12..]) else Some(IPv6(ip))
    else None
  }

  predicate MaybeIPPrefix(b: byte)
  {
    b == '[' as int || '0' as int <= b <= '9' as int
  }

  predicate DomainByte(c: byte)
  {
    || '0' as int <= c <= '9' as int
    || 'a' as int <= c <= 'z' as int
    || 'A' as int <= c <= 'Z' as int
    || c == '-' as int || c == '.' as int || c == '_' as int
  }

  predicate ValidDomain(d: seq<byte>)
  {
    forall i :: 0 <= i < |d| ==> DomainByte(d[i])
  }

  /** An address parser: the family bytes, the byte filter, the port order, and net.ParseIP of trimmed text. */
  datatype Config = Config(byteOf: map<Family, byte>, familyOf: map<byte, Family>, typeParser: byte -> byte, portFirst: bool,
                           parseIP: seq<byte> -> Option<seq<byte>>) {
    ghost predicate Consistent() {
      && (forall f :: f in byteOf ==> byteOf[f] in familyOf && familyOf[byteOf[f]] == f && typeParser(byteOf[f]) == byteOf[f])
      && (forall s :: parseIP(s).Some? ==> IPAddress(parseIP(s).value).Some?)
    }
  }

  /** Some(n bytes, rest) or an error. */
  function Take(s: seq<byte>, n: nat): (r: Parsed<seq<byte>>)
    ensures r.Ok? <==> n <= |s|
    ensures r.Ok? ==> r.value + r.rest == s && |r.value| == n
  {
    if n <= |s| then Ok(s[..n], s[n..]) else Failed
  }

  lemma {:induction false} TakeFront(a: seq<byte>, b: seq<byte>)
    ensures Take(a + b, |a|) == Ok(a, b)
  {
  }

  function ReadDomain(c: Config, s: seq<byte>): Parsed<Address>
  {
    match Take(s, 1)
    case Ok(len, s1) =>
      (match Take(s1, len[0])
       case Ok(domain, rest) =>
         // With a length of zero the source looks at everything it has read, and the zero is no letter of a domain.
         if domain == [] then Failed
         else if MaybeIPPrefix(domain[0]) && c.parseIP(domain).Some? && IPAddress(c.parseIP(domain).value).Some? then
           Ok(IPAddress(c.parseIP(domain).value).value, rest)
         else if ValidDomain(domain) then Ok(Domain(domain), rest)
         else Failed
       case Failed => Failed)
    case Failed => Failed
  }

  function ReadIP(s: seq<byte>, n: nat): Parsed<Address>
    requires n == 4 || n == 16
  {
    match Take(s, n)
    case Ok(ip, rest) => if IPAddress(ip).Some? then Ok(IPAddress(ip).value, rest) else Failed
    case Failed => Failed
  }

  function ReadAddress(c: Config, s: seq<byte>): Parsed<Address>
  {
    match Take(s, 1)
    case Ok(t, s1) =>
      var addrType := c.typeParser(t[0]);
      if addrType >= 16 || addrType !in c.familyOf then Failed
      else (match c.familyOf[addrType]
            case FamilyIPv4 => ReadIP(s1, 4)
            case FamilyIPv6 => ReadIP(s1, 16)
            case FamilyDomain => ReadDomain(c, s1))
    case Failed => Failed
  }

  /** isDomainTooLong lets 256 bytes pass; the length byte is then 0. */
  function WriteAddress(c: Config, a: Address): Option<seq<byte>>
  {
    if a.Family() !in c.byteOf then None
    else match a
      case IPv4(ip) => Some([c.byteOf[FamilyIPv4]] + ip)
      case IPv6(ip) => Some([c.byteOf[FamilyIPv6]] + ip)
      case Domain(name) => if |name| > 256 then None else Some([c.byteOf[FamilyDomain], |name| % 256] + name)
  }

  function ReadPort(s: seq<byte>): Parsed<nat>
  {
    match Take(s, 2)
    case Ok(p, rest) => Ok(FromU16(p), rest)
    case Failed => Failed
  }

  datatype AddrPort = AddrPort(addr: Address, port: nat)

  function ReadAddressPort(c: Config, s: seq<byte>): Parsed<AddrPort>
  {
    if c.portFirst then
      match ReadPort(s)
      case Ok(port, s1) =>
        (match ReadAddress(c, s1)
         case Ok(addr, rest) => Ok(AddrPort(addr, port), rest)
         case Failed => Failed)
      case Failed => Failed
    else
      match ReadAddress(c, s)
      case Ok(addr, s1) =>
        (match ReadPort(s1)
         case Ok(port, rest) => Ok(AddrPort(addr, port), rest)
         case Failed => Failed)
      case Failed => Failed
  }

  function WriteAddressPort(c: Config, addr: Address, port: nat): Option<seq<byte>>
    requires port < 65536
  {
    match WriteAddress(c, addr)
    case Some(a) => Some(if c.portFirst then U16(port) + a else a + U16(port))
    case None => None
  }

  /** The addresses that survive the wire: a configured family, a normalised IP, or a domain of 1 to 255 valid
      bytes that does not read as an IP literal. */
  predicate Faithful(c: Config, a: Address)
  {
    && a.Family() in c.byteOf && c.byteOf[a.Family()] < 16
    && match a
       case IPv4(_) => true
       case IPv6(ip) => !Mapped(ip)
       case Domain(name) => 1 <= |name| <= 255 && ValidDomain(name) && !(MaybeIPPrefix(name[0]) && c.parseIP(name).Some?)
  }

  lemma {:induction false} DomainRoundTrip(c: Config, name: seq<byte>, rest: seq<byte>)
    requires c.Consistent() && |name| <= 256
    ensures ReadDomain(c, [|name| % 256] + name + rest) == Ok(Domain(name), rest)
       <==> 1 <= |name| <= 255 && ValidDomain(name) && !(MaybeIPPrefix(name[0]) && c.parseIP(name).Some?)
  {
    Assoc([|name| % 256], name, rest);
    TakeFront([|name| % 256], name + rest);
    if |name| <= 255 {
      TakeFront(name, rest);
    } else {
      assert Take(name + rest, 0).value == [];
    }
  }

  /** Reading back what was written, with anything behind it, succeeds exactly for the faithful addresses. */
  lemma {:induction false} AddressRoundTrip(c: Config, a: Address, rest: seq<byte>)
    requires c.Consistent() && a.Typed()
    ensures Faithful(c, a) <==> WriteAddress(c, a).Some? && ReadAddress(c, WriteAddress(c, a).value + rest) == Ok(a, rest)
  {
    if WriteAddress(c, a).Some? {
      var tb := c.byteOf[a.Family()];
      var body := WriteAddress(c, a).value[1..];
      assert WriteAddress(c, a).value + rest == [tb] + (body + rest);
      TakeFront([tb], body + rest);
      match a {
        case IPv4(ip) => assert body == ip; TakeFront(ip, rest);
        case IPv6(ip) => assert body == ip; TakeFront(ip, rest);
        case Domain(name) =>
          assert body == [|name| % 256] + name;
          DomainRoundTrip(c, name, rest);
      }
    }
  }

  /** The same for address and port, in either order; the bytes behind them are untouched. */
  lemma {:induction false} AddressPortRoundTrip(c: Config, a: Address, port: nat, rest: seq<byte>)
    requires c.Consistent() && a.Typed() && port < 65536
    ensures Faithful(c, a)
       <==> WriteAddressPort(c, a, port).Some? && ReadAddressPort(c, WriteAddressPort(c, a, port).value + rest) == Ok(AddrPort(a, port), rest)
  {
    var p := U16(port);
    if c.portFirst {
      AddressRoundTrip(c, a, rest);
      if WriteAddress(c, a).Some? {
        var w := WriteAddress(c, a).value;
        TakeFront(p, w + rest);
        Assoc(p, w, rest);
      }
    } else {
      AddressRoundTrip(c, a, p + rest);
      if WriteAddress(c, a).Some? {
        TakeFront(p, rest);
        Assoc(WriteAddress(c, a).value, p, rest);
      }
    }
  }

  lemma {:induction false} AddressPortLength(c: Config, a: Address, port: nat)
    requires a.Typed() && port < 65536 && WriteAddressPort(c, a, port).Some?
    ensures 7 <= |WriteAddressPort(c, a, port).value| || a.Domain?
    ensures 4 <= |WriteAddressPort(c, a, port).value| <= 260
    ensures a.Domain? && |a.name| <= 255 ==> |WriteAddressPort(c, a, port).value| <= 259
  {
  }
}
