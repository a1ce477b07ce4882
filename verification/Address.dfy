// Destination addresses as SOCKS5 and Shadowsocks write them.
module Address {
  import opened Flow

  type Octets4 = s: seq<byte> | |s| == 4 witness [0, 0, 0, 0]
  type Octets16 = s: seq<byte> | |s| == 16 witness [0, 0, 0, 0, 0, 0, 0, 0, 0, 0, 0, 0, 0, 0, 0, 0]
  type Port = p: nat | p < 0x1_0000

  datatype Host = DomainName(name: seq<byte>) | Ipv4(v4: Octets4) | Ipv6(v6: Octets16)
  datatype Destination = Destination(host: Host, port: Port)

  // Domain-name normalisation, which fails on malformed names.
  type Normalise = seq<byte> -> Option<seq<byte>>

  const MAX_DOMAIN := 255

  function TrimDots(s: seq<byte>): (r: seq<byte>)
    ensures r <= s && (r != [] ==> r[|r| - 1] != '.' as int)
    ensures forall i :: |r| <= i < |s| ==> s[i] == '.' as int
  {
    if s != [] && s[|s| - 1] == '.' as int then TrimDots(s[..|s| - 1]) else s
  }

  function PortBytes(port: Port): seq<byte> {
    [port / 256, port % 256]
  }

  // The bytes `write_dest` appends; a domain longer than 255 bytes has its length byte truncated.
  function WriteDest(d: Destination): seq<byte> {
    (match d.host
     case DomainName(name) => var t := TrimDots(name); [3, |t| % 256] + t
     case Ipv4(v4) => [1] + v4
     case Ipv6(v6) => [4] + v6) + PortBytes(d.port)
  }

  function ParseDest(w: seq<byte>, norm: Normalise): (r: Option<(Destination, nat)>)
    ensures r.Some? ==> r.value.1 <= |w|
  {
    if |w| < 2 then None
    else if w[0] == 1 && |w| >= 7 then Some(WithPort(w, Ipv4(w[1..5]), 5))
    else if w[0] == 4 && |w| >= 19 then Some(WithPort(w, Ipv6(w[1..17]), 17))
    else if w[0] == 3 && |w| >= w[1] as int + 4 then
      match norm(w[2..w[1] as int + 2])
      case None => None
      case Some(name) => Some(WithPort(w, DomainName(name), w[1] as int + 2))
    else None
  }

  function WithPort(w: seq<byte>, host: Host, at: nat): (Destination, nat)
    requires at + 2 <= |w|
  {
    (Destination(host, w[at] as int * 256 + w[at + 1] as int), at + 2)
  }

  // What a reader of the written form obtains, if the name is acceptable at all.
  function Normalised(d: Destination, norm: Normalise): Option<Destination> {
    match d.host
    case DomainName(name) =>
      (match norm(TrimDots(name))
       case None => None
       case Some(n) => Some(Destination(DomainName(n), d.port)))
    case _ => Some(d)
  }

  predicate FitsLength(d: Destination) {
    d.host.DomainName? ==> |TrimDots(d.host.name)| <= MAX_DOMAIN
  }

  lemma PortWritten(port: Port)
    ensures port / 256 < 256 && port / 256 * 256 + port % 256 == port
  {
  }

  lemma PortRead(hi: byte, lo: byte)
    ensures hi as int * 256 + lo as int < 0x1_0000
    ensures PortBytes(hi as int * 256 + lo as int) == [hi, lo]
  {
  }

  /** The form of RFC 1928, section 5: a type, the address or the length of a name and the name, and
      the port with its high byte first. */
  lemma WrittenForm(d: Destination, high: byte, low: byte)
    requires d.port == high as int * 256 + low as int && FitsLength(d)
    ensures WriteDest(d) == match d.host
      case DomainName(name) => [3, |TrimDots(name)|] + TrimDots(name) + [high, low]
      case Ipv4(v4) => [1] + v4 + [high, low]
      case Ipv6(v6) => [4] + v6 + [high, low]
  {
    PortRead(high, low);
  }

  /** Whatever follows it, a written destination is read back normalised, with its exact length. */
  lemma ParseWritten(d: Destination, rest: seq<byte>, norm: Normalise)
    requires FitsLength(d)
    ensures ParseDest(WriteDest(d) + rest, norm) == match Normalised(d, norm)
      case None => None
      case Some(n) => Some((n, |WriteDest(d)|))
  {
    match d.host
    case DomainName(name) => ParseWrittenName(d, rest, norm);
    case Ipv4(v4) => ParseWrittenAddress(d, rest, norm);
    case Ipv6(v6) => ParseWrittenAddress(d, rest, norm);
  }

  lemma ParseWrittenName(d: Destination, rest: seq<byte>, norm: Normalise)
    requires d.host.DomainName? && FitsLength(d)
    ensures ParseDest(WriteDest(d) + rest, norm) == match norm(TrimDots(d.host.name))
      case None => None
      case Some(n) => Some((Destination(DomainName(n), d.port), |WriteDest(d)|))
  {
    var t := TrimDots(d.host.name);
    ParseWrittenDomain(t, d.port, rest, norm);
    assert WriteDest(d) == [3, |t|] + t + PortBytes(d.port);
  }

  lemma ParseWrittenAddress(d: Destination, rest: seq<byte>, norm: Normalise)
    requires !d.host.DomainName?
    ensures ParseDest(WriteDest(d) + rest, norm) == Some((d, |WriteDest(d)|))
  {
    if d.host.Ipv4? {
      ParseWrittenIp(1, d.host.v4, d.port, rest);
    } else {
      ParseWrittenIp(4, d.host.v6, d.port, rest);
    }
  }

  lemma ParseWrittenDomain(t: seq<byte>, port: Port, rest: seq<byte>, norm: Normalise)
    requires |t| <= MAX_DOMAIN
    ensures ParseDest([3, |t|] + t + PortBytes(port) + rest, norm) == match norm(t)
      case None => None
      case Some(n) => Some((Destination(DomainName(n), port), |t| + 4))
  {
    var w := [3, |t|] + t + PortBytes(port) + rest;
    PortWritten(port);
    assert w[2..|t| + 2] == t;
  }

  lemma ParseWrittenIp(kind: byte, ip: seq<byte>, port: Port, rest: seq<byte>)
    ensures var w := [kind] + ip + PortBytes(port) + rest; var n := 1 + |ip|;
      w[0] == kind && w[1..n] == ip && |w| >= n + 2
      && w[n] as int * 256 + w[n + 1] as int == port
  {
    PortWritten(port);
    var w, n := [kind] + ip + PortBytes(port) + rest, 1 + |ip|;
    assert w[n] == PortBytes(port)[0] && w[n + 1] == PortBytes(port)[1];
  }

  /** The header length is recovered exactly for acceptable names of at most 255 bytes. */
  lemma HeaderLengthIff(d: Destination, rest: seq<byte>, norm: Normalise)
    ensures
      var r := ParseDest(WriteDest(d) + rest, norm);
      r.Some? && r.value.1 == |WriteDest(d)| <==> FitsLength(d) && Normalised(d, norm).Some?
  {
    if FitsLength(d) {
      ParseWritten(d, rest, norm);
    }
  }

  /** Nothing but a written destination is accepted: the consumed bytes are the encoding of an
      address whose normal form is the result. */
  lemma ParsedWasWritten(w: seq<byte>, norm: Normalise)
    requires ParseDest(w, norm).Some?
    ensures var (d, n) := ParseDest(w, norm).value;
      match d.host
      case DomainName(name) =>
        n >= 4 && norm(w[2..n - 2]) == Some(name) && w[..n] == [3, n - 4] + w[2..n - 2] + PortBytes(d.port)
      case _ => w[..n] == WriteDest(d)
  {
    var (d, n) := ParseDest(w, norm).value;
    PortRead(w[n - 2], w[n - 1]);
    assert w[n - 2..n] == [w[n - 2], w[n - 1]];
    match d.host
    case DomainName(name) =>
      assert w[..n] == w[..2] + w[2..n - 2] + w[n - 2..n];
    case Ipv4(v4) =>
      assert w[..n] == w[..1] + w[1..5] + w[5..7];
    case Ipv6(v6) =>
      assert w[..n] == w[..1] + w[1..17] + w[17..19];
  }
}
