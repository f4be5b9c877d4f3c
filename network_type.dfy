/**
  The transport and address-family tag of an ICE candidate (RFC 8445):
  the closed `NetworkType` enumeration, its total queries, the one-byte
  and textual encodings, and the classification of a protocol label
  together with an IP address.
 */
module NetworkTypes {
  import opened Text

  /** The short transport labels the classifier matches against. */
  const UDP: string := "udp"
  const TCP: string := "tcp"
  const QUIC: string := "quic"

  /** An unsigned 8-bit integer. */
  type Byte = x: int | 0 <= x < 256

  /** An IP address, reduced to the one fact the classifier reads: its family. */
  datatype IpAddr = V4 | V6 {
    predicate IsIpv4() { V4? }
    predicate IsIpv6() { V6? }
  }

  /** The one error of this component. */
  datatype Error = ErrDetermineNetworkType

  datatype Result<T> = Ok(value: T) | Err(error: Error)

  datatype Option<T> = None | Some(value: T)

  /** The type of network: a transport over an address family, or no type at all. */
  datatype NetworkType = Unspecified | Udp4 | Udp6 | Tcp4 | Tcp6 | Quic4 | Quic6 {

    /** UDP over either family. */
    predicate IsUdp() {
      this == Udp4 || this == Udp6
    }

    /** TCP over either family. */
    predicate IsTcp() {
      this == Tcp4 || this == Tcp6
    }

    /** QUIC over either family. */
    predicate IsQuic() {
      this == Quic4 || this == Quic6
    }

    /** Reliable delivery: TCP and, by the implementation's choice, which it marks as an open question, QUIC. */
    function IsReliable(): (b: bool)
      ensures b <==> IsTcp() || IsQuic()
      ensures b ==> this != Unspecified
    {
      match this
      case Tcp4 | Tcp6 => true
      case Udp4 | Udp6 | Unspecified => false
      case Quic4 | Quic6 => true
    }

    function IsIpv4(): bool {
      match this
      case Udp4 | Tcp4 | Quic4 => true
      case Udp6 | Tcp6 | Quic6 | Unspecified => false
    }

    /** The two families exclude each other, and every tag but `Unspecified` has one. */
    function IsIpv6(): (b: bool)
      ensures b ==> !IsIpv4()
      ensures b || IsIpv4() <==> this != Unspecified
    {
      match this
      case Udp6 | Tcp6 | Quic6 => true
      case Udp4 | Tcp4 | Quic4 | Unspecified => false
    }

    /** The short transport label, which names whichever transport the tag has. */
    function NetworkShort(): (r: string)
      ensures r == UDP <==> IsUdp()
      ensures r == TCP <==> IsTcp()
      ensures r == QUIC <==> IsQuic()
      ensures r == "Unspecified" <==> this == Unspecified
    {
      match this
      case Udp4 | Udp6 => UDP
      case Tcp4 | Tcp6 => TCP
      case Quic4 | Quic6 => QUIC
      case Unspecified => "Unspecified"
    }

    /** The display token: the short label followed by the family digit. */
    function ToString(): (r: string)
      ensures this != Unspecified ==> r == NetworkShort() + (if IsIpv4() then "4" else "6")
      ensures this == Unspecified ==> r == "unspecified"
    {
      match this
      case Udp4 => "udp4"
      case Udp6 => "udp6"
      case Tcp4 => "tcp4"
      case Tcp6 => "tcp6"
      case Quic4 => "quic4"
      case Quic6 => "quic6"
      case Unspecified => "unspecified"
    }

    /** The name under which the serialized form writes the tag. */
    function SerdeName(): string {
      match this
      case Unspecified => "unspecified"
      case Udp4 => "udp4"
      case Udp6 => "udp6"
      case Tcp4 => "tcp4"
      case Tcp6 => "tcp6"
      case Quic4 => "quic4"
      case Quic6 => "quic6"
    }
  }

  /** The default tag carries neither a transport nor a family. */
  function Default(): (r: NetworkType)
    ensures !r.IsUdp() && !r.IsTcp() && !r.IsQuic()
    ensures !r.IsIpv4() && !r.IsIpv6() && !r.IsReliable()
  {
    Unspecified
  }

  /**
    Decoding of the one-byte code: 1 to 6 give UDP, TCP and QUIC, each
    IPv4 (odd code) before IPv6 (even code); every other byte is `Unspecified`.
   */
  function FromByte(b: Byte): (r: NetworkType)
    ensures r != Unspecified <==> 1 <= b <= 6
    ensures r.IsUdp() <==> 1 <= b <= 2
    ensures r.IsTcp() <==> 3 <= b <= 4
    ensures r.IsQuic() <==> 5 <= b <= 6
    ensures r.IsIpv4() <==> 1 <= b <= 6 && b % 2 == 1
    ensures r.IsIpv6() <==> 1 <= b <= 6 && b % 2 == 0
  {
    match b
    case 1 => Udp4
    case 2 => Udp6
    case 3 => Tcp4
    case 4 => Tcp6
    case 5 => Quic4
    case 6 => Quic6
    case _ => Unspecified
  }

  /** The transports the agent supports: UDP then QUIC, IPv4 before IPv6, and no TCP. */
  function SupportedNetworkTypes(): (r: seq<NetworkType>)
    ensures |r| == 4
    ensures forall i :: 0 <= i < |r| ==> (r[i].IsUdp() <==> i < 2) && (r[i].IsQuic() <==> 2 <= i)
    ensures forall i :: 0 <= i < |r| ==> (r[i].IsIpv4() <==> i % 2 == 0) && (r[i].IsIpv6() <==> i % 2 == 1)
    ensures forall v: NetworkType :: v in r <==> v.IsUdp() || v.IsQuic()
  {
    [Udp4, Udp6, Quic4, Quic6]
  }

  /**
    Reading a tag back from its serialized name; an unknown name is a
    format error (`None`), not `Unspecified`.
   */
  function Deserialize(t: string): (r: Option<NetworkType>)
    ensures forall v: NetworkType :: v.SerdeName() == t <==> r == Some(v)
  {
    if t == "unspecified" then Some(Unspecified)
    else if t == "udp4" then Some(Udp4)
    else if t == "udp6" then Some(Udp6)
    else if t == "tcp4" then Some(Tcp4)
    else if t == "tcp6" then Some(Tcp6)
    else if t == "quic4" then Some(Quic4)
    else if t == "quic6" then Some(Quic6)
    else None
  }

  /**
    Classifies a protocol label and an address: the lowered label is
    matched by prefix against UDP, TCP and QUIC in that order, and the
    address family picks the v4 or v6 tag.
   */
  function DetermineNetworkType(network: string, ip: IpAddr): (r: Result<NetworkType>)
    ensures r.Ok? <==> StartsWith(Lower(network), UDP) || StartsWith(Lower(network), TCP) || StartsWith(Lower(network), QUIC)
    ensures r.Ok? ==> r.value != Unspecified && StartsWith(Lower(network), r.value.NetworkShort())
    ensures r.Ok? ==> r.value.IsIpv4() == ip.IsIpv4() && r.value.IsIpv6() == ip.IsIpv6()
  {
    var ipv4 := ip.IsIpv4();
    var net := Lower(network);
    if StartsWith(net, UDP) then
      Ok(if ipv4 then Udp4 else Udp6)
    else if StartsWith(net, TCP) then
      Ok(if ipv4 then Tcp4 else Tcp6)
    else if StartsWith(net, QUIC) then
      Ok(if ipv4 then Quic4 else Quic6)
    else
      Err(ErrDetermineNetworkType)
  }

  /** Every tag but `Unspecified` has exactly one transport; `Unspecified` has none. */
  lemma TransportPartition(v: NetworkType)
    ensures v == Unspecified <==> !v.IsUdp() && !v.IsTcp() && !v.IsQuic()
    ensures !(v.IsUdp() && v.IsTcp()) && !(v.IsUdp() && v.IsQuic()) && !(v.IsTcp() && v.IsQuic())
  {
  }

  /** On the codes 1 to 6 the byte decoding loses nothing. */
  lemma FromByteInjective(a: Byte, b: Byte)
    requires 1 <= a <= 6 && 1 <= b <= 6
    requires FromByte(a) == FromByte(b)
    ensures a == b
  {
  }

  /** The display token of each tag is its serialized name. */
  lemma SerdeNameIsToString(v: NetworkType)
    ensures v.SerdeName() == v.ToString()
  {
  }

  /** Reading back a display token gives the tag it was made from. */
  lemma ToStringRoundTrip(v: NetworkType)
    ensures Deserialize(v.ToString()) == Some(v)
  {
    SerdeNameIsToString(v);
  }

  /** No two tags share a display token. */
  lemma ToStringInjective(v: NetworkType, w: NetworkType)
    requires v.ToString() == w.ToString()
    ensures v == w
  {
    ToStringRoundTrip(v);
    ToStringRoundTrip(w);
  }

  /** At most one of the three prefixes begins any string, so the order they are tried in never matters. */
  lemma PrefixesExclusive(s: string)
    ensures !(StartsWith(s, UDP) && StartsWith(s, TCP))
    ensures !(StartsWith(s, UDP) && StartsWith(s, QUIC))
    ensures !(StartsWith(s, TCP) && StartsWith(s, QUIC))
  {
    assert StartsWith(s, UDP) ==> s[0] == UDP[0] == 'u';
    assert StartsWith(s, TCP) ==> s[0] == TCP[0] == 't';
    assert StartsWith(s, QUIC) ==> s[0] == QUIC[0] == 'q';
  }

  /**
    The classification succeeds with `v` exactly when `v` is a real tag
    whose short label begins the lowered label and whose family is the
    address's.
   */
  lemma DetermineNetworkTypeExactly(network: string, ip: IpAddr, v: NetworkType)
    ensures DetermineNetworkType(network, ip) == Ok(v) <==>
      v != Unspecified && StartsWith(Lower(network), v.NetworkShort()) && v.IsIpv4() == ip.IsIpv4()
  {
    PrefixesExclusive(Lower(network));
  }

  /**
    The classification does not depend on the case of the label: the
    label, its lower-case form and its upper-case form classify alike.
   */
  lemma DetermineNetworkTypeIgnoresCase(network: string, ip: IpAddr)
    ensures DetermineNetworkType(Lower(network), ip) == DetermineNetworkType(network, ip)
    ensures DetermineNetworkType(Upper(network), ip) == DetermineNetworkType(network, ip)
  {
    LowerIdempotent(network);
    LowerUpper(network);
  }

  /** Matching is by prefix: whatever follows a recognised label is ignored. */
  lemma DetermineNetworkTypeIgnoresSuffix(network: string, suffix: string, ip: IpAddr)
    requires DetermineNetworkType(network, ip).Ok?
    ensures DetermineNetworkType(network + suffix, ip) == DetermineNetworkType(network, ip)
  {
    var net := Lower(network);
    LowerAppend(network, suffix);
    if StartsWith(net, UDP) {
      StartsWithAppend(net, Lower(suffix), UDP);
    } else if StartsWith(net, TCP) {
      StartsWithAppend(net, Lower(suffix), TCP);
    } else {
      StartsWithAppend(net, Lower(suffix), QUIC);
    }
    PrefixesExclusive(Lower(network + suffix));
  }

  /** A label that does not begin with a letter (a space, a digit, a slash) is rejected: nothing is trimmed. */
  lemma DetermineNetworkTypeNeedsLetterFirst(network: string, ip: IpAddr)
    requires |network| > 0 && !IsAsciiLetter(network[0])
    ensures DetermineNetworkType(network, ip) == Err(ErrDetermineNetworkType)
  {
    var net := Lower(network);
    assert !IsAsciiLetter(net[0]);
    assert !StartsWith(net, UDP) by { assert UDP[0] == 'u'; }
    assert !StartsWith(net, TCP) by { assert TCP[0] == 't'; }
    assert !StartsWith(net, QUIC) by { assert QUIC[0] == 'q'; }
  }

  /**
    Every real tag is recovered from its short label, and from its display
    token, given an address of its family.
   */
  lemma DetermineNetworkTypeRecoversTag(v: NetworkType)
    requires v != Unspecified
    ensures DetermineNetworkType(v.NetworkShort(), if v.IsIpv4() then V4 else V6) == Ok(v)
    ensures DetermineNetworkType(v.ToString(), if v.IsIpv4() then V4 else V6) == Ok(v)
  {
    var ip := if v.IsIpv4() then V4 else V6;
    var short := v.NetworkShort();
    LowerOfLowered(short);
    DetermineNetworkTypeExactly(short, ip, v);
    var digit := if v.IsIpv4() then "4" else "6";
    DetermineNetworkTypeIgnoresSuffix(short, digit, ip);
  }

  /** Worked cases: an upper-case label is accepted and the family follows the address. */
  lemma DetermineNetworkTypeUpperCaseExamples()
    ensures DetermineNetworkType("UDP", V4) == Ok(Udp4)
    ensures DetermineNetworkType("QUIC", V6) == Ok(Quic6)
  {
    assert Lower("UDP")[..3] == UDP by {
      assert Lower("UDP")[0] == LowerChar('U') == 'u';
      assert Lower("UDP")[1] == LowerChar('D') == 'd';
      assert Lower("UDP")[2] == LowerChar('P') == 'p';
    }
    assert Lower("QUIC")[..4] == QUIC by {
      assert Lower("QUIC")[0] == LowerChar('Q') == 'q';
      assert Lower("QUIC")[1] == LowerChar('U') == 'u';
      assert Lower("QUIC")[2] == LowerChar('I') == 'i';
      assert Lower("QUIC")[3] == LowerChar('C') == 'c';
    }
  }

  /** Worked cases: a label with a suffix after the transport still matches that transport. */
  lemma DetermineNetworkTypeLowerCaseExamples()
    ensures DetermineNetworkType("udp", V6) == Ok(Udp6)
    ensures DetermineNetworkType("tcp6ish", V4) == Ok(Tcp4)
  {
    LowerOfLowered("udp");
    LowerOfLowered("tcp6ish");
    assert "tcp6ish"[..3] == TCP;
  }

  /** Worked cases: an unknown transport and a label with leading white space are errors. */
  lemma DetermineNetworkTypeErrorExamples()
    ensures DetermineNetworkType("sctp", V4) == Err(ErrDetermineNetworkType)
    ensures DetermineNetworkType(" udp", V4) == Err(ErrDetermineNetworkType)
  {
    LowerOfLowered("sctp");
    assert UDP[0] == 'u' && TCP[0] == 't' && QUIC[0] == 'q';
    DetermineNetworkTypeNeedsLetterFirst(" udp", V4);
  }
}
