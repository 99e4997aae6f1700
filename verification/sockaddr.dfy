/**
 * Socket addresses as the gateway handles them, and the helpers of
 * multicast.c that read or update them: address comparison, the port
 * getters and setters, and the multicast-range test.
 *
 * A `struct sockaddr` is a value here. The port is kept as the host-order
 * number: the source stores it in network order and converts with
 * `htons`/`ntohs` on every access, so the two views carry the same number.
 */
module Sockaddr {
  import opened Bytes

  /** Address family codes (Linux values). */
  const AF_INET: int := 2
  const AF_INET6: int := 10

  datatype SockAddr =
    | Inet(addr: seq<byte>, port: nat)      // sockaddr_in: 4 address bytes
    | Inet6(addr: seq<byte>, port: nat)     // sockaddr_in6: 16 address bytes
    | OtherFamily(family: int)              // any other family, or uninitialised

  /** The shape a `sockaddr_in`/`sockaddr_in6` always has. */
  predicate WellFormed(s: SockAddr)
  {
    match s
    case Inet(a, p) => |a| == 4 && p < TWO16
    case Inet6(a, p) => |a| == 16 && p < TWO16
    case OtherFamily(f) => f != AF_INET && f != AF_INET6
  }

  /**
   * address_match: -1 if either pointer is NULL, 0 when the families differ,
   * 1 when the address bytes are equal. Ports are not compared.
   */
  function AddressMatch(a: Option<SockAddr>, b: Option<SockAddr>): (r: int)
    ensures a.None? || b.None? <==> r == -1
    ensures r == 1 <==> a.Some? && b.Some? && SameAddress(a.value, b.value)
    ensures -1 <= r <= 1
  {
    if a.None? || b.None? then -1
    else match (a.value, b.value)
      case (Inet(x, _), Inet(y, _)) => if x == y then 1 else 0
      case (Inet6(x, _), Inet6(y, _)) => if x == y then 1 else 0
      case _ => 0     // families differ, or neither is IPv4/IPv6
  }

  /** Two addresses of family IPv4 or IPv6 whose address bytes agree. */
  predicate SameAddress(a: SockAddr, b: SockAddr)
  {
    || (a.Inet? && b.Inet? && a.addr == b.addr)
    || (a.Inet6? && b.Inet6? && a.addr == b.addr)
  }

  /** getportnumber: the host-order port, or -1 for NULL or another family. */
  function GetPortNumber(s: Option<SockAddr>): (r: int)
    ensures r == -1 <==> s.None? || s.value.OtherFamily?
    ensures s.Some? && !s.value.OtherFamily? ==> r == s.value.port
    ensures s.Some? && WellFormed(s.value) ==> r < TWO16
  {
    if s.None? then -1
    else match s.value
      case Inet(_, p) => p
      case Inet6(_, p) => p
      case OtherFamily(_) => -1
  }

  /** The address with its port field replaced, as `htons(port)` stores it. */
  function WithPort(s: SockAddr, port: int): (r: SockAddr)
    requires !s.OtherFamily?
    ensures r.Inet? == s.Inet? && r.Inet6? == s.Inet6? && r.addr == s.addr && r.port == U16(port)
  {
    match s
    case Inet(a, _) => Inet(a, U16(port))
    case Inet6(a, _) => Inet6(a, U16(port))
  }

  /** IN_MULTICAST for IPv4 (224.0.0.0/4) and IN6_IS_ADDR_MULTICAST (ff00::/8). */
  function IsMulticast(s: SockAddr): (r: bool)
    requires WellFormed(s)
    ensures r <==> (s.Inet? && s.addr[0] / 16 == 0xe) || (s.Inet6? && s.addr[0] == 0xff)
  {
    match s
    case Inet(a, _) => 224 <= a[0] <= 239
    case Inet6(a, _) => a[0] == 0xff
    case OtherFamily(_) => false
  }

  /** A caller-owned socket structure that the setters update in place. */
  class SockStorage {
    var sa: SockAddr

    constructor (sa: SockAddr)
      ensures this.sa == sa
    {
      this.sa := sa;
    }
  }

  /**
   * setportnumber: store `port` (a `uint16_t`) into an IPv4 or IPv6 address;
   * -1 and no change for NULL or another family.
   */
  method SetPortNumber(s: SockStorage?, port: nat) returns (rc: int)
    requires port < TWO16
    modifies s
    ensures s == null ==> rc == -1
    ensures s != null && old(s.sa).OtherFamily? ==> rc == -1 && s.sa == old(s.sa)
    ensures s != null && !old(s.sa).OtherFamily? ==> rc == 0 && s.sa == WithPort(old(s.sa), port)
  {
    if s == null {
      return -1;
    }
    match s.sa {
      case Inet(a, _) =>
        s.sa := Inet(a, port);
      case Inet6(a, _) =>
        s.sa := Inet6(a, port);
      case OtherFamily(_) =>
        return -1;
    }
    rc := 0;
  }

  /**
   * setport: like setportnumber but takes an `int`, which `htons` truncates
   * to 16 bits; the pointer is not checked for NULL.
   */
  method SetPort(s: SockStorage, port: int) returns (rc: int)
    modifies s
    ensures old(s.sa).OtherFamily? ==> rc == -1 && s.sa == old(s.sa)
    ensures !old(s.sa).OtherFamily? ==> rc == 0 && s.sa == WithPort(old(s.sa), port)
  {
    match s.sa {
      case Inet(a, _) =>
        s.sa := Inet(a, U16(port));
      case Inet6(a, _) =>
        s.sa := Inet6(a, U16(port));
      case OtherFamily(_) =>
        return -1;
    }
    rc := 0;
  }

  /** After a successful set, getportnumber reads back the port stored. */
  lemma GetAfterSet(s: SockAddr, port: int)
    requires !s.OtherFamily?
    ensures GetPortNumber(Some(WithPort(s, port))) == U16(port)
    ensures 0 <= port < TWO16 ==> GetPortNumber(Some(WithPort(s, port))) == port
    ensures AddressMatch(Some(WithPort(s, port)), Some(s)) == 1
  {
  }

  /** address_match is symmetric and, on IPv4/IPv6, reflexive. */
  lemma AddressMatchSymmetric(a: Option<SockAddr>, b: Option<SockAddr>)
    ensures AddressMatch(a, b) == AddressMatch(b, a)
    ensures a.Some? && !a.value.OtherFamily? ==> AddressMatch(a, a) == 1
  {
  }
}
