/**
 * The address-handling parts of multicast.c that do not touch the network:
 * splitting a `name[:port][,iface]` target in resolve_mcast, the
 * administratively scoped group address of make_maddr, and the
 * reverse-lookup cache of formatsock.
 *
 * Name resolution (getaddrinfo) and reverse lookup (getnameinfo) are not
 * modelled; they are function parameters.
 */
module Multicast {
  import opened Bytes
  import opened Sockaddr
  import Fnv

  /** Linux PATH_MAX: resolve_mcast copies the target into a buffer this large. */
  const PATH_MAX: nat := 4096

  /** The characters of a C string: no NUL inside. */
  predicate CStr(s: string)
  {
    forall i :: 0 <= i < |s| ==> s[i] != '\0'
  }

  /** strlcpy into a buffer of `n + 1` bytes: at most `n` characters survive. */
  function Truncate(s: string, n: nat): (r: string)
    ensures |r| <= n && |r| <= |s| && r == s[..|r|]
    ensures |r| == if |s| <= n then |s| else n
    ensures |s| <= n ==> r == s
  {
    if |s| <= n then s else s[..n]
  }

  /** strrchr: the position of the last `c` in `s`, if any. */
  function LastIndex(s: string, c: char): (r: Option<nat>)
    ensures r.None? <==> c !in s
    ensures r.Some? ==> r.value < |s| && s[r.value] == c && c !in s[r.value + 1..]
  {
    if |s| == 0 then None
    else if s[|s| - 1] == c then Some(|s| - 1)
    else
      var r := LastIndex(s[..|s| - 1], c);
      assert r.Some? ==> s[r.value + 1..] == s[..|s| - 1][r.value + 1..] + [s[|s| - 1]];
      assert r.None? ==> s == s[..|s| - 1] + [s[|s| - 1]];
      r
  }

  // ---------------------------------------------------------------------
  // resolve_mcast: the target string

  /** `s` split at its last `c`, as `*strrchr(s, c) = '\0'` splits a buffer. */
  datatype Cut = Cut(before: string, after: Option<string>)

  /** The text joined back with its separator. */
  function Joined(r: Cut, c: char): string
  {
    r.before + (if r.after.Some? then [c] + r.after.value else [])
  }

  function CutLast(s: string, c: char): (r: Cut)
    ensures Joined(r, c) == s
    ensures r.after.Some? ==> c !in r.after.value
    ensures r.after.None? ==> c !in s
  {
    match LastIndex(s, c)
    case None => Cut(s, None)
    case Some(k) =>
      assert s == s[..k] + [c] + s[k + 1..];
      Cut(s[..k], Some(s[k + 1..]))
  }

  /** The position of a `c` with none after it is what strrchr finds. */
  lemma LastIndexIs(s: string, c: char, k: nat)
    requires k < |s| && s[k] == c && c !in s[k + 1..]
    ensures LastIndex(s, c) == Some(k)
  {
    var r := LastIndex(s, c);
    if r.value < k {
      assert false;
    } else if r.value > k {
      assert false;
    }
  }

  /** Cutting is the inverse of joining, for any text whose tail has no separator. */
  lemma CutJoined(r: Cut, c: char)
    requires r.after.Some? ==> c !in r.after.value
    requires r.after.None? ==> c !in r.before
    ensures CutLast(Joined(r, c), c) == r
  {
    var s := Joined(r, c);
    if r.after.Some? {
      assert s[|r.before|] == c && s[|r.before| + 1..] == r.after.value;
      LastIndexIs(s, c, |r.before|);
      assert s[..|r.before|] == r.before;
    }
  }

  /** The parts of a target: host, then the text after ':' and after ','. */
  datatype Split = Split(host: string, port: Option<string>, iface: Option<string>)

  /** The target the parts come from: `host[:port][,iface]`. */
  function Unsplit(r: Split): string
  {
    Joined(Cut(Joined(Cut(r.host, r.port), ':'), r.iface), ',')
  }

  /** The shape a split has: no ',' after the last one, no ':' after the last one before it. */
  predicate SplitShape(r: Split)
  {
    && (r.iface.Some? ==> ',' !in r.iface.value)
    && (r.iface.None? ==> ',' !in Joined(Cut(r.host, r.port), ':'))
    && (r.port.Some? ==> ':' !in r.port.value)
    && (r.port.None? ==> ':' !in r.host)
  }

  /**
   * The interface is what follows the last ','; the port is what follows
   * the last ':' of the text before it. Putting the parts back together
   * with their separators gives the target again.
   */
  function SplitTarget(target: string): (r: Split)
    ensures SplitShape(r) && Unsplit(r) == target
  {
    var comma := CutLast(target, ',');
    var colon := CutLast(comma.before, ':');
    Split(colon.before, colon.after, comma.after)
  }

  /** Every `host[:port][,iface]` of that shape splits back into its parts. */
  lemma SplitUnsplit(r: Split)
    requires SplitShape(r)
    ensures SplitTarget(Unsplit(r)) == r
  {
    var hp := Joined(Cut(r.host, r.port), ':');
    CutJoined(Cut(hp, r.iface), ',');
    CutJoined(Cut(r.host, r.port), ':');
  }

  /** A host name without a '.' is looked up in the `.local` domain. */
  function FullHost(host: string): (r: string)
    ensures '.' !in host ==> r == host + ".local"
    ensures '.' in host ==> r == host
  {
    if '.' !in host then host + ".local" else host
  }

  /**
   * resolve_mcast: -1 for a missing or empty target or a missing socket.
   * Otherwise the interface buffer, when there is one, receives the text
   * after the last ',' (empty if none), cut to its size; the socket
   * receives the address `lookup` gives for the full host and port, and
   * `default_port` when the target names no port.
   */
  method ResolveMcast(group: Option<string>, groupSock: SockStorage?, defaultPort: int,
                      ifaceLen: Option<int>, lookup: (string, Option<string>) -> SockAddr)
    returns (rc: int, iface: Option<string>)
    requires group.Some? ==> CStr(group.value)
    modifies groupSock
    ensures group.None? || |group.value| == 0 || groupSock == null ==>
      rc == -1 && iface.None? && (groupSock != null ==> groupSock.sa == old(groupSock.sa))
    ensures group.Some? && |group.value| > 0 && groupSock != null ==>
      var s := SplitTarget(Truncate(group.value, PATH_MAX - 1));
      var found := lookup(FullHost(s.host), s.port);
      && rc == 0
      && iface == (if ifaceLen.Some? && ifaceLen.value > 0
                   then Some(Truncate(if s.iface.Some? then s.iface.value else "", ifaceLen.value - 1))
                   else None)
      && groupSock.sa == (if s.port.None? && !found.OtherFamily? then WithPort(found, U16(defaultPort)) else found)
  {
    if group.None? || |group.value| == 0 || groupSock == null {
      return -1, None;
    }
    var host := Truncate(group.value, PATH_MAX - 1);
    var s := SplitTarget(host);
    iface := None;
    if ifaceLen.Some? && ifaceLen.value > 0 {
      if s.iface.None? {
        iface := Some("");
      } else {
        iface := Some(Truncate(s.iface.value, ifaceLen.value - 1));
      }
    }
    groupSock.sa := lookup(FullHost(s.host), s.port);
    if s.port.None? {
      var _ := SetPortNumber(groupSock, U16(defaultPort));
    }
    rc := 0;
  }

  // ---------------------------------------------------------------------
  // make_maddr

  /** Bits 8-22 of a 32-bit word: `(w & 0x007fff00) >> 8`. */
  function MidBits(w: nat): nat
  {
    (w / 0x100) % 0x8000
  }

  /**
   * make_maddr on the hash value: 239 in the top byte and the hash's low 24
   * bits below it; if bits 8-22 are all zero the low byte is copied into
   * bits 8-15, and if they are still zero bit 20 is set. Each OR lands on
   * bits known to be zero, so it is written as an addition.
   */
  function MaddrFromHash(hash: nat): nat
  {
    var addr := 0xef00_0000 + hash % 0x100_0000;
    var addr1 := if MidBits(addr) == 0 then addr + (addr % 0x100) * 0x100 else addr;
    if MidBits(addr1) == 0 then addr1 + 0x10_0000 else addr1
  }

  /** make_maddr(arg): the FNV-1 hash of the name's bytes, placed in 239/8. */
  function MakeMaddr(arg: seq<bv8>): nat
  {
    MaddrFromHash(Fnv.Hash(arg, |arg|) as nat)
  }

  /** 0xef000000 plus a 24-bit value keeps 239 on top and the value below. */
  lemma PlaceBits(low: nat)
    requires low < 0x100_0000
    ensures (0xef00_0000 + low) / 0x100_0000 == 239
    ensures (0xef00_0000 + low) % 0x100_0000 == low
    ensures MidBits(0xef00_0000 + low) == MidBits(low)
  {
  }

  /**
   * The address lies in 239.0.0.0/8 (section 6.1 of RFC 2365), and bits
   * 8-22 are not all zero, so it is outside 239.0.0.0/24 and
   * 239.128.0.0/24; when bits 8-22 of the hash are not all zero the low 24
   * bits are the hash's own.
   */
  lemma {:induction false} MaddrBits(hash: nat)
    ensures var a := MaddrFromHash(hash);
      && a / 0x100_0000 == 239 && a < TWO32
      && MidBits(a) != 0
      && (MidBits(hash % 0x100_0000) != 0 ==> a % 0x100_0000 == hash % 0x100_0000)
  {
    var low := hash % 0x100_0000;
    PlaceBits(low);
    if MidBits(low) == 0 {
      CopyLowByte(low);
    }
  }

  /**
   * When bits 8-22 of a 24-bit value are zero, copying its low byte into
   * bits 8-15 keeps 239 on top and makes bits 8-22 that byte; if the byte is
   * zero too, setting bit 20 makes them non-zero.
   */
  lemma CopyLowByte(low: nat)
    requires low < 0x100_0000 && MidBits(low) == 0
    ensures var b := low % 0x100;
      var a := 0xef00_0000 + low + b * 0x100;
      && (0xef00_0000 + low) % 0x100 == b
      && a / 0x100_0000 == 239 && a < TWO32 && MidBits(a) == b
      && (b == 0 ==> (a + 0x10_0000) / 0x100_0000 == 239 && a + 0x10_0000 < TWO32 && MidBits(a + 0x10_0000) != 0)
  {
    // only bit 23 may be set above the low byte: 239.0.0.x or 239.128.0.x
    var q, b := low / 0x100, low % 0x100;
    assert q == 0 || q == 0x8000;
    var a := 0xef00_0000 + low + b * 0x100;
    assert a == (0xef_0000 + q + b) * 0x100 + b;
    assert a / 0x100 == 0xef_0000 + q + b;
    if b == 0 {
      assert (a + 0x10_0000) / 0x100 == 0xef_0000 + q + 0x1000;
    }
  }

  /** The same, for make_maddr itself: an IPv4 multicast group (224.0.0.0/4), in 239/8. */
  lemma MakeMaddrScoped(arg: seq<bv8>)
    ensures var a := MakeMaddr(arg);
      && a < TWO32 && a / 0x100_0000 == 239 && MidBits(a) != 0
      && 224 <= a / 0x100_0000 <= 239
  {
    MaddrBits(Fnv.Hash(arg, |arg|) as nat);
  }

  // ---------------------------------------------------------------------
  // formatsock's cache

  /** One cached reverse lookup: the socket and its "host:port" text. */
  datatype CacheEntry = CacheEntry(sock: SockAddr, hostport: string)

  /** The cache's match test: same address (address_match) and same port. */
  predicate Matches(cached: SockAddr, sa: SockAddr)
  {
    AddressMatch(Some(cached), Some(sa)) != 0 && GetPortNumber(Some(cached)) == GetPortNumber(Some(sa))
  }

  /** The first entry, from the head, that matches `sa`. */
  function FindEntry(entries: seq<CacheEntry>, sa: SockAddr): (r: Option<nat>)
    ensures r.Some? ==>
      && r.value < |entries| && Matches(entries[r.value].sock, sa)
      && forall j :: 0 <= j < r.value ==> !Matches(entries[j].sock, sa)
    ensures r.None? ==> forall j :: 0 <= j < |entries| ==> !Matches(entries[j].sock, sa)
  {
    if |entries| == 0 then None
    else if Matches(entries[0].sock, sa) then Some(0)
    else
      var r := FindEntry(entries[1..], sa);
      if r.Some? then Some(r.value + 1) else None
  }

  /** Entry `i` unlinked and put at the head; the others in their old order. */
  function MoveToFront(entries: seq<CacheEntry>, i: nat): seq<CacheEntry>
    requires i < |entries|
  {
    [entries[i]] + entries[..i] + entries[i + 1..]
  }

  /**
   * The text a new entry gets: "host:port" from the numeric lookup, or
   * "host(name):port" when a full lookup was asked for and found a name
   * other than the numeric host (0.0.0.0 is never looked up).
   */
  function HostPort(sa: SockAddr, full: bool, numericHost: SockAddr -> string,
                    numericServ: SockAddr -> string, hostName: SockAddr -> string): string
  {
    var host := numericHost(sa);
    var port := numericServ(sa);
    var name := if full && host != "0.0.0.0" then hostName(sa) else "";
    if full && |name| > 0 && name != host then host + "(" + name + "):" + port
    else host + ":" + port
  }

  /** The head-first cache list, updated in place by formatsock. */
  class FormatCache {
    var entries: seq<CacheEntry>

    constructor ()
      ensures entries == []
    {
      entries := [];
    }

    /**
     * formatsock: "(NULL)" for no socket, no text for a family other than
     * IPv4/IPv6. A hit returns the cached text and moves the entry to the
     * head; a miss puts a new entry at the head.
     */
    method Format(s: Option<SockAddr>, full: bool, numericHost: SockAddr -> string,
                  numericServ: SockAddr -> string, hostName: SockAddr -> string)
      returns (r: Option<string>)
      modifies this
      ensures s.None? ==> r == Some("(NULL)") && entries == old(entries)
      ensures s.Some? && s.value.OtherFamily? ==> r.None? && entries == old(entries)
      ensures s.Some? && !s.value.OtherFamily? ==>
        match FindEntry(old(entries), s.value)
        case Some(i) => r == Some(old(entries)[i].hostport) && entries == MoveToFront(old(entries), i)
        case None =>
          var text := HostPort(s.value, full, numericHost, numericServ, hostName);
          r == Some(text) && entries == [CacheEntry(s.value, text)] + old(entries)
    {
      if s.None? {
        return Some("(NULL)");
      }
      var sa := s.value;
      if sa.OtherFamily? {
        return None;
      }
      var i := 0;
      while i < |entries|
        invariant i <= |entries| && entries == old(entries)
        invariant forall j :: 0 <= j < i ==> !Matches(entries[j].sock, sa)
      {
        if Matches(entries[i].sock, sa) {
          r := Some(entries[i].hostport);
          if i != 0 {
            entries := [entries[i]] + entries[..i] + entries[i + 1..];
          }
          assert MoveToFront(old(entries), 0) == old(entries);
          return;
        }
        i := i + 1;
      }
      var text := HostPort(sa, full, numericHost, numericServ, hostName);
      entries := [CacheEntry(sa, text)] + entries;
      r := Some(text);
    }
  }

  /** Moving an entry to the head loses and duplicates nothing; it is then found first. */
  lemma MoveToFrontFound(entries: seq<CacheEntry>, sa: SockAddr)
    requires FindEntry(entries, sa).Some?
    ensures var i := FindEntry(entries, sa).value;
      && multiset(MoveToFront(entries, i)) == multiset(entries)
      && FindEntry(MoveToFront(entries, i), sa) == Some(0)
      && MoveToFront(entries, i)[0] == entries[i]
  {
    var i := FindEntry(entries, sa).value;
    var m := MoveToFront(entries, i);
    assert entries == entries[..i] + [entries[i]] + entries[i + 1..];
    assert m[0] == entries[i];
    assert FindEntry(m, sa) == Some(0);
  }

  /** A new entry for an IPv4/IPv6 socket is found first by the next lookup of that socket. */
  lemma NewEntryFound(entries: seq<CacheEntry>, sa: SockAddr, text: string)
    requires !sa.OtherFamily?
    ensures FindEntry([CacheEntry(sa, text)] + entries, sa) == Some(0)
  {
    AddressMatchSymmetric(Some(sa), Some(sa));
  }

  /**
   * Formatting the same socket twice: the second call is a hit at the head
   * that returns the text of the first and leaves the cache as it is.
   */
  lemma SecondLookupHits(entries: seq<CacheEntry>, sa: SockAddr, text: string)
    requires !sa.OtherFamily?
    ensures var after := match FindEntry(entries, sa)
        case Some(i) => MoveToFront(entries, i)
        case None => [CacheEntry(sa, text)] + entries;
      && FindEntry(after, sa) == Some(0)
      && MoveToFront(after, 0) == after
      && |after| <= |entries| + 1
      && multiset(entries) <= multiset(after)
  {
    match FindEntry(entries, sa) {
      case Some(i) =>
        MoveToFrontFound(entries, sa);
      case None =>
        NewEntryFound(entries, sa, text);
    }
  }
}
