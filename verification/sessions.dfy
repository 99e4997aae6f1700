/**
 * The per-client state of ka9q-web.c: a session per websocket, kept in a
 * registry list with a counter, and the tuning state of each session (zoom
 * level, displayed span, tuned frequency).
 *
 * The registry is the head-inserted doubly linked list `sessions`, here a
 * sequence head first; `session_mutex` is the ghost flag `locked`. The
 * lookups return with the lock held exactly when they find a session, and
 * delete_session releases it.
 */
module Sessions {
  import opened Bytes

  /** The first SSRC handed out; sessions get even SSRCs from here. */
  const START_SESSION_ID: nat := 1000

  /** The largest number of spectrum bins a session displays. */
  const MAX_BINS: nat := 1620

  /** Sample rates up to this one never show zoom level 0. */
  const WIDE_ZOOM_RATE: int := 64800000

  /** zoom_table: (bin width in Hz, bin count) for each zoom level, widest first. */
  const ZOOM_TABLE: seq<(nat, nat)> := [
    (40000, 1620), (20000, 1620), (16000, 1620), (8000, 1620),
    (4000, 1620), (2000, 1620), (1000, 1620), (800, 1620),
    (400, 1620), (200, 1620), (120, 1620), (80, 1620),
    (40, 1620), (20, 1620), (10, 1620), (5, 1620)]

  /** C's `/ 2` on an `int`: truncation toward zero. */
  function HalfOf(x: int): (r: int)
    ensures x >= 0 ==> r == x / 2
    ensures x < 0 ==> r == -((-x) / 2)
  {
    if x >= 0 then x / 2 else -((-x) / 2)
  }

  // ---------------------------------------------------------------------
  // Zoom

  /**
   * The zoom level zoom_to settles on: the requested level clamped into the
   * table, and level 0 replaced by 1 when the sample rate is at most
   * 64.8 MHz.
   */
  function ZoomLevel(level: int, samprate: int): (r: nat)
    ensures r < |ZOOM_TABLE|
    ensures samprate <= WIDE_ZOOM_RATE ==> r >= 1
    ensures 1 <= level < |ZOOM_TABLE| ==> r == level
    ensures level >= |ZOOM_TABLE| ==> r == |ZOOM_TABLE| - 1
    ensures level <= 0 ==> r == (if samprate <= WIDE_ZOOM_RATE then 1 else 0)
  {
    var clamped := if level >= |ZOOM_TABLE| then |ZOOM_TABLE| - 1 else if level < 0 then 0 else level;
    if samprate <= WIDE_ZOOM_RATE && clamped <= 0 then 1 else clamped
  }

  /** The table's widths strictly decrease and every level shows MAX_BINS bins. */
  lemma ZoomTableShape()
    ensures forall i, j :: 0 <= i < j < |ZOOM_TABLE| ==> ZOOM_TABLE[i].0 > ZOOM_TABLE[j].0
    ensures forall i :: 0 <= i < |ZOOM_TABLE| ==> ZOOM_TABLE[i].1 == MAX_BINS
  {
  }

  /** Zooming in never widens the bins, and zooming out never narrows them. */
  lemma ZoomMonotone(index: int, shift: int, samprate: int)
    requires 0 <= index < |ZOOM_TABLE|
    ensures shift >= 0 ==> ZOOM_TABLE[ZoomLevel(index + shift, samprate)].0 <= ZOOM_TABLE[ZoomLevel(index, samprate)].0
    ensures shift <= 0 ==> ZOOM_TABLE[ZoomLevel(index + shift, samprate)].0 >= ZOOM_TABLE[ZoomLevel(index, samprate)].0
  {
    ZoomTableShape();
  }

  // ---------------------------------------------------------------------
  // The displayed span

  /** Half the displayed span: `(bin_width * bins) / 2` in `unsigned int` arithmetic. */
  function HalfSpan(binWidth: nat, bins: int): (r: nat)
    ensures r < TWO31
  {
    U32(binWidth * U32(bins)) / 2
  }

  /**
   * The centre check_frequency leaves, in the source's 32-bit arithmetic.
   * The edges are computed in `unsigned int` and stored in `int32_t`; the
   * comparison with the `uint32_t` frequency converts them back to
   * unsigned, the clamps compare them as signed. The frequency is re-centred
   * on first; then at most one clamp applies: the low edge below 0 puts the
   * low edge at 0, else the high edge above half the sample rate puts the
   * high edge there.
   */
  function CheckedCenter(center: nat, freq: nat, half: nat, samprate: int): (r: nat)
    ensures r < TWO32
  {
    var c := if freq < U32(I32(center - half)) || freq > U32(I32(center + half)) then freq else center;
    if I32(c - half) < 0 then U32(half)
    else if I32(c + half) > HalfOf(samprate) then U32(HalfOf(samprate) - half)
    else U32(c)
  }

  /** The values below which no 32-bit conversion in check_frequency wraps. */
  const TWO30: int := 0x4000_0000

  /** The tuning values are small enough that check_frequency's arithmetic is exact. */
  predicate Exact(center: nat, freq: nat, half: nat, samprate: int)
  {
    center < TWO30 && freq < TWO30 && half <= HalfOf(samprate) < TWO30
  }

  /**
   * check_frequency when nothing wraps. A low edge below 0 converts to a
   * huge unsigned value, so it always re-centres on the frequency.
   */
  function PlainCenter(center: nat, freq: nat, half: nat, rate2: int): int
  {
    var c := if center < half || freq < center - half || freq > center + half then freq else center;
    if c < half then half
    else if c + half > rate2 then rate2 - half
    else c
  }

  /** With no wrap-around, check_frequency is the plain arithmetic above. */
  lemma CheckedIsPlain(center: nat, freq: nat, half: nat, samprate: int)
    requires Exact(center, freq, half, samprate)
    ensures CheckedCenter(center, freq, half, samprate) == PlainCenter(center, freq, half, HalfOf(samprate))
  {
    assert I32(center + half) == center + half;
    if center < half {
      assert I32(center - half) == center - half;
      assert U32(I32(center - half)) == center - half + TWO32;
    } else {
      assert U32(I32(center - half)) == center - half;
    }
    var c := if center < half || freq < center - half || freq > center + half then freq else center;
    assert I32(c - half) == c - half && I32(c + half) == c + half;
  }

  /**
   * When the span fits in half the sample rate, check_frequency leaves the
   * whole span inside [0, samprate/2].
   */
  lemma SpanInside(center: nat, freq: nat, half: nat, samprate: int)
    requires Exact(center, freq, half, samprate) && 2 * half <= HalfOf(samprate)
    ensures var c := CheckedCenter(center, freq, half, samprate);
      half <= c && c + half <= HalfOf(samprate)
  {
    CheckedIsPlain(center, freq, half, samprate);
  }

  /**
   * A frequency that can be shown with its span inside [0, samprate/2] is
   * inside the span check_frequency leaves.
   */
  lemma FrequencyShown(center: nat, freq: nat, half: nat, samprate: int)
    requires Exact(center, freq, half, samprate) && 2 * half <= HalfOf(samprate)
    requires half <= freq <= HalfOf(samprate) - half
    ensures var c := CheckedCenter(center, freq, half, samprate);
      c - half <= freq <= c + half
  {
    CheckedIsPlain(center, freq, half, samprate);
  }

  /** Checking a second time changes nothing (websocket_cb's 'F' key checks twice). */
  lemma CheckIdempotent(center: nat, freq: nat, half: nat, samprate: int)
    requires Exact(center, freq, half, samprate) && 2 * half <= HalfOf(samprate)
    ensures var c := CheckedCenter(center, freq, half, samprate);
      CheckedCenter(c, freq, half, samprate) == c
  {
    var c := CheckedCenter(center, freq, half, samprate);
    CheckedIsPlain(center, freq, half, samprate);
    SpanInside(center, freq, half, samprate);
    CheckedIsPlain(c, freq, half, samprate);
  }

  /**
   * check_frequency's arithmetic: the edges as `int32_t`, compared with the
   * `uint32_t` frequency as unsigned and with 0 and half the sample rate as
   * signed.
   */
  method Recentre(center: nat, freq: nat, half: nat, samprate: int) returns (c: nat)
    requires center < TWO32 && freq < TWO32
    ensures c == CheckedCenter(center, freq, half, samprate)
  {
    c := center;
    var minF: int := I32(c - half);
    var maxF: int := I32(c + half);
    if freq < U32(minF) || freq > U32(maxF) {
      c := freq;
      minF := I32(c - half);
      maxF := I32(c + half);
    }
    if minF < 0 {
      c := U32(half);
    } else if maxF > HalfOf(samprate) {
      c := U32(HalfOf(samprate) - half);
    }
  }

  // ---------------------------------------------------------------------
  // A session

  /** One websocket client, as `home` creates it. */
  class Session {
    /** The SSRC of its audio channel; its spectrum channel is `ssrc + 1`. */
    const ssrc: nat
    /** Its websocket, by identity. */
    const ws: nat
    var spectrumActive: bool
    var audioActive: bool
    /** The tuned frequency, in Hz (`uint32_t`). */
    var frequency: nat
    /** The centre of the displayed span, in Hz (`uint32_t`). */
    var centerFrequency: nat
    /** The width of one bin, in Hz (`uint32_t`). */
    var binWidth: nat
    var bins: int
    var zoomIndex: int
    /** Set once the receiver description has been sent. */
    var once: bool
    var requestedPreset: seq<byte>

    /** Every field holds a value of its C type, and the zoom level is one of the table's. */
    ghost predicate Valid()
      reads this
    {
      ssrc < TWO32 && frequency < TWO32 && centerFrequency < TWO32 && binWidth < TWO32 &&
      -TWO31 <= bins < TWO31 && 0 <= zoomIndex < |ZOOM_TABLE|
    }

    /** calloc, then the defaults `home` sets. */
    constructor (ssrc: nat, ws: nat)
      requires ssrc < TWO32
      ensures Valid() && this.ssrc == ssrc && this.ws == ws
      ensures spectrumActive && !audioActive && !once
      ensures frequency == 10000000 && centerFrequency == 16200000
      ensures bins == MAX_BINS && binWidth == 20000 && zoomIndex == 1
      ensures requestedPreset == ['a' as byte, 'm' as byte]
    {
      this.ssrc := ssrc;
      this.ws := ws;
      spectrumActive := true;
      audioActive := false;
      frequency := 10000000;
      centerFrequency := 16200000;
      bins := MAX_BINS;
      binWidth := 20000;
      zoomIndex := 1;
      once := false;
      requestedPreset := ['a' as byte, 'm' as byte];
    }

    /** zoom_to: the clamped level and that level's bin width and count. */
    method ZoomTo(level: int, samprate: int)
      requires Valid()
      modifies this
      ensures Valid()
      ensures zoomIndex == ZoomLevel(level, samprate)
      ensures binWidth == ZOOM_TABLE[zoomIndex].0 && bins == ZOOM_TABLE[zoomIndex].1
      ensures frequency == old(frequency) && centerFrequency == old(centerFrequency)
      ensures once == old(once) && audioActive == old(audioActive) && spectrumActive == old(spectrumActive)
      ensures requestedPreset == old(requestedPreset)
    {
      var tableSize := |ZOOM_TABLE|;
      zoomIndex := level;
      if zoomIndex >= tableSize {
        zoomIndex := tableSize - 1;
      }
      if zoomIndex < 0 {
        zoomIndex := 0;
      }
      if samprate <= WIDE_ZOOM_RATE && zoomIndex <= 0 {
        zoomIndex := 1;
      }
      binWidth := ZOOM_TABLE[zoomIndex].0;
      bins := ZOOM_TABLE[zoomIndex].1;
    }

    /** zoom: zoom_to the current level plus `shift`. */
    method Zoom(shift: int, samprate: int)
      requires Valid() && -TWO31 <= zoomIndex + shift < TWO31
      modifies this
      ensures Valid()
      ensures zoomIndex == ZoomLevel(old(zoomIndex) + shift, samprate)
      ensures binWidth == ZOOM_TABLE[zoomIndex].0 && bins == ZOOM_TABLE[zoomIndex].1
      ensures frequency == old(frequency) && centerFrequency == old(centerFrequency)
      ensures once == old(once) && audioActive == old(audioActive) && spectrumActive == old(spectrumActive)
      ensures requestedPreset == old(requestedPreset)
    {
      ZoomTo(zoomIndex + shift, samprate);
    }

    /** check_frequency: re-centre the span on the frequency, then clamp it. */
    method CheckFrequency(samprate: int)
      requires Valid()
      modifies this
      ensures Valid()
      ensures centerFrequency == CheckedCenter(old(centerFrequency), frequency, HalfSpan(binWidth, bins), samprate)
      ensures frequency == old(frequency) && binWidth == old(binWidth) && bins == old(bins)
      ensures zoomIndex == old(zoomIndex) && once == old(once)
      ensures audioActive == old(audioActive) && spectrumActive == old(spectrumActive)
      ensures requestedPreset == old(requestedPreset)
    {
      var half := HalfSpan(binWidth, bins);
      centerFrequency := Recentre(centerFrequency, frequency, half, samprate);
    }
  }

  // ---------------------------------------------------------------------
  // The registry

  /** The position of the first session, from the head, with this SSRC. */
  function FindSsrc(ss: seq<Session>, ssrc: nat): (r: Option<nat>)
    ensures r.Some? ==>
      && r.value < |ss| && ss[r.value].ssrc == ssrc
      && forall j :: 0 <= j < r.value ==> ss[j].ssrc != ssrc
    ensures r.None? ==> forall j :: 0 <= j < |ss| ==> ss[j].ssrc != ssrc
  {
    if |ss| == 0 then None
    else if ss[0].ssrc == ssrc then Some(0)
    else
      var r := FindSsrc(ss[1..], ssrc);
      if r.Some? then Some(r.value + 1) else None
  }

  /** The position of the first session, from the head, with this websocket. */
  function FindWs(ss: seq<Session>, ws: nat): (r: Option<nat>)
    ensures r.Some? ==>
      && r.value < |ss| && ss[r.value].ws == ws
      && forall j :: 0 <= j < r.value ==> ss[j].ws != ws
    ensures r.None? ==> forall j :: 0 <= j < |ss| ==> ss[j].ws != ws
  {
    if |ss| == 0 then None
    else if ss[0].ws == ws then Some(0)
    else
      var r := FindWs(ss[1..], ws);
      if r.Some? then Some(r.value + 1) else None
  }

  /** The position of a session in the list. */
  function IndexOf(ss: seq<Session>, sp: Session): (i: nat)
    requires sp in ss
    ensures i < |ss| && ss[i] == sp && sp !in ss[..i]
  {
    if ss[0] == sp then 0 else 1 + IndexOf(ss[1..], sp)
  }

  /** No session is in the list twice. */
  predicate Distinct(ss: seq<Session>)
  {
    forall i, j :: 0 <= i < j < |ss| ==> ss[i] != ss[j]
  }

  /** The session list, its counter and the lock that guards them. */
  class Registry {
    var sessions: seq<Session>
    var nsessions: int
    ghost var locked: bool

    /** The counter counts the list, and no session is listed twice. */
    ghost predicate Valid()
      reads this
    {
      nsessions == |sessions| && Distinct(sessions)
    }

    constructor ()
      ensures Valid() && sessions == [] && !locked
    {
      sessions := [];
      nsessions := 0;
      locked := false;
    }

    /** add_session: the new session becomes the head; the lock is taken and released. */
    method AddSession(sp: Session)
      requires Valid() && !locked && sp !in sessions
      modifies this
      ensures Valid() && !locked
      ensures sessions == [sp] + old(sessions) && nsessions == old(nsessions) + 1
    {
      locked := true;
      sessions := [sp] + sessions;
      nsessions := nsessions + 1;
      locked := false;
    }

    /**
     * delete_session, called with the lock held: unlinks exactly `sp`, the
     * others keep their order, the counter drops by one and the lock is
     * released.
     */
    method DeleteSession(sp: Session)
      requires Valid() && locked && sp in sessions
      modifies this
      ensures Valid() && !locked
      ensures var i := IndexOf(old(sessions), sp);
        sessions == old(sessions)[..i] + old(sessions)[i + 1..]
      ensures nsessions == old(nsessions) - 1
      ensures sp !in sessions
      ensures forall s :: s in old(sessions) && s != sp ==> s in sessions
      ensures forall s :: s in sessions ==> s in old(sessions)
    {
      var i := IndexOf(sessions, sp);
      ghost var before := sessions;
      sessions := sessions[..i] + sessions[i + 1..];
      nsessions := nsessions - 1;
      locked := false;
      forall s | s in before && s != sp
        ensures s in sessions
      {
        var j :| 0 <= j < |before| && before[j] == s;
        if j < i {
          assert sessions[j] == s;
        } else {
          assert j > i && sessions[j - 1] == s;
        }
      }
    }

    /** `pthread_mutex_unlock(&session_mutex)` after a found session has been used. */
    method Unlock()
      requires Valid() && locked
      modifies this
      ensures Valid() && !locked && sessions == old(sessions) && nsessions == old(nsessions)
    {
      locked := false;
    }

    /**
     * find_session_from_ssrc: the first session from the head whose SSRC
     * equals `ssrc` converted to unsigned. The lock is held on return
     * exactly when one is found.
     */
    method FindSessionFromSsrc(ssrc: int) returns (sp: Session?)
      requires Valid() && !locked
      modifies this
      ensures Valid() && sessions == old(sessions) && nsessions == old(nsessions)
      ensures locked <==> sp != null
      ensures match FindSsrc(sessions, U32(ssrc))
        case Some(i) => sp == sessions[i]
        case None => sp == null
    {
      locked := true;
      var key := U32(ssrc);
      var i := 0;
      while i < |sessions|
        invariant i <= |sessions|
        invariant forall j :: 0 <= j < i ==> sessions[j].ssrc != key
      {
        if sessions[i].ssrc == key {
          assert FindSsrc(sessions, key) == Some(i) by {
            FindSsrcIs(sessions, key, i);
          }
          return sessions[i];
        }
        i := i + 1;
      }
      locked := false;
      return null;
    }

    /**
     * find_session_from_websocket: the first session from the head on this
     * websocket; the lock is held on return exactly when one is found.
     */
    method FindSessionFromWebsocket(ws: nat) returns (sp: Session?)
      requires Valid() && !locked
      modifies this
      ensures Valid() && sessions == old(sessions) && nsessions == old(nsessions)
      ensures locked <==> sp != null
      ensures match FindWs(sessions, ws)
        case Some(i) => sp == sessions[i]
        case None => sp == null
    {
      locked := true;
      var i := 0;
      while i < |sessions|
        invariant i <= |sessions|
        invariant forall j :: 0 <= j < i ==> sessions[j].ws != ws
      {
        if sessions[i].ws == ws {
          assert FindWs(sessions, ws) == Some(i) by {
            FindWsIs(sessions, ws, i);
          }
          return sessions[i];
        }
        i := i + 1;
      }
      locked := false;
      return null;
    }

    /**
     * The SSRC `home` gives a new session: 1000 with no sessions, else the
     * first `1000 + 2i`, for `i` below the session count, that no session
     * has, else `1000 + 2 * nsessions`. The lock is released each time a
     * probe finds a session.
     */
    method AllocateSsrc() returns (ssrc: nat)
      requires Valid() && !locked && nsessions < 0x1000_0000
      modifies this
      ensures Valid() && !locked && sessions == old(sessions) && nsessions == old(nsessions)
      ensures ssrc >= START_SESSION_ID && (ssrc - START_SESSION_ID) % 2 == 0
      ensures (ssrc - START_SESSION_ID) / 2 <= nsessions
      ensures forall k :: 0 <= k < (ssrc - START_SESSION_ID) / 2 ==>
        FindSsrc(sessions, START_SESSION_ID + 2 * k).Some?
      ensures FindSsrc(sessions, ssrc).None?
    {
      if nsessions == 0 {
        return START_SESSION_ID;
      }
      var i := 0;
      while i < nsessions
        invariant 0 <= i <= nsessions && Valid() && !locked
        invariant sessions == old(sessions) && nsessions == old(nsessions)
        invariant forall k :: 0 <= k < i ==> FindSsrc(sessions, START_SESSION_ID + 2 * k).Some?
      {
        var s := FindSessionFromSsrc(START_SESSION_ID + i * 2);
        if s == null {
          break;
        }
        locked := false;
        i := i + 1;
      }
      ssrc := START_SESSION_ID + i * 2;
      if i == nsessions {
        AllTakenThenFree(sessions);
      }
    }
  }

  /** A match with no match before it is what FindSsrc finds. */
  lemma FindSsrcIs(ss: seq<Session>, ssrc: nat, i: nat)
    requires i < |ss| && ss[i].ssrc == ssrc && forall j :: 0 <= j < i ==> ss[j].ssrc != ssrc
    ensures FindSsrc(ss, ssrc) == Some(i)
  {
    var r := FindSsrc(ss, ssrc);
    if r.None? || r.value != i {
      assert false;
    }
  }

  /** A match with no match before it is what FindWs finds. */
  lemma FindWsIs(ss: seq<Session>, ws: nat, i: nat)
    requires i < |ss| && ss[i].ws == ws && forall j :: 0 <= j < i ==> ss[j].ws != ws
    ensures FindWs(ss, ws) == Some(i)
  {
    var r := FindWs(ss, ws);
    if r.None? || r.value != i {
      assert false;
    }
  }

  /** The candidate SSRCs `1000 + 2k` for `k < n`. */
  function Candidates(n: nat): (r: set<nat>)
    ensures |r| == n
    ensures forall x :: x in r <==> START_SESSION_ID <= x < START_SESSION_ID + 2 * n && (x - START_SESSION_ID) % 2 == 0
  {
    if n == 0 then {}
    else
      var prev := Candidates(n - 1);
      assert START_SESSION_ID + 2 * (n - 1) !in prev;
      prev + {START_SESSION_ID + 2 * (n - 1)}
  }

  /** The SSRCs of the sessions, in list order. */
  function Ssrcs(ss: seq<Session>): (r: seq<nat>)
    ensures |r| == |ss|
    ensures forall x :: x in r <==> FindSsrc(ss, x).Some?
  {
    var r := seq(|ss|, j requires 0 <= j < |ss| => ss[j].ssrc);
    assert forall x :: FindSsrc(ss, x).Some? ==> x in r by {
      forall x | FindSsrc(ss, x).Some?
        ensures x in r
      {
        assert r[FindSsrc(ss, x).value] == x;
      }
    }
    r
  }

  /** The distinct values of a sequence: no more of them than its length. */
  function SetOf(vals: seq<nat>): (r: set<nat>)
    ensures |r| <= |vals|
    ensures forall x :: x in r <==> x in vals
  {
    if vals == [] then {}
    else
      var front := vals[..|vals| - 1];
      assert vals == front + [vals[|vals| - 1]];
      SetOf(front) + {vals[|vals| - 1]}
  }

  /** A subset is no larger than its superset. */
  lemma SubsetSize(a: set<nat>, b: set<nat>)
    requires a <= b
    ensures |a| <= |b|
  {
    assert b == a + (b - a);
  }

  /**
   * The pigeonhole step of the allocation: when the `n` values include every
   * candidate below `1000 + 2n`, they do not include `1000 + 2n`.
   */
  lemma Pigeonhole(vals: seq<nat>)
    requires forall k :: 0 <= k < |vals| ==> START_SESSION_ID + 2 * k in vals
    ensures START_SESSION_ID + 2 * |vals| !in vals
  {
    var n := |vals|;
    var next: nat := START_SESSION_ID + 2 * n;
    if next in vals {
      var cands := Candidates(n);
      var used := SetOf(vals);
      forall x | x in cands
        ensures x in used
      {
        var k := (x - START_SESSION_ID) / 2;
        assert x == START_SESSION_ID + 2 * k && 0 <= k < n;
      }
      assert next !in cands;
      var more: set<nat> := cands + {next};
      SubsetSize(more, used);
      assert false;
    }
  }

  /** When every candidate below `1000 + 2n` is taken by one of `n` sessions, the next one is free. */
  lemma AllTakenThenFree(ss: seq<Session>)
    requires forall k :: 0 <= k < |ss| ==> FindSsrc(ss, START_SESSION_ID + 2 * k).Some?
    ensures FindSsrc(ss, START_SESSION_ID + 2 * |ss|).None?
  {
    var vals := Ssrcs(ss);
    Pigeonhole(vals);
  }
}
