/**
 * The spectrum side of ka9q-web.c: extract_powers and extract_noise scan
 * the status records of the spectrum and audio channels, ctrl_thread
 * rotates the bins so the lowest frequency comes first, and the radio
 * status frame carries the receiver description only once per session.
 *
 * Both scanners walk a record exactly as the decode_status.c scanners do
 * (see Scan). extract_powers has one twist: after the BIN_DATA loop has
 * advanced `cp` past the floats it read, the common `cp += optlen` after
 * the switch advances it again, so the scan resumes 4 * count bytes past
 * the end of the BIN_DATA field.
 */
module Spectrum {
  import opened Bytes
  import opened Tlv
  import opened Scan
  import opened Rtp
  import Sessions

  /** SPECT_DEMOD: the demodulator type of a spectrum channel. */
  const SPECT_DEMOD: int := 3
  /** The bin count extract_powers starts from, before any BIN_DATA. */
  const UNSET_COUNT: int := 1234567

  /** What extract_powers has gathered so far: its outputs and its two counters. */
  datatype Gathered = Gathered(
    time: nat,               // *time, from GPS_TIME
    freq: DoubleValue,       // *freq, from RADIO_FREQUENCY
    binBw: FloatValue,       // *bin_bw, from NONCOHERENT_BIN_BW
    ifPower: FloatValue,     // sp->if_power, from IF_POWER
    count: int,              // l_count: the floats in BIN_DATA
    ccount: int,             // l_ccount: the BIN_COUNT value
    power: seq<FloatValue>)  // the caller's power array

  /** What the switch does with one field. */
  datatype Effect =
    | Return(code: int)                  // an early `return`
    | Continue(g: Gathered, extra: nat)  // new state; bytes the BIN_DATA loop advanced

  /** A scanner's switch: what it does with a field of the given kind and value. */
  type FieldSwitch = (byte, seq<byte>, Gathered) -> Effect

  /** How a scan ends: an early return, or the end of the loop. */
  datatype Outcome =
    | Stopped(code: int, g: Gathered)
    | Finished(g: Gathered)

  /** The state an outcome leaves the outputs in. */
  function Final(o: Outcome): Gathered
  {
    match o
    case Stopped(_, g) => g
    case Finished(g) => g
  }

  /** The floats of a BIN_DATA value, each `decode_float(cp, 4)` of the next 4 bytes. */
  function Bins(v: seq<byte>, count: nat): (r: seq<FloatValue>)
    requires 4 * count <= |v|
    ensures |r| == count
    ensures forall i :: 0 <= i < count ==> r[i] == FloatBits(Value(v[4 * i..4 * i + 4]))
  {
    if count == 0 then []
    else Bins(v, count - 1) + [DecodeFloat(v[4 * (count - 1)..4 * count])]
  }

  /**
   * The array `a` with `front` stored from index 0. Stores past the end of
   * the array are dropped; extract_powers makes none, since it stores at
   * most `npower` floats and the array holds that many.
   */
  function Overwrite(a: seq<FloatValue>, front: seq<FloatValue>): (r: seq<FloatValue>)
    ensures |r| == |a|
  {
    seq(|a|, i requires 0 <= i < |a| => if i < |front| then front[i] else a[i])
  }

  /** Index `i` of the overwritten array: from `front` if it reaches that far, else the old value. */
  lemma OverwriteAt(a: seq<FloatValue>, front: seq<FloatValue>, i: nat)
    requires i < |a|
    ensures Overwrite(a, front)[i] == if i < |front| then front[i] else a[i]
  {
  }

  /**
   * The switch of extract_powers for a field of kind `k` and value `v`.
   * `n` is the receiver's `L + M - 1`: when it is 0 the BIN_DATA floats are
   * counted but not read.
   */
  function FieldEffect(k: byte, v: seq<byte>, ssrc: int, npower: int, n: int, g: Gathered): (r: Effect)
    ensures r.Continue? ==> |r.g.power| == |g.power|
  {
    if k == GPS_TIME then Continue(g.(time := Value(v) % TWO64), 0)
    else if k == OUTPUT_SSRC then
      (if Decode32(v) != U32(ssrc) then Return(-1) else Continue(g, 0))
    else if k == DEMOD_TYPE then
      (if DecodeInt(v) != SPECT_DEMOD then Return(-3) else Continue(g, 0))
    else if k == RADIO_FREQUENCY then Continue(g.(freq := DecodeDouble(v)), 0)
    else if k == BIN_DATA then
      var count := |v| / 4;
      if count > npower then Return(-2)
      else if n == 0 then Continue(g.(count := count), 0)
      else Continue(g.(count := count, power := Overwrite(g.power, Bins(v, count))), 4 * count)
    else if k == NONCOHERENT_BIN_BW then Continue(g.(binBw := DecodeFloat(v)), 0)
    else if k == IF_POWER then Continue(g.(ifPower := DecodeFloat(v)), 0)
    else if k == BIN_COUNT then Continue(g.(ccount := DecodeInt(v)), 0)
    else Continue(g, 0)
  }

  /** extract_powers' switch, for the channel `ssrc`, an array of `npower` floats and `L + M - 1 == n`. */
  function PowersSwitch(ssrc: int, npower: int, n: int): FieldSwitch
  {
    (k: byte, v: seq<byte>, g: Gathered) => FieldEffect(k, v, ssrc, npower, n, g)
  }

  /** The scan loop of extract_powers from index `p`, as written: with the double advance. */
  function Walk(s: seq<byte>, p: nat, sw: FieldSwitch, g: Gathered): Outcome
    decreases |s| - p
  {
    if p >= |s| then Finished(g)
    else match HeaderAt(s, p)
      case Hdr(k, h, len) =>
        (match sw(k, s[p + h..p + h + len], g)
         case Return(code) => Stopped(code, g)
         case Continue(g', extra) => Walk(s, p + h + len + extra, sw, g'))
      case _ => Finished(g)
  }

  /** One turn of the loop: the field `hd` at `p` has effect `e`, then the rest of the scan. */
  lemma WalkStep(s: seq<byte>, p: nat, sw: FieldSwitch, g: Gathered, hd: Header, e: Effect)
    requires p < |s| && hd == HeaderAt(s, p) && hd.Hdr?
    requires e == sw(hd.kind, s[p + hd.hdrLen..p + hd.hdrLen + hd.optlen], g)
    ensures e.Return? ==> Walk(s, p, sw, g) == Stopped(e.code, g)
    ensures e.Continue? ==> Walk(s, p, sw, g) == Walk(s, p + hd.hdrLen + hd.optlen + e.extra, sw, e.g)
  {
  }

  /** The code returned after the loop: the BIN_COUNT value if it matches the floats seen and fits. */
  function Verdict(g: Gathered): int
  {
    if g.count != g.ccount then -1
    else if g.count > Sessions.MAX_BINS then -1
    else g.ccount
  }

  /** extract_powers' return value. */
  function Code(o: Outcome): int
  {
    match o
    case Stopped(code, _) => code
    case Finished(g) => Verdict(g)
  }

  /** The state extract_powers starts from: the caller's outputs, no bins seen, BIN_COUNT 0. */
  function Initial(time: nat, freq: DoubleValue, binBw: FloatValue, ifPower: FloatValue, power: seq<FloatValue>): Gathered
  {
    Gathered(time, freq, binBw, ifPower, UNSET_COUNT, 0, power)
  }

  /**
   * extract_powers: scans the record in `buffer`, filling `power` from
   * BIN_DATA and returning the outputs the record sets; the result code is
   * -1, -2 or -3 on a rejected record, else the bin count.
   */
  method ExtractPowers(power: array<FloatValue>, npower: int, time: nat, freq: DoubleValue, binBw: FloatValue,
                       ifPower: FloatValue, ssrc: int, buffer: seq<byte>, n: int)
    returns (rc: int, time': nat, freq': DoubleValue, binBw': FloatValue, ifPower': FloatValue)
    requires npower <= power.Length
    modifies power
    ensures var o := Walk(buffer, 0, PowersSwitch(ssrc, npower, n), Initial(time, freq, binBw, ifPower, old(power[..])));
      && rc == Code(o)
      && time' == Final(o).time && freq' == Final(o).freq && binBw' == Final(o).binBw
      && ifPower' == Final(o).ifPower && power[..] == Final(o).power
  {
    ghost var sw := PowersSwitch(ssrc, npower, n);
    ghost var o := Walk(buffer, 0, sw, Initial(time, freq, binBw, ifPower, power[..]));
    time', freq', binBw', ifPower' := time, freq, binBw, ifPower;
    var ccount := 0;
    var count := UNSET_COUNT;
    var cp := 0;
    while cp < |buffer|
      invariant Walk(buffer, cp, sw, Gathered(time', freq', binBw', ifPower', count, ccount, power[..])) == o
      decreases |buffer| - cp
    {
      var stop, ended, code, next;
      stop, ended, code, next, time', freq', binBw', ifPower', count, ccount :=
        Turn(power, buffer, cp, ssrc, npower, n, time', freq', binBw', ifPower', count, ccount);
      if stop {
        return code, time', freq', binBw', ifPower';
      }
      if ended {
        break;
      }
      cp := next;
    }
    rc := Verdict(Gathered(time', freq', binBw', ifPower', count, ccount, power[..]));
  }

  /**
   * One turn of extract_powers' loop at `cp`: the field header, then the
   * switch; it stops the scan with a code, ends the loop at EOL or an
   * overrun, or gives the index of the next turn.
   */
  method Turn(power: array<FloatValue>, buffer: seq<byte>, cp: nat, ssrc: int, npower: int, n: int,
              time: nat, freq: DoubleValue, binBw: FloatValue, ifPower: FloatValue, count: int, ccount: int)
    returns (stop: bool, ended: bool, code: int, next: nat, time': nat, freq': DoubleValue, binBw': FloatValue,
             ifPower': FloatValue, count': int, ccount': int)
    requires cp < |buffer| && npower <= power.Length
    modifies power
    ensures var sw := PowersSwitch(ssrc, npower, n);
      var before := Walk(buffer, cp, sw, Gathered(time, freq, binBw, ifPower, count, ccount, old(power[..])));
      var g' := Gathered(time', freq', binBw', ifPower', count', ccount', power[..]);
      && (stop ==> before == Stopped(code, g'))
      && (!stop && ended ==> before == Finished(g'))
      && (!stop && !ended ==> cp < next && before == Walk(buffer, next, sw, g'))
  {
    ghost var sw := PowersSwitch(ssrc, npower, n);
    ghost var g := Gathered(time, freq, binBw, ifPower, count, ccount, power[..]);
    time', freq', binBw', ifPower', count', ccount' := time, freq, binBw, ifPower, count, ccount;
    stop, ended, code, next := false, false, 0, cp;
    var h := ReadFieldHeader(buffer, cp);
    if !h.Hdr? {
      ended := true;
      return;
    }
    var start := cp + h.hdrLen;
    var v := buffer[start..start + h.optlen];
    ghost var e := FieldEffect(h.kind, v, ssrc, npower, n, g);
    assert sw(h.kind, v, g) == e;
    WalkStep(buffer, cp, sw, g, h, e);
    var extra;
    stop, code, time', freq', binBw', ifPower', count', ccount', extra :=
      SwitchOnKind(power, h.kind, v, ssrc, npower, n, time', freq', binBw', ifPower', count', ccount', g, e);
    next := start + extra + h.optlen;
    ghost var g' := Gathered(time', freq', binBw', ifPower', count', ccount', power[..]);
    if stop {
      assert g' == g;
    } else {
      assert e == Continue(g', extra);
    }
  }

  /**
   * The switch of extract_powers' loop for one field: an early return
   * code, or the updated outputs and counters and how far the BIN_DATA loop
   * moved `cp`.
   */
  method SwitchOnKind(power: array<FloatValue>, k: byte, v: seq<byte>, ssrc: int, npower: int, n: int,
                      time: nat, freq: DoubleValue, binBw: FloatValue, ifPower: FloatValue, count: int, ccount: int,
                      ghost g: Gathered, ghost e: Effect)
    returns (stop: bool, code: int, time': nat, freq': DoubleValue, binBw': FloatValue, ifPower': FloatValue,
             count': int, ccount': int, extra: nat)
    requires npower <= power.Length
    requires g == Gathered(time, freq, binBw, ifPower, count, ccount, power[..])
    requires e == FieldEffect(k, v, ssrc, npower, n, g)
    modifies power
    ensures && (stop <==> e.Return?)
      && (stop ==> code == e.code && power[..] == old(power[..]))
      && (stop ==> Gathered(time', freq', binBw', ifPower', count', ccount', power[..]) == g)
      && (!stop ==> e.g == Gathered(time', freq', binBw', ifPower', count', ccount', power[..]) && extra == e.extra)
  {
    stop, code, extra := false, 0, 0;
    time', freq', binBw', ifPower', count', ccount' := time, freq, binBw, ifPower, count, ccount;
    if k == GPS_TIME {
      time' := DecodeInt64(v);
    } else if k == OUTPUT_SSRC {
      if Decode32(v) != U32(ssrc) {
        stop, code := true, -1;
      }
    } else if k == DEMOD_TYPE {
      if DecodeInt(v) != SPECT_DEMOD {
        stop, code := true, -3;
      }
    } else if k == RADIO_FREQUENCY {
      freq' := DecodeDouble(v);
    } else if k == BIN_DATA {
      var c := |v| / 4;
      if c > npower {
        stop, code := true, -2;
      } else {
        count' := c;
        if n != 0 {
          FillBins(power, v, c);
          extra := 4 * c;
        }
      }
    } else if k == NONCOHERENT_BIN_BW {
      binBw' := DecodeFloat(v);
    } else if k == IF_POWER {
      ifPower' := DecodeFloat(v);
    } else if k == BIN_COUNT {
      ccount' := DecodeInt(v);
    }
  }

  /** The BIN_DATA loop: `power[i] = decode_float(cp, 4); cp += 4` for each float. */
  method FillBins(power: array<FloatValue>, v: seq<byte>, count: nat)
    requires 4 * count <= |v| && count <= power.Length
    modifies power
    ensures power[..] == Overwrite(old(power[..]), Bins(v, count))
  {
    var q := 0;
    for i := 0 to count
      invariant q == 4 * i
      invariant forall k :: 0 <= k < i ==> power[k] == FloatBits(Value(v[4 * k..4 * k + 4]))
      invariant forall k :: i <= k < power.Length ==> power[k] == old(power[k])
    {
      power[i] := DecodeFloat(v[q..q + 4]);
      q := q + 4;
    }
    forall k | 0 <= k < power.Length
      ensures power[k] == Overwrite(old(power[..]), Bins(v, count))[k]
    {
      OverwriteAt(old(power[..]), Bins(v, count), k);
    }
  }

  // ---------------------------------------------------------------------
  // What the result code means

  /** Every early return of the switch is -1, -2 or -3. */
  ghost predicate ReturnsErrors(sw: FieldSwitch)
  {
    forall k, v, g :: sw(k, v, g).Return? ==> sw(k, v, g).code in {-1, -2, -3}
  }

  /** The bin count is the unset marker or fits the caller's array. */
  ghost predicate CountSane(g: Gathered, npower: int)
  {
    g.count == UNSET_COUNT || 0 <= g.count <= npower
  }

  /** The switch keeps the bin count sane. */
  ghost predicate KeepsCountSane(sw: FieldSwitch, npower: int)
  {
    forall k, v, g :: CountSane(g, npower) && sw(k, v, g).Continue? ==> CountSane(sw(k, v, g).g, npower)
  }

  /** Only a BIN_DATA field sets the bin count or moves the scan past its own end. */
  ghost predicate OnlyBinDataCounts(sw: FieldSwitch)
  {
    forall k, v, g :: k != BIN_DATA && sw(k, v, g).Continue? ==>
      sw(k, v, g).g.count == g.count && sw(k, v, g).extra == 0
  }

  /** extract_powers' switch has all three properties. */
  lemma PowersSwitchFacts(ssrc: int, npower: int, n: int)
    ensures ReturnsErrors(PowersSwitch(ssrc, npower, n))
    ensures KeepsCountSane(PowersSwitch(ssrc, npower, n), npower)
    ensures OnlyBinDataCounts(PowersSwitch(ssrc, npower, n))
  {
    var sw := PowersSwitch(ssrc, npower, n);
    forall k, v, g ensures sw(k, v, g) == FieldEffect(k, v, ssrc, npower, n, g) {
    }
  }

  /** An early return from the scan is one of the switch's codes. */
  lemma {:induction false} WalkErrors(s: seq<byte>, p: nat, sw: FieldSwitch, g: Gathered)
    requires ReturnsErrors(sw)
    ensures var o := Walk(s, p, sw, g);
      o.Stopped? ==> o.code in {-1, -2, -3}
    decreases |s| - p
  {
    if p < |s| && HeaderAt(s, p).Hdr? {
      var hd := HeaderAt(s, p);
      var e := sw(hd.kind, s[p + hd.hdrLen..p + hd.hdrLen + hd.optlen], g);
      WalkStep(s, p, sw, g, hd, e);
      if e.Continue? {
        WalkErrors(s, p + hd.hdrLen + hd.optlen + e.extra, sw, e.g);
      }
    }
  }

  /** The scan keeps the bin count sane. */
  lemma {:induction false} WalkKeepsCount(s: seq<byte>, p: nat, sw: FieldSwitch, npower: int, g: Gathered)
    requires KeepsCountSane(sw, npower) && CountSane(g, npower)
    ensures CountSane(Final(Walk(s, p, sw, g)), npower)
    decreases |s| - p
  {
    if p < |s| && HeaderAt(s, p).Hdr? {
      var hd := HeaderAt(s, p);
      var e := sw(hd.kind, s[p + hd.hdrLen..p + hd.hdrLen + hd.optlen], g);
      WalkStep(s, p, sw, g, hd, e);
      if e.Continue? {
        WalkKeepsCount(s, p + hd.hdrLen + hd.optlen + e.extra, sw, npower, e.g);
      }
    }
  }

  /**
   * The result codes of extract_powers: an early -1, -2 or -3, or -1 after
   * the loop, or else a bin count that matches BIN_COUNT, the floats of the
   * last BIN_DATA, the caller's array and MAX_BINS.
   */
  lemma ResultCodes(s: seq<byte>, ssrc: int, npower: int, n: int, g0: Gathered)
    requires g0.count == UNSET_COUNT
    ensures var o := Walk(s, 0, PowersSwitch(ssrc, npower, n), g0);
      && (o.Stopped? ==> o.code in {-1, -2, -3})
      && (Code(o) >= 0 ==> o.Finished? && Code(o) == o.g.count == o.g.ccount)
      && (Code(o) >= 0 ==> Code(o) <= npower && Code(o) <= Sessions.MAX_BINS)
  {
    var sw := PowersSwitch(ssrc, npower, n);
    PowersSwitchFacts(ssrc, npower, n);
    WalkKeepsCount(s, 0, sw, npower, g0);
    WalkErrors(s, 0, sw, g0);
  }

  /**
   * A record in which no BIN_DATA field is visited never gives a bin count:
   * the unset count is either not the BIN_COUNT value or above MAX_BINS.
   */
  lemma NoBinDataRejected(s: seq<byte>, ssrc: int, npower: int, n: int, g0: Gathered)
    requires g0.count == UNSET_COUNT
    requires forall i :: 0 <= i < |Fields(s)| ==> Fields(s)[i].kind != BIN_DATA
    ensures Code(Walk(s, 0, PowersSwitch(ssrc, npower, n), g0)) < 0
  {
    var sw := PowersSwitch(ssrc, npower, n);
    PowersSwitchFacts(ssrc, npower, n);
    assert Fields(s) == FieldsFrom(s, 0);
    NoBinsKeepUnset(s, 0, sw, g0);
    WalkErrors(s, 0, sw, g0);
  }

  /** Without a BIN_DATA field, the scan visits the record's fields and leaves the count unset. */
  lemma {:induction false} NoBinsKeepUnset(s: seq<byte>, p: nat, sw: FieldSwitch, g: Gathered)
    requires OnlyBinDataCounts(sw) && g.count == UNSET_COUNT
    requires forall i :: 0 <= i < |FieldsFrom(s, p)| ==> FieldsFrom(s, p)[i].kind != BIN_DATA
    ensures Final(Walk(s, p, sw, g)).count == UNSET_COUNT
    decreases |s| - p
  {
    if p < |s| && HeaderAt(s, p).Hdr? {
      var hd := HeaderAt(s, p);
      var fs := FieldsFrom(s, p);
      FieldsStep(s, p, hd);
      assert fs[0].kind == hd.kind;
      var q := p + hd.hdrLen + hd.optlen;
      var e := sw(hd.kind, s[p + hd.hdrLen..q], g);
      WalkStep(s, p, sw, g, hd, e);
      if e.Continue? {
        forall i | 0 <= i < |FieldsFrom(s, q)|
          ensures FieldsFrom(s, q)[i].kind != BIN_DATA
        {
          assert FieldsFrom(s, q)[i] == fs[i + 1];
        }
        NoBinsKeepUnset(s, q, sw, e.g);
      }
    }
  }

  // ---------------------------------------------------------------------
  // Records built from encoded fields

  /** A record that starts with an encoded field applies that field first. */
  lemma WalkEncoded(t: byte, v: seq<byte>, rest: seq<byte>, sw: FieldSwitch, g: Gathered)
    requires t != EOL && |v| < TWO32 && rest != []
    ensures var s := Encoded(t, v) + rest;
      var e := sw(t, v, g);
      Walk(s, 0, sw, g) ==
        if e.Return? then Stopped(e.code, g) else Walk(s, |Encoded(t, v)| + e.extra, sw, e.g)
  {
    HeaderOfEncoded(t, v, rest);
    EncodedLayout(t, v, rest);
  }

  /** An OUTPUT_SSRC field naming another channel rejects the record with -1. */
  lemma WrongSsrcRejected(v: seq<byte>, rest: seq<byte>, ssrc: int, npower: int, n: int, g: Gathered)
    requires |v| < TWO32 && rest != [] && Decode32(v) != U32(ssrc)
    ensures Walk(Encoded(OUTPUT_SSRC, v) + rest, 0, PowersSwitch(ssrc, npower, n), g) == Stopped(-1, g)
  {
    WalkEncoded(OUTPUT_SSRC, v, rest, PowersSwitch(ssrc, npower, n), g);
  }

  /** A DEMOD_TYPE field other than the spectrum demodulator rejects the record with -3. */
  lemma NotSpectrumRejected(v: seq<byte>, rest: seq<byte>, ssrc: int, npower: int, n: int, g: Gathered)
    requires |v| < TWO32 && rest != [] && DecodeInt(v) != SPECT_DEMOD
    ensures Walk(Encoded(DEMOD_TYPE, v) + rest, 0, PowersSwitch(ssrc, npower, n), g) == Stopped(-3, g)
  {
    WalkEncoded(DEMOD_TYPE, v, rest, PowersSwitch(ssrc, npower, n), g);
  }

  /** More floats than the caller's array holds rejects the record with -2, before any is stored. */
  lemma TooManyBinsRejected(v: seq<byte>, rest: seq<byte>, ssrc: int, npower: int, n: int, g: Gathered)
    requires |v| < TWO32 && rest != [] && |v| / 4 > npower
    ensures Walk(Encoded(BIN_DATA, v) + rest, 0, PowersSwitch(ssrc, npower, n), g) == Stopped(-2, g)
  {
    WalkEncoded(BIN_DATA, v, rest, PowersSwitch(ssrc, npower, n), g);
  }

  /**
   * The layout extract_powers accepts: BIN_COUNT, then BIN_DATA, then EOL.
   * The result is the bin count and the floats land at the front of the
   * caller's array.
   */
  lemma CountThenBins(c: nat, bins: seq<nat>, ssrc: int, npower: int, n: int, g: Gathered)
    requires 0 < c == |bins| <= npower && c <= Sessions.MAX_BINS && npower <= |g.power|
    requires forall i :: 0 <= i < |bins| ==> bins[i] < TWO32
    requires n != 0
    ensures |Words(bins)| == 4 * |bins|
    ensures var s := Encoded(BIN_COUNT, BigEndian(c, 4)) + Encoded(BIN_DATA, Words(bins)) + [EOL];
      var o := Walk(s, 0, PowersSwitch(ssrc, npower, n), g);
      && Code(o) == c && |o.g.power| == |g.power|
      && forall i :: 0 <= i < c ==> o.g.power[i] == FloatBits(bins[i])
  {
    var sw := PowersSwitch(ssrc, npower, n);
    WordsLength(bins);
    var data := Words(bins);
    var countField := Encoded(BIN_COUNT, BigEndian(c, 4));
    var tail := Encoded(BIN_DATA, data) + [EOL];
    assert countField + Encoded(BIN_DATA, data) + [EOL] == countField + tail;
    WalkEncoded(BIN_COUNT, BigEndian(c, 4), tail, sw, g);
    CountEffect(c, ssrc, npower, n, g);
    BinDataLast(countField, data, c, ssrc, npower, n, g.(ccount := c));
    WordsLand(bins, g.power);
  }

  /**
   * A BIN_DATA field followed by EOL, at index `|pre|`: the floats are
   * stored and the second advance ends the scan.
   */
  lemma BinDataLast(pre: seq<byte>, data: seq<byte>, c: nat, ssrc: int, npower: int, n: int, g: Gathered)
    requires |data| == 4 * c && 0 < c <= npower && n != 0 && |data| < TWO32
    ensures Walk(pre + (Encoded(BIN_DATA, data) + [EOL]), |pre|, PowersSwitch(ssrc, npower, n), g) ==
      Finished(g.(count := c, power := Overwrite(g.power, Bins(data, c))))
  {
    var sw := PowersSwitch(ssrc, npower, n);
    var tail := Encoded(BIN_DATA, data) + [EOL];
    var s := pre + tail;
    HeaderShift(pre, tail, 0);
    HeaderOfEncoded(BIN_DATA, data, [EOL]);
    EncodedLayout(BIN_DATA, data, [EOL]);
    var hd := HeaderAt(tail, 0);
    var p := |pre|;
    assert HeaderAt(s, p) == hd;
    assert hd == Hdr(BIN_DATA, 1 + |LengthHeader(|data|)|, |data|);
    assert tail[hd.hdrLen..hd.hdrLen + hd.optlen] == data;
    SliceShift(pre, tail, hd.hdrLen, hd.hdrLen + hd.optlen);
    assert s[p + hd.hdrLen..p + hd.hdrLen + hd.optlen] == data;
    var g2 := g.(count := c, power := Overwrite(g.power, Bins(data, c)));
    BinDataEffect(data, c, ssrc, npower, n, g);
    WalkStep(s, p, sw, g, hd, Continue(g2, 4 * c));
    assert p + hd.hdrLen + hd.optlen + 4 * c >= |s|;
  }

  /** The floats of the words `bins` land at the front of the array, in order. */
  lemma WordsLand(bins: seq<nat>, power: seq<FloatValue>)
    requires |bins| <= |power| && forall i :: 0 <= i < |bins| ==> bins[i] < TWO32
    ensures |Words(bins)| == 4 * |bins|
    ensures forall i :: 0 <= i < |bins| ==> Overwrite(power, Bins(Words(bins), |bins|))[i] == FloatBits(bins[i])
  {
    WordsLength(bins);
    forall i | 0 <= i < |bins|
      ensures Overwrite(power, Bins(Words(bins), |bins|))[i] == FloatBits(bins[i])
    {
      OverwriteAt(power, Bins(Words(bins), |bins|), i);
      WordsAt(bins, i);
    }
  }

  /** A 4-byte BIN_COUNT field sets the BIN_COUNT value. */
  lemma CountEffect(c: nat, ssrc: int, npower: int, n: int, g: Gathered)
    requires c <= Sessions.MAX_BINS
    ensures PowersSwitch(ssrc, npower, n)(BIN_COUNT, BigEndian(c, 4), g) == Continue(g.(ccount := c), 0)
  {
    PowValues();
    ValueBigEndian(c, 4);
    assert DecodeInt(BigEndian(c, 4)) == c;
  }

  /** A BIN_DATA field that fits stores its floats and moves the scan on by their size. */
  lemma BinDataEffect(data: seq<byte>, c: nat, ssrc: int, npower: int, n: int, g: Gathered)
    requires |data| == 4 * c && c <= npower && n != 0
    ensures PowersSwitch(ssrc, npower, n)(BIN_DATA, data, g) ==
      Continue(g.(count := c, power := Overwrite(g.power, Bins(data, c))), 4 * c)
  {
    assert |data| / 4 == c;
  }

  // ---------------------------------------------------------------------
  // The BIN_DATA double advance, and the single advance evidently meant

  /** The scan with one advance per field: the next field starts where this one ends. */
  function WalkOnce(s: seq<byte>, p: nat, sw: FieldSwitch, g: Gathered): Outcome
    decreases |s| - p
  {
    if p >= |s| then Finished(g)
    else match HeaderAt(s, p)
      case Hdr(k, h, len) =>
        (match sw(k, s[p + h..p + h + len], g)
         case Return(code) => Stopped(code, g)
         case Continue(g', _) => WalkOnce(s, p + h + len, sw, g'))
      case _ => Finished(g)
  }

  /** The switch applied to a list of fields in order, stopping at the first early return. */
  function ApplyFields(fs: seq<Field>, sw: FieldSwitch, g: Gathered): Outcome
  {
    if fs == [] then Finished(g)
    else match sw(fs[0].kind, fs[0].value, g)
      case Return(code) => Stopped(code, g)
      case Continue(g', _) => ApplyFields(fs[1..], sw, g')
  }

  /** With one advance per field, the scan visits exactly the fields of the record. */
  lemma {:induction false} WalkOnceVisitsFields(s: seq<byte>, p: nat, sw: FieldSwitch, g: Gathered)
    ensures WalkOnce(s, p, sw, g) == ApplyFields(FieldsFrom(s, p), sw, g)
    decreases |s| - p
  {
    if p < |s| {
      var hd := HeaderAt(s, p);
      if hd.Hdr? {
        FieldsStep(s, p, hd);
        var fs := FieldsFrom(s, p);
        var q := p + hd.hdrLen + hd.optlen;
        assert fs[1..] == FieldsFrom(s, q);
        var e := sw(hd.kind, s[p + hd.hdrLen..q], g);
        if e.Continue? {
          WalkOnceVisitsFields(s, q, sw, e.g);
        }
      }
    }
  }

  /** A record with BIN_DATA before BIN_COUNT: one float, then a count of 1. */
  const BINS_FIRST: seq<byte> := [BIN_DATA, 4, 0x3f, 0x80, 0, 0, BIN_COUNT, 1, 1, EOL]

  /**
   * As written, the second advance after BIN_DATA jumps over the BIN_COUNT
   * that follows it, so the record is rejected although its counts agree;
   * with one advance per field it gives its one bin.
   */
  lemma BinsFirstRejected(ssrc: int, npower: int, n: int, g: Gathered)
    requires 1 <= npower && n != 0 && g.ccount == 0
    ensures Code(Walk(BINS_FIRST, 0, PowersSwitch(ssrc, npower, n), g)) == -1
    ensures Code(WalkOnce(BINS_FIRST, 0, PowersSwitch(ssrc, npower, n), g)) == 1
  {
    var sw := PowersSwitch(ssrc, npower, n);
    var s := BINS_FIRST;
    var v := [0x3f as byte, 0x80, 0, 0];
    assert HeaderAt(s, 0) == Hdr(BIN_DATA, 2, 4);
    assert s[2..6] == v;
    var g1 := g.(count := 1, power := Overwrite(g.power, Bins(v, 1)));
    assert sw(BIN_DATA, v, g) == Continue(g1, 4);
    assert Walk(s, 0, sw, g) == Walk(s, 10, sw, g1);
    assert WalkOnce(s, 0, sw, g) == WalkOnce(s, 6, sw, g1);
    assert HeaderAt(s, 6) == Hdr(BIN_COUNT, 2, 1);
    assert s[8..9] == [1];
    PowValues();
    assert DecodeInt([1]) == 1;
    assert sw(BIN_COUNT, [1], g1) == Continue(g1.(ccount := 1), 0);
    assert WalkOnce(s, 6, sw, g1) == WalkOnce(s, 9, sw, g1.(ccount := 1));
    assert HeaderAt(s, 9) == End;
  }

  // ---------------------------------------------------------------------
  // extract_noise

  /** The value of the last field of the given kind. */
  function LastValue(fs: seq<Field>, kind: byte): Option<seq<byte>>
  {
    if fs == [] then None
    else if fs[|fs| - 1].kind == kind then Some(fs[|fs| - 1].value)
    else LastValue(fs[..|fs| - 1], kind)
  }

  /** The last value found is that of a field of the kind with none after it; None when there is none. */
  lemma {:induction false} LastValueFinds(fs: seq<Field>, kind: byte)
    ensures LastValue(fs, kind).None? <==> forall i :: 0 <= i < |fs| ==> fs[i].kind != kind
    ensures LastValue(fs, kind).Some? ==>
      exists i :: 0 <= i < |fs| && fs[i] == Field(kind, LastValue(fs, kind).value) &&
        forall j :: i < j < |fs| ==> fs[j].kind != kind
  {
    if fs != [] && fs[|fs| - 1].kind != kind {
      var front := fs[..|fs| - 1];
      LastValueFinds(front, kind);
      if LastValue(fs, kind).Some? {
        var i :| 0 <= i < |front| && front[i] == Field(kind, LastValue(fs, kind).value) &&
          forall j :: i < j < |front| ==> front[j].kind != kind;
        assert fs[i] == front[i];
        assert forall j :: i < j < |fs| ==> fs[j].kind != kind by {
          forall j | i < j < |fs| ensures fs[j].kind != kind {
            if j < |fs| - 1 { assert fs[j] == front[j]; }
          }
        }
      } else {
        forall i | 0 <= i < |fs| ensures fs[i].kind != kind {
          if i < |fs| - 1 { assert fs[i] == front[i]; }
        }
      }
    } else if fs != [] {
      assert fs[|fs| - 1] == Field(kind, LastValue(fs, kind).value);
    }
  }

  /**
   * The noise density after passing the fields `fs` from `n0`: each
   * NOISE_DENSITY value replaces it.
   */
  function Noise(fs: seq<Field>, n0: FloatValue): FloatValue
  {
    if fs == [] then n0
    else Noise(fs[1..], if fs[0].kind == NOISE_DENSITY then DecodeFloat(fs[0].value) else n0)
  }

  /** The noise left is that of the last NOISE_DENSITY field, or the caller's when there is none. */
  lemma {:induction false} NoiseIsLast(fs: seq<Field>, n0: FloatValue)
    ensures Noise(fs, n0) == match LastValue(fs, NOISE_DENSITY)
      case None => n0
      case Some(v) => DecodeFloat(v)
  {
    if fs != [] {
      var front := fs[..|fs| - 1];
      var last := fs[|fs| - 1];
      NoiseSnoc(front, last, n0);
      assert front + [last] == fs;
      NoiseIsLast(front, n0);
    }
  }

  /** Passing one more field at the end. */
  lemma {:induction false} NoiseSnoc(fs: seq<Field>, f: Field, n0: FloatValue)
    ensures Noise(fs + [f], n0) ==
      if f.kind == NOISE_DENSITY then DecodeFloat(f.value) else Noise(fs, n0)
  {
    if fs == [] {
      assert [f][1..] == [];
    } else {
      var n1 := if fs[0].kind == NOISE_DENSITY then DecodeFloat(fs[0].value) else n0;
      assert (fs + [f])[1..] == fs[1..] + [f];
      NoiseSnoc(fs[1..], f, n1);
    }
  }

  /** extract_noise: stores each NOISE_DENSITY value it passes, so the last one wins; always returns 0. */
  method ExtractNoise(n0: FloatValue, buffer: seq<byte>) returns (rc: int, n0': FloatValue)
    ensures rc == 0
    ensures n0' == Noise(Fields(buffer), n0)
  {
    n0' := n0;
    var cp := 0;
    while cp < |buffer|
      invariant cp <= |buffer|
      invariant Noise(FieldsFrom(buffer, cp), n0') == Noise(Fields(buffer), n0)
      decreases |buffer| - cp
    {
      var h := ReadFieldHeader(buffer, cp);
      if !h.Hdr? {
        break;
      }
      var start := cp + h.hdrLen;
      var v := buffer[start..start + h.optlen];
      FieldsStep(buffer, cp, h);
      assert FieldsFrom(buffer, cp)[1..] == FieldsFrom(buffer, start + h.optlen);
      if h.kind == NOISE_DENSITY {
        n0' := DecodeFloat(v);
      }
      cp := start + h.optlen;
    }
    return 0, n0';
  }

  // ---------------------------------------------------------------------
  // Bin rotation

  /** `s` rotated left by `k`: the entries from `k` on, then those before. */
  function RotatedBy<T>(s: seq<T>, k: nat): (r: seq<T>)
    requires k <= |s|
    ensures |r| == |s|
  {
    s[k..] + s[..k]
  }

  /** The order ctrl_thread sends the bins in: the upper half of the FFT order (below centre) first. */
  function Rotated<T>(s: seq<T>): (r: seq<T>)
    ensures |r| == |s|
  {
    RotatedBy(s, |s| / 2)
  }

  /** Entry `k` of the rotation is entry `(k + |s|/2) mod |s|` of the input. */
  lemma RotatedIndex<T>(s: seq<T>, k: nat)
    requires k < |s|
    ensures Rotated(s)[k] == s[(|s| / 2 + k) % |s|]
  {
    var h := |s| / 2;
    if k < |s| - h {
      DivModUnique(h + k, |s|, 0, h + k);
      assert Rotated(s)[k] == s[h + k];
    } else {
      DivModUnique(h + k, |s|, 1, h + k - |s|);
      assert Rotated(s)[k] == s[k - (|s| - h)];
    }
  }

  /** A rotation is a permutation: the same bins, each as often. */
  lemma RotatedPermutes<T>(s: seq<T>, k: nat)
    requires k <= |s|
    ensures multiset(RotatedBy(s, k)) == multiset(s)
  {
    assert s == s[..k] + s[k..];
  }

  /** Rotating by `k` and then by the rest of the length gives the input back. */
  lemma RotateBack<T>(s: seq<T>, k: nat)
    requires k <= |s|
    ensures RotatedBy(RotatedBy(s, k), |s| - k) == s
  {
    var r := RotatedBy(s, k);
    assert r[|s| - k..] == s[..k];
    assert r[..|s| - k] == s[k..];
  }

  /**
   * The two loops of each precision: `i` from `npower/2` to `npower`, then
   * from 0 to `npower/2`, each bin converted by `convert` (10*log10 with a
   * floor for 0 in the 4-byte case; the conversions are not modelled) and
   * appended at the output pointer.
   */
  method RotateBins<T, U>(powers: array<T>, npower: nat, convert: T -> U) returns (out: seq<U>)
    requires npower <= powers.Length
    ensures |out| == npower
    ensures forall k :: 0 <= k < npower ==> out[k] == convert(Rotated(powers[..npower])[k])
  {
    ghost var s := powers[..npower];
    out := [];
    var i := npower / 2;
    while i < npower
      invariant npower / 2 <= i <= npower
      invariant |out| == i - npower / 2
      invariant forall k :: 0 <= k < |out| ==> out[k] == convert(s[npower / 2 + k])
    {
      out := out + [convert(powers[i])];
      i := i + 1;
    }
    i := 0;
    while i < npower / 2
      invariant 0 <= i <= npower / 2
      invariant |out| == npower - npower / 2 + i
      invariant forall k :: 0 <= k < npower - npower / 2 ==> out[k] == convert(s[npower / 2 + k])
      invariant forall k :: 0 <= k < i ==> out[npower - npower / 2 + k] == convert(s[k])
    {
      out := out + [convert(powers[i])];
      i := i + 1;
    }
  }

  // ---------------------------------------------------------------------
  // The radio status frame

  /** What encode_float writes for a 32-bit pattern: nothing for a NaN. */
  function FloatField(t: byte, bits: nat): (f: seq<byte>)
    requires bits < TWO32
    ensures IsNaN32(bits) <==> f == []
  {
    if IsNaN32(bits) then [] else IntField(t, bits)
  }

  /** The RTP header of a radio status frame: type 0x7E, marker set, this session's SSRC. */
  function StatusHeader(ssrc: nat, sequence: nat): (h: RtpHeader)
    requires ssrc < TWO32 && sequence < TWO16
    ensures WellTyped(h)
  {
    RtpHeader(RTP_VERS, 0x7E, sequence, 0, ssrc, true, false, false, 0, seq(CSRC_SLOTS, _ => 0))
  }

  /** The three float fields every radio status frame carries: baseband power, then the filter edges. */
  function PowerFields(bbPower: nat, lowEdge: nat, highEdge: nat): (f: seq<byte>)
    requires bbPower < TWO32 && lowEdge < TWO32 && highEdge < TWO32
    ensures |f| <= 18
  {
    FloatFieldLength(BASEBAND_POWER, bbPower);
    FloatFieldLength(LOW_EDGE, lowEdge);
    FloatFieldLength(HIGH_EDGE, highEdge);
    FloatField(BASEBAND_POWER, bbPower) + FloatField(LOW_EDGE, lowEdge) + FloatField(HIGH_EDGE, highEdge)
  }

  /** A float field takes at most 6 bytes: the tag, the length and 4 value bytes. */
  lemma FloatFieldLength(t: byte, bits: nat)
    requires bits < TWO32
    ensures |FloatField(t, bits)| <= 6
  {
    PowValues();
    IntFieldLength(t, bits, 4);
  }

  /** The three encode_float calls of the radio status frame. */
  method PutPowerFields(w: Writer, bbPower: nat, lowEdge: nat, highEdge: nat)
    requires w.Valid() && bbPower < TWO32 && lowEdge < TWO32 && highEdge < TWO32 && w.Room() >= 30
    modifies w, w.data
    ensures w.Valid() && w.Written() == old(w.Written()) + PowerFields(bbPower, lowEdge, highEdge)
  {
    FloatFieldLength(BASEBAND_POWER, bbPower);
    FloatFieldLength(LOW_EDGE, lowEdge);
    ghost var a, b, c := FloatField(BASEBAND_POWER, bbPower), FloatField(LOW_EDGE, lowEdge), FloatField(HIGH_EDGE, highEdge);
    PutFloatField(w, BASEBAND_POWER, bbPower);
    PutFloatField(w, LOW_EDGE, lowEdge);
    PutFloatField(w, HIGH_EDGE, highEdge);
    assert old(w.Written()) + a + b + c == old(w.Written()) + (a + b + c);
  }

  /** One encode_float call: the field, or nothing for a NaN. */
  method PutFloatField(w: Writer, t: byte, bits: nat)
    requires w.Valid() && bits < TWO32 && w.Room() >= 10
    modifies w, w.data
    ensures w.Valid() && w.Written() == old(w.Written()) + FloatField(t, bits)
    ensures w.Room() + |FloatField(t, bits)| == old(w.Room())
  {
    var n := w.EncodeFloat(t, bits);
  }

  /**
   * The radio status frame of ctrl_thread: the RTP header, the baseband
   * power and the filter edges, then the receiver description if this
   * session has not had it yet.
   */
  method StatusFrame(sp: Sessions.Session, w: Writer, sequence: nat, bbPower: nat, lowEdge: nat, highEdge: nat,
                     description: seq<byte>)
    requires sp.Valid() && w.Valid() && sequence < TWO16
    requires bbPower < TWO32 && lowEdge < TWO32 && highEdge < TWO32 && |description| < TWO32
    requires w.Room() >= RTP_MIN_SIZE + 36 + |description|
    modifies sp, w, w.data
    ensures sp.Valid() && w.Valid() && sp.once
    ensures w.Written() == old(w.Written()) + HeaderBytes(StatusHeader(sp.ssrc, sequence))
      + PowerFields(bbPower, lowEdge, highEdge) + (if old(sp.once) then [] else Encoded(DESCRIPTION, description))
    ensures sp.frequency == old(sp.frequency) && sp.centerFrequency == old(sp.centerFrequency)
    ensures sp.binWidth == old(sp.binWidth) && sp.bins == old(sp.bins) && sp.zoomIndex == old(sp.zoomIndex)
    ensures sp.audioActive == old(sp.audioActive) && sp.spectrumActive == old(sp.spectrumActive)
    ensures sp.requestedPreset == old(sp.requestedPreset)
  {
    var h := StatusHeader(sp.ssrc, sequence);
    HtonRtp(w, h);
    ghost var framed := w.Written();
    PutPowerFields(w, bbPower, lowEdge, highEdge);
    ghost var measured := w.Written();
    if !sp.once {
      sp.once := true;
      PutDescription(w, description);
    } else {
      assert w.Written() == measured + [];
    }
  }

  /** The `encode_string(&bp, DESCRIPTION, ...)` of the first status frame. */
  method PutDescription(w: Writer, description: seq<byte>)
    requires w.Valid() && |description| < TWO32 && w.Room() >= 6 + |description|
    modifies w, w.data
    ensures w.Valid() && w.Written() == old(w.Written()) + Encoded(DESCRIPTION, description)
  {
    var n := w.EncodeString(DESCRIPTION, description);
  }
}
