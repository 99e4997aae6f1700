/**
 * decode_radio_status (decode_status.c): copies the fields of a status
 * record into the front-end and channel structures of the receiver.
 *
 * The structures are modelled with the members that hold integers, flags,
 * strings and socket addresses. Members that hold floats, doubles or dB
 * conversions are not part of this model, so the fields that set them are
 * skipped here like unknown ones.
 */
module RadioStatus {
  import opened Bytes
  import opened Sockaddr
  import opened Tlv
  import opened Scan

  // ---------------------------------------------------------------------
  // The structures, as values

  datatype RtpState = RtpState(ssrc: nat, pt: nat, packets: nat)

  datatype Output = Output(
    samprate: nat, rtp: RtpState, sourceSocket: Option<SocketValue>, destSocket: Option<SocketValue>,
    channels: nat, samples: nat, encoding: int, opusBitrate: nat, minpacket: nat,
    errors: nat, ttl: int, timeSnap: nat)

  datatype ChannelStatus = ChannelStatus(
    packetsIn: nat, tag: nat, blocksSincePoll: nat, outputInterval: int, packetsOut: nat)

  datatype Pll = Pll(enable: bool, square: bool, lock: bool, rotations: int)

  datatype Linear = Linear(env: bool, agc: bool)

  datatype Filter2 = Filter2(ilen: int, impulseLength: int, isb: bool, blocking: nat)

  /** `struct frontend` */
  datatype FrontendState = FrontendState(
    description: seq<byte>, samprate: int, timestamp: int, samples: nat,
    overranges: nat, sampSinceOver: nat, l: int, m: int, isreal: bool,
    bitsPerSample: int, rfAgc: bool, metadataDestSocket: Option<SocketValue>)

  /** `struct channel` */
  datatype ChannelState = ChannelState(
    clocktime: int, demodType: int, preset: seq<byte>, snrSquelchEnable: bool,
    options: nat, output: Output, status: ChannelStatus, pll: Pll,
    linear: Linear, filter2: Filter2, fmThreshold: bool, binCount: int)

  // ---------------------------------------------------------------------
  // Conversions used by the switch

  /** decode_int64, as a value. */
  function Unsigned64(v: seq<byte>): (r: nat)
    ensures r < TWO64
  {
    Value(v) % TWO64
  }

  /** `(int64_t)decode_int64(...)` */
  function Signed64(v: seq<byte>): (r: int)
    ensures -TWO63 <= r < TWO63
  {
    I64(Unsigned64(v))
  }

  /**
   * decode_socket into a member: what it writes, or the member unchanged
   * when decode_socket returns NULL. `None` is a member that no socket field
   * has been decoded into.
   */
  function SocketUpdate(prev: Option<SocketValue>, v: seq<byte>): Option<SocketValue>
  {
    match DecodeSocket(v)
    case Some(s) => Some(s)
    case None => prev
  }

  // ---------------------------------------------------------------------
  // The switch of decode_radio_status, on values

  /** Type codes whose target member is part of this model. */
  const TRACKED: set<byte> := {
    CMD_CNT, DESCRIPTION, RTP_TIMESNAP, STATUS_DEST_SOCKET, GPS_TIME,
    INPUT_SAMPRATE, INPUT_SAMPLES, AD_OVER, SAMPLES_SINCE_OVER,
    OUTPUT_DATA_SOURCE_SOCKET, OUTPUT_DATA_DEST_SOCKET, OUTPUT_SSRC, OUTPUT_TTL,
    OUTPUT_SAMPRATE, OUTPUT_DATA_PACKETS, OUTPUT_METADATA_PACKETS,
    FILTER_BLOCKSIZE, FILTER_FIR_LENGTH, FE_ISREAL, AD_BITS_PER_SAMPLE,
    PLL_LOCK, PLL_SQUARE, PLL_WRAPS, ENVELOPE, SNR_SQUELCH, OUTPUT_SAMPLES,
    COMMAND_TAG, DEMOD_TYPE, OUTPUT_CHANNELS, INDEPENDENT_SIDEBAND,
    THRESH_EXTEND, PLL_ENABLE, AGC_ENABLE, BIN_COUNT, RF_AGC,
    BLOCKS_SINCE_POLL, PRESET, RTP_PT, OUTPUT_ENCODING, STATUS_INTERVAL,
    SETOPTS, OPUS_BIT_RATE, MINPACKET, FILTER2, OUTPUT_ERRORS,
    FILTER2_BLOCKSIZE, FILTER2_FIR_LENGTH }

  /** The effect of one field on `struct frontend`. */
  function ApplyFrontend(fe: FrontendState, f: Field): FrontendState
  {
    var v := f.value;
    var k := f.kind;
    if k == DESCRIPTION then fe.(description := Strlcpy(DecodeString(v), 128))
    else if k == STATUS_DEST_SOCKET then fe.(metadataDestSocket := SocketUpdate(fe.metadataDestSocket, v))
    else if k == GPS_TIME then fe.(timestamp := Signed64(v))
    else if k == INPUT_SAMPRATE then fe.(samprate := DecodeInt(v))
    else if k == INPUT_SAMPLES then fe.(samples := Unsigned64(v))
    else if k == AD_OVER then fe.(overranges := Unsigned64(v))
    else if k == SAMPLES_SINCE_OVER then fe.(sampSinceOver := Unsigned64(v))
    else if k == FILTER_BLOCKSIZE then fe.(l := DecodeInt(v))
    else if k == FILTER_FIR_LENGTH then fe.(m := DecodeInt(v))
    else if k == FE_ISREAL then fe.(isreal := DecodeBool(v))
    else if k == AD_BITS_PER_SAMPLE then fe.(bitsPerSample := DecodeInt(v))
    else if k == RF_AGC then fe.(rfAgc := DecodeInt(v) != 0)
    else fe
  }

  /** Type codes whose target is a member of `channel->output`. */
  const OUTPUT_KINDS: set<byte> := {
    RTP_TIMESNAP, OUTPUT_DATA_SOURCE_SOCKET, OUTPUT_DATA_DEST_SOCKET,
    OUTPUT_SSRC, OUTPUT_TTL, OUTPUT_SAMPRATE, OUTPUT_DATA_PACKETS,
    OUTPUT_SAMPLES, OUTPUT_CHANNELS, RTP_PT, OUTPUT_ENCODING, OPUS_BIT_RATE,
    MINPACKET, OUTPUT_ERRORS }

  /** The effect of one field on `channel->output`. */
  function ApplyOutput(out: Output, f: Field): Output
  {
    var v := f.value;
    var k := f.kind;
    if k == RTP_TIMESNAP then out.(timeSnap := U32(DecodeInt(v)))
    else if k == OUTPUT_DATA_SOURCE_SOCKET then out.(sourceSocket := SocketUpdate(out.sourceSocket, v))
    else if k == OUTPUT_DATA_DEST_SOCKET then out.(destSocket := SocketUpdate(out.destSocket, v))
    else if k == OUTPUT_SSRC then out.(rtp := out.rtp.(ssrc := Decode32(v)))
    else if k == OUTPUT_TTL then out.(ttl := Decode8(v))
    else if k == OUTPUT_SAMPRATE then out.(samprate := U32(DecodeInt(v)))
    else if k == OUTPUT_DATA_PACKETS then out.(rtp := out.rtp.(packets := Unsigned64(v)))
    else if k == OUTPUT_SAMPLES then out.(samples := Unsigned64(v))
    else if k == OUTPUT_CHANNELS then out.(channels := U32(DecodeInt(v)))
    else if k == RTP_PT then out.(rtp := out.rtp.(pt := DecodeInt(v) % 256))
    else if k == OUTPUT_ENCODING then out.(encoding := DecodeInt(v))
    else if k == OPUS_BIT_RATE then out.(opusBitrate := U32(DecodeInt(v)))
    else if k == MINPACKET then out.(minpacket := U32(DecodeInt(v)))
    else if k == OUTPUT_ERRORS then out.(errors := Unsigned64(v))
    else out
  }

  /** The effect of one field on `struct channel`. */
  function ApplyChannel(ch: ChannelState, f: Field): ChannelState
  {
    var v := f.value;
    var k := f.kind;
    var st := ch.status;
    if k in OUTPUT_KINDS then ch.(output := ApplyOutput(ch.output, f))
    else if k == CMD_CNT then ch.(status := st.(packetsIn := Decode32(v)))
    else if k == GPS_TIME then ch.(clocktime := Signed64(v))
    else if k == OUTPUT_METADATA_PACKETS then ch.(status := st.(packetsOut := Unsigned64(v)))
    else if k == PLL_LOCK then ch.(pll := ch.pll.(lock := DecodeBool(v)))
    else if k == PLL_SQUARE then ch.(pll := ch.pll.(square := DecodeBool(v)))
    else if k == PLL_WRAPS then ch.(pll := ch.pll.(rotations := Signed64(v)))
    else if k == ENVELOPE then ch.(linear := ch.linear.(env := DecodeBool(v)))
    else if k == SNR_SQUELCH then ch.(snrSquelchEnable := DecodeBool(v))
    else if k == COMMAND_TAG then ch.(status := st.(tag := Decode32(v)))
    else if k == DEMOD_TYPE then ch.(demodType := DecodeInt(v))
    else if k == INDEPENDENT_SIDEBAND then ch.(filter2 := ch.filter2.(isb := DecodeBool(v)))
    else if k == THRESH_EXTEND then ch.(fmThreshold := DecodeBool(v))
    else if k == PLL_ENABLE then ch.(pll := ch.pll.(enable := DecodeBool(v)))
    else if k == AGC_ENABLE then ch.(linear := ch.linear.(agc := DecodeBool(v)))
    else if k == BIN_COUNT then ch.(binCount := DecodeInt(v))
    else if k == BLOCKS_SINCE_POLL then ch.(status := st.(blocksSincePoll := Unsigned64(v)))
    else if k == PRESET then ch.(preset := Strlcpy(DecodeString(v), 32))
    else if k == STATUS_INTERVAL then ch.(status := st.(outputInterval := DecodeInt(v)))
    else if k == SETOPTS then ch.(options := Unsigned64(v))
    else if k == FILTER2 then ch.(filter2 := ch.filter2.(blocking := U32(DecodeInt(v))))
    else if k == FILTER2_BLOCKSIZE then ch.(filter2 := ch.filter2.(ilen := DecodeInt(v)))
    else if k == FILTER2_FIR_LENGTH then ch.(filter2 := ch.filter2.(impulseLength := DecodeInt(v)))
    else ch
  }

  datatype Radio = Radio(frontend: FrontendState, channel: ChannelState)

  function Apply(r: Radio, f: Field): Radio
  {
    Radio(ApplyFrontend(r.frontend, f), ApplyChannel(r.channel, f))
  }

  /** The fields of a record applied in order. */
  function ApplyAll(r: Radio, fs: seq<Field>): Radio
    decreases |fs|
  {
    if fs == [] then r else ApplyAll(Apply(r, fs[0]), fs[1..])
  }

  // ---------------------------------------------------------------------
  // The structures, in place

  class Frontend {
    var description: seq<byte>
    var samprate: int
    var timestamp: int
    var samples: nat
    var overranges: nat
    var sampSinceOver: nat
    var l: int
    var m: int
    var isreal: bool
    var bitsPerSample: int
    var rfAgc: bool
    var metadataDestSocket: Option<SocketValue>

    function State(): FrontendState
      reads this
    {
      FrontendState(description, samprate, timestamp, samples, overranges,
        sampSinceOver, l, m, isreal, bitsPerSample, rfAgc, metadataDestSocket)
    }

    constructor (s: FrontendState)
      ensures State() == s
    {
      description, samprate, timestamp := s.description, s.samprate, s.timestamp;
      samples, overranges, sampSinceOver := s.samples, s.overranges, s.sampSinceOver;
      l, m, isreal, bitsPerSample := s.l, s.m, s.isreal, s.bitsPerSample;
      rfAgc, metadataDestSocket := s.rfAgc, s.metadataDestSocket;
    }
  }

  class Channel {
    var clocktime: int
    var demodType: int
    var preset: seq<byte>
    var snrSquelchEnable: bool
    var options: nat
    var output: Output
    var status: ChannelStatus
    var pll: Pll
    var linear: Linear
    var filter2: Filter2
    var fmThreshold: bool
    var binCount: int

    function State(): ChannelState
      reads this
    {
      ChannelState(clocktime, demodType, preset, snrSquelchEnable, options,
        output, status, pll, linear, filter2, fmThreshold, binCount)
    }

    constructor (s: ChannelState)
      ensures State() == s
    {
      clocktime, demodType, preset, snrSquelchEnable := s.clocktime, s.demodType, s.preset, s.snrSquelchEnable;
      options, output, status, pll := s.options, s.output, s.status, s.pll;
      linear, filter2, fmThreshold, binCount := s.linear, s.filter2, s.fmThreshold, s.binCount;
    }
  }

  /**
   * One case of the switch of decode_radio_status. The cases are split by
   * the structure they assign; only GPS_TIME assigns both.
   */
  method ApplyField(frontend: Frontend, channel: Channel, f: Field)
    modifies frontend, channel
    ensures frontend.State() == ApplyFrontend(old(frontend.State()), f)
    ensures channel.State() == ApplyChannel(old(channel.State()), f)
    ensures Radio(frontend.State(), channel.State()) == Apply(Radio(old(frontend.State()), old(channel.State())), f)
  {
    ApplyChannelField(channel, f);
    ApplyFrontendField(frontend, f);
  }

  method ApplyFrontendField(frontend: Frontend, f: Field)
    modifies frontend
    ensures frontend.State() == ApplyFrontend(old(frontend.State()), f)
  {
    var v := f.value;
    var k := f.kind;
    if k == DESCRIPTION {
      frontend.description := Strlcpy(DecodeString(v), 128);
    } else if k == STATUS_DEST_SOCKET {
      frontend.metadataDestSocket := SocketUpdate(frontend.metadataDestSocket, v);
    } else if k == GPS_TIME {
      frontend.timestamp := Signed64(v);
    } else if k == INPUT_SAMPRATE {
      frontend.samprate := DecodeInt(v);
    } else if k == INPUT_SAMPLES {
      frontend.samples := Unsigned64(v);
    } else if k == AD_OVER {
      frontend.overranges := Unsigned64(v);
    } else if k == SAMPLES_SINCE_OVER {
      frontend.sampSinceOver := Unsigned64(v);
    } else if k == FILTER_BLOCKSIZE {
      frontend.l := DecodeInt(v);
    } else if k == FILTER_FIR_LENGTH {
      frontend.m := DecodeInt(v);
    } else if k == FE_ISREAL {
      frontend.isreal := DecodeBool(v);
    } else if k == AD_BITS_PER_SAMPLE {
      frontend.bitsPerSample := DecodeInt(v);
    } else if k == RF_AGC {
      frontend.rfAgc := DecodeInt(v) != 0;
    }
  }

  method ApplyChannelField(channel: Channel, f: Field)
    modifies channel
    ensures channel.State() == ApplyChannel(old(channel.State()), f)
  {
    var v := f.value;
    var k := f.kind;
    if k in OUTPUT_KINDS {
      ApplyOutputField(channel, f);
    } else if k == CMD_CNT {
      channel.status := channel.status.(packetsIn := Decode32(v));
    } else if k == GPS_TIME {
      channel.clocktime := Signed64(v);
    } else if k == OUTPUT_METADATA_PACKETS {
      channel.status := channel.status.(packetsOut := Unsigned64(v));
    } else if k == PLL_LOCK {
      channel.pll := channel.pll.(lock := DecodeBool(v));
    } else if k == PLL_SQUARE {
      channel.pll := channel.pll.(square := DecodeBool(v));
    } else if k == PLL_WRAPS {
      channel.pll := channel.pll.(rotations := Signed64(v));
    } else if k == ENVELOPE {
      channel.linear := channel.linear.(env := DecodeBool(v));
    } else if k == SNR_SQUELCH {
      channel.snrSquelchEnable := DecodeBool(v);
    } else if k == COMMAND_TAG {
      channel.status := channel.status.(tag := Decode32(v));
    } else if k == DEMOD_TYPE {
      channel.demodType := DecodeInt(v);
    } else if k == INDEPENDENT_SIDEBAND {
      channel.filter2 := channel.filter2.(isb := DecodeBool(v));
    } else if k == THRESH_EXTEND {
      channel.fmThreshold := DecodeBool(v);
    } else if k == PLL_ENABLE {
      channel.pll := channel.pll.(enable := DecodeBool(v));
    } else if k == AGC_ENABLE {
      channel.linear := channel.linear.(agc := DecodeBool(v));
    } else if k == BIN_COUNT {
      channel.binCount := DecodeInt(v);
    } else if k == BLOCKS_SINCE_POLL {
      channel.status := channel.status.(blocksSincePoll := Unsigned64(v));
    } else if k == PRESET {
      channel.preset := Strlcpy(DecodeString(v), 32);
    } else if k == STATUS_INTERVAL {
      channel.status := channel.status.(outputInterval := DecodeInt(v));
    } else if k == SETOPTS {
      channel.options := Unsigned64(v);
    } else if k == FILTER2 {
      channel.filter2 := channel.filter2.(blocking := U32(DecodeInt(v)));
    } else if k == FILTER2_BLOCKSIZE {
      channel.filter2 := channel.filter2.(ilen := DecodeInt(v));
    } else if k == FILTER2_FIR_LENGTH {
      channel.filter2 := channel.filter2.(impulseLength := DecodeInt(v));
    }
  }

  method ApplyOutputField(channel: Channel, f: Field)
    modifies channel
    ensures channel.State() == old(channel.State()).(output := ApplyOutput(old(channel.output), f))
  {
    var v := f.value;
    var k := f.kind;
    var out := channel.output;
    if k == RTP_TIMESNAP {
      out := out.(timeSnap := U32(DecodeInt(v)));
    } else if k == OUTPUT_DATA_SOURCE_SOCKET {
      out := out.(sourceSocket := SocketUpdate(out.sourceSocket, v));
    } else if k == OUTPUT_DATA_DEST_SOCKET {
      out := out.(destSocket := SocketUpdate(out.destSocket, v));
    } else if k == OUTPUT_SSRC {
      out := out.(rtp := out.rtp.(ssrc := Decode32(v)));
    } else if k == OUTPUT_TTL {
      out := out.(ttl := Decode8(v));
    } else if k == OUTPUT_SAMPRATE {
      out := out.(samprate := U32(DecodeInt(v)));
    } else if k == OUTPUT_DATA_PACKETS {
      out := out.(rtp := out.rtp.(packets := Unsigned64(v)));
    } else if k == OUTPUT_SAMPLES {
      out := out.(samples := Unsigned64(v));
    } else if k == OUTPUT_CHANNELS {
      out := out.(channels := U32(DecodeInt(v)));
    } else if k == RTP_PT {
      out := out.(rtp := out.rtp.(pt := DecodeInt(v) % 256));
    } else if k == OUTPUT_ENCODING {
      out := out.(encoding := DecodeInt(v));
    } else if k == OPUS_BIT_RATE {
      out := out.(opusBitrate := U32(DecodeInt(v)));
    } else if k == MINPACKET {
      out := out.(minpacket := U32(DecodeInt(v)));
    } else if k == OUTPUT_ERRORS {
      out := out.(errors := Unsigned64(v));
    }
    channel.output := out;
  }

  /**
   * decode_radio_status: -1 if a pointer is NULL; otherwise every field the
   * scan visits is applied in order and the result is 0.
   */
  method DecodeRadioStatus(frontend: Frontend?, channel: Channel?, buffer: Option<seq<byte>>)
    returns (rc: int)
    modifies frontend, channel
    ensures frontend == null || channel == null || buffer.None? ==> rc == -1
    ensures frontend != null && rc == -1 ==> unchanged(frontend)
    ensures channel != null && rc == -1 ==> unchanged(channel)
    ensures frontend != null && channel != null && buffer.Some? ==>
      rc == 0 &&
      Radio(frontend.State(), channel.State()) ==
        ApplyAll(Radio(old(frontend.State()), old(channel.State())), Fields(buffer.value))
  {
    if frontend == null || channel == null || buffer.None? {
      return -1;
    }
    var buf := buffer.value;
    ghost var start := Radio(frontend.State(), channel.State());
    var cp := 0;
    while cp < |buf|
      invariant cp <= |buf|
      invariant ApplyAll(Radio(frontend.State(), channel.State()), FieldsFrom(buf, cp)) ==
        ApplyAll(start, Fields(buf))
      decreases |buf| - cp
    {
      var h := ReadFieldHeader(buf, cp);
      if !h.Hdr? {
        break;
      }
      var valueStart := cp + h.hdrLen;
      var f := Field(h.kind, buf[valueStart..valueStart + h.optlen]);
      ApplyAllStep(Radio(frontend.State(), channel.State()), buf, cp, h, f);
      ApplyField(frontend, channel, f);
      cp := valueStart + h.optlen;
    }
    return 0;
  }

  // ---------------------------------------------------------------------
  // Properties

  /** Applying the fields from `cp` is applying the field there, then the rest. */
  lemma ApplyAllStep(r: Radio, s: seq<byte>, cp: nat, h: Header, f: Field)
    requires cp < |s| && h == HeaderAt(s, cp) && h.Hdr?
    requires f == Field(h.kind, s[cp + h.hdrLen..cp + h.hdrLen + h.optlen])
    ensures ApplyAll(r, FieldsFrom(s, cp)) == ApplyAll(Apply(r, f), FieldsFrom(s, cp + h.hdrLen + h.optlen))
  {
    FieldsStep(s, cp, h);
    ApplyAllCons(r, f, FieldsFrom(s, cp + h.hdrLen + h.optlen));
  }

  lemma ApplyAllCons(r: Radio, f: Field, rest: seq<Field>)
    ensures ApplyAll(r, [f] + rest) == ApplyAll(Apply(r, f), rest)
  {
    assert ([f] + rest)[1..] == rest;
  }

  /** Type codes whose target is a socket address. */
  const SOCKET_KINDS: set<byte> := {STATUS_DEST_SOCKET, OUTPUT_DATA_SOURCE_SOCKET, OUTPUT_DATA_DEST_SOCKET}

  /** A field whose type code has no modelled target changes nothing. */
  lemma UntrackedKindSkipped(r: Radio, f: Field)
    requires f.kind !in TRACKED
    ensures Apply(r, f) == r
  {
  }

  /** GPS_TIME sets the channel clock and the front-end timestamp, to the same value, and nothing else. */
  lemma GpsTimeSetsBoth(r: Radio, v: seq<byte>)
    ensures Apply(r, Field(GPS_TIME, v)).channel == r.channel.(clocktime := Signed64(v))
    ensures Apply(r, Field(GPS_TIME, v)).frontend == r.frontend.(timestamp := Signed64(v))
  {
  }

  /**
   * What strlcpy of a decoded string keeps: at most size-1 bytes, a prefix
   * of the field value without NUL, cut only by a NUL, the end of the value
   * or the size of the buffer.
   */
  lemma {:induction false} CopiedString(v: seq<byte>, size: nat)
    requires size >= 1
    ensures var c := Strlcpy(DecodeString(v), size);
      |c| < size && |c| <= |v| && c == v[..|c|] &&
      (forall i :: 0 <= i < |c| ==> c[i] != 0) &&
      (|c| < size - 1 ==> |c| == |v| || v[|c|] == 0) &&
      |c| == if |CString(v)| < size then |CString(v)| else size - 1
  {
    CStringTerminated(v);
    var s := DecodeString(v);
    var cs := CString(s);
    assert s[|v|] == 0;
    assert |cs| <= |v|;
    assert cs == v[..|cs|];
    var c := Strlcpy(s, size);
    assert c == cs[..|c|];
    if |c| < size - 1 {
      assert c == cs;
      if |c| < |v| {
        assert s[|c|] == v[|c|];
      }
    }
  }

  /**
   * PRESET keeps the value's C string up to 31 bytes, DESCRIPTION up to
   * 127: exactly that many when the string is longer.
   */
  lemma StringFieldsTruncated(r: Radio, v: seq<byte>)
    ensures |Apply(r, Field(PRESET, v)).channel.preset| <= 31
    ensures Apply(r, Field(PRESET, v)).channel.preset <= v
    ensures |Apply(r, Field(PRESET, v)).channel.preset| == if |CString(v)| < 32 then |CString(v)| else 31
    ensures |Apply(r, Field(DESCRIPTION, v)).frontend.description| <= 127
    ensures Apply(r, Field(DESCRIPTION, v)).frontend.description <= v
    ensures |Apply(r, Field(DESCRIPTION, v)).frontend.description| == if |CString(v)| < 128 then |CString(v)| else 127
    ensures |v| <= 31 && (forall i :: 0 <= i < |v| ==> v[i] != 0) ==>
      Apply(r, Field(PRESET, v)).channel.preset == v
  {
    var preset := Apply(r, Field(PRESET, v)).channel.preset;
    var description := Apply(r, Field(DESCRIPTION, v)).frontend.description;
    StringsStored(r, v);
    CopiedString(v, 32);
    CopiedString(v, 128);
    assert preset == Strlcpy(DecodeString(v), 32);
    assert description == Strlcpy(DecodeString(v), 128);
  }

  /** PRESET and DESCRIPTION store strlcpy of the decoded string. */
  lemma StringsStored(r: Radio, v: seq<byte>)
    ensures Apply(r, Field(PRESET, v)).channel.preset == Strlcpy(DecodeString(v), 32)
    ensures Apply(r, Field(DESCRIPTION, v)).frontend.description == Strlcpy(DecodeString(v), 128)
  {
  }

  /** decode_socket into a member twice gives what it gives once. */
  lemma SocketUpdateIdempotent(prev: Option<SocketValue>, v: seq<byte>)
    ensures SocketUpdate(SocketUpdate(prev, v), v) == SocketUpdate(prev, v)
  {
  }

  /** Applying the same field again changes nothing. */
  lemma ApplyIdempotent(r: Radio, f: Field)
    ensures Apply(Apply(r, f), f) == Apply(r, f)
  {
    FrontendIdempotent(r.frontend, f);
    ChannelIdempotent(r.channel, f);
  }

  lemma FrontendIdempotent(fe: FrontendState, f: Field)
    ensures ApplyFrontend(ApplyFrontend(fe, f), f) == ApplyFrontend(fe, f)
  {
    if f.kind == STATUS_DEST_SOCKET {
      SocketUpdateIdempotent(fe.metadataDestSocket, f.value);
    }
  }

  lemma ChannelIdempotent(ch: ChannelState, f: Field)
    ensures ApplyChannel(ApplyChannel(ch, f), f) == ApplyChannel(ch, f)
  {
    var k := f.kind;
    if k in OUTPUT_KINDS {
      OutputIdempotent(ch.output, f);
    } else if k in {CMD_CNT, OUTPUT_METADATA_PACKETS, COMMAND_TAG, BLOCKS_SINCE_POLL, STATUS_INTERVAL} {
    } else if k in {PLL_LOCK, PLL_SQUARE, PLL_WRAPS, PLL_ENABLE} {
    } else if k in {FILTER2, FILTER2_BLOCKSIZE, FILTER2_FIR_LENGTH, INDEPENDENT_SIDEBAND} {
    }
  }

  lemma OutputIdempotent(out: Output, f: Field)
    ensures ApplyOutput(ApplyOutput(out, f), f) == ApplyOutput(out, f)
  {
    SocketUpdateIdempotent(out.sourceSocket, f.value);
    SocketUpdateIdempotent(out.destSocket, f.value);
  }

  /**
   * Of two fields of the same kind, the later one decides. For the socket
   * kinds this needs the later value to be one decode_socket accepts:
   * otherwise it returns NULL and the earlier socket stays.
   */
  lemma LastWriteWins(r: Radio, k: byte, v1: seq<byte>, v2: seq<byte>)
    requires k !in SOCKET_KINDS || |v2| == 6 || |v2| == 10
    ensures Apply(Apply(r, Field(k, v1)), Field(k, v2)) == Apply(r, Field(k, v2))
  {
    FrontendLastWriteWins(r.frontend, k, v1, v2);
    ChannelLastWriteWins(r.channel, k, v1, v2);
  }

  lemma FrontendLastWriteWins(fe: FrontendState, k: byte, v1: seq<byte>, v2: seq<byte>)
    requires k !in SOCKET_KINDS || |v2| == 6 || |v2| == 10
    ensures ApplyFrontend(ApplyFrontend(fe, Field(k, v1)), Field(k, v2)) == ApplyFrontend(fe, Field(k, v2))
  {
  }

  lemma ChannelLastWriteWins(ch: ChannelState, k: byte, v1: seq<byte>, v2: seq<byte>)
    requires k !in SOCKET_KINDS || |v2| == 6 || |v2| == 10
    ensures ApplyChannel(ApplyChannel(ch, Field(k, v1)), Field(k, v2)) == ApplyChannel(ch, Field(k, v2))
  {
    if k in OUTPUT_KINDS {
      OutputLastWriteWins(ch.output, k, v1, v2);
    }
  }

  lemma OutputLastWriteWins(out: Output, k: byte, v1: seq<byte>, v2: seq<byte>)
    requires k !in SOCKET_KINDS || |v2| == 6 || |v2| == 10
    ensures ApplyOutput(ApplyOutput(out, Field(k, v1)), Field(k, v2)) == ApplyOutput(out, Field(k, v2))
  {
  }

  /**
   * A socket field stores what decode_socket writes in its own member, and
   * a value of any length but 6 or 10 leaves that member as it was.
   */
  lemma SocketFieldsStored(r: Radio, v: seq<byte>)
    ensures var d := if |v| == 6 || |v| == 10 then Some(DecodeSocket(v).value) else None;
      && Apply(r, Field(STATUS_DEST_SOCKET, v)).frontend.metadataDestSocket
         == (if d.Some? then d else r.frontend.metadataDestSocket)
      && Apply(r, Field(OUTPUT_DATA_SOURCE_SOCKET, v)).channel.output.sourceSocket
         == (if d.Some? then d else r.channel.output.sourceSocket)
      && Apply(r, Field(OUTPUT_DATA_DEST_SOCKET, v)).channel.output.destSocket
         == (if d.Some? then d else r.channel.output.destSocket)
    ensures Apply(r, Field(OUTPUT_DATA_SOURCE_SOCKET, v)).channel.output.destSocket == r.channel.output.destSocket
    ensures Apply(r, Field(OUTPUT_DATA_DEST_SOCKET, v)).channel.output.sourceSocket == r.channel.output.sourceSocket
  {
  }

  /** A status record holding one encoded integer field, then EOL, is that field applied. */
  lemma {:induction false} OneFieldRecord(r: Radio, t: byte, x: nat)
    requires t != EOL && x < TWO64
    ensures ApplyAll(r, Fields(IntField(t, x) + [EOL])) == Apply(r, Field(t, IntField(t, x)[2..]))
  {
    IntFieldEncoded(t, x);
    FieldsCons(t, IntField(t, x)[2..], [EOL]);
    FieldsEol([]);
    assert [EOL] + [] == [EOL];
  }

  /** Where the SSRC, command tag and packet count fields land. */
  lemma CounterTargets(r: Radio, v: seq<byte>)
    ensures Apply(r, Field(OUTPUT_SSRC, v)).channel.output.rtp.ssrc == Decode32(v)
    ensures Apply(r, Field(COMMAND_TAG, v)).channel.status.tag == Decode32(v)
    ensures Apply(r, Field(OUTPUT_DATA_PACKETS, v)).channel.output.rtp.packets == Unsigned64(v)
  {
  }

  /**
   * encode_int64 by the radio, decode_radio_status by the gateway: the SSRC,
   * the command tag and the packet counter arrive unchanged.
   */
  lemma StatusRoundTrip(r: Radio, x: nat, n: nat)
    requires x < TWO32 && n < TWO64
    ensures ApplyAll(r, Fields(IntField(OUTPUT_SSRC, x) + [EOL])).channel.output.rtp.ssrc == x
    ensures ApplyAll(r, Fields(IntField(COMMAND_TAG, x) + [EOL])).channel.status.tag == x
    ensures ApplyAll(r, Fields(IntField(OUTPUT_DATA_PACKETS, n) + [EOL])).channel.output.rtp.packets == n
  {
    OneFieldRecord(r, OUTPUT_SSRC, x);
    IntRoundTrip(OUTPUT_SSRC, x);
    CounterTargets(r, IntField(OUTPUT_SSRC, x)[2..]);
    OneFieldRecord(r, COMMAND_TAG, x);
    IntRoundTrip(COMMAND_TAG, x);
    CounterTargets(r, IntField(COMMAND_TAG, x)[2..]);
    OneFieldRecord(r, OUTPUT_DATA_PACKETS, n);
    IntRoundTrip(OUTPUT_DATA_PACKETS, n);
    CounterTargets(r, IntField(OUTPUT_DATA_PACKETS, n)[2..]);
  }
}
