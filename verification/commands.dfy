/**
 * The control commands ka9q-web sends to radiod (ka9q-web.c): a CMD byte,
 * a fixed sequence of TLV fields, and EOL. Each builder writes into a fresh
 * packet buffer through the encoders of status.c; the random command tag
 * (`arc4random`/`random`) is a parameter, and the send itself is left to
 * the caller.
 */
module Commands {
  import opened Bytes
  import opened Tlv
  import opened Scan
  import opened Sessions
  import Spectrum

  /** PKTSIZE of rtp.h: the size of the command buffers. */
  const PKTSIZE: nat := 65536

  /** The size of control_poll's own buffer. */
  const POLL_BUFFER_SIZE: nat := 128

  /** The size of `requested_preset` in a session. */
  const PRESET_SIZE: nat := 32

  /** 10000000.0 (10 MHz), the start frequency, as an IEEE 754 double. */
  const START_FREQUENCY_BITS: nat := 0x4163_12D0_0000_0000

  /** The number of times stop_spectrum_stream sends its command. */
  const STOP_REPEATS: nat := 3

  // ---------------------------------------------------------------------
  // Records of fields

  /** Fields that the encoders can write: no EOL type, a length that fits 32 bits. */
  predicate Encodable(fs: seq<Field>)
  {
    fs == [] || (fs[0].kind != EOL && |fs[0].value| < TWO32 && Encodable(fs[1..]))
  }

  /** The fields one after the other, each as the encoders write it. */
  function Encode(fs: seq<Field>): (r: seq<byte>)
    requires Encodable(fs)
    ensures fs == [] <==> r == []
  {
    if fs == [] then [] else Encoded(fs[0].kind, fs[0].value) + Encode(fs[1..])
  }

  /** A command packet: CMD, the fields in order, EOL. */
  function Command(fs: seq<Field>): (r: seq<byte>)
    requires Encodable(fs)
    ensures |r| >= 2 && r[0] == CMD && r[|r| - 1] == EOL
  {
    [CMD] + Encode(fs) + [EOL]
  }

  /** The field encode_int writes for the C `int` value of `x`, sign-extended to 64 bits. */
  function IntEntry(t: byte, x: int): (e: seq<Field>)
    requires t != EOL
    ensures Encodable(e) && Encode(e) == IntField(t, U64(I32(x)))
  {
    IntFieldEncoded(t, U64(I32(x)));
    [Field(t, IntField(t, U64(I32(x)))[2..])]
  }

  /** The field encode_double writes: none for a NaN. */
  function DoubleEntry(t: byte, bits: nat): (e: seq<Field>)
    requires t != EOL && bits < TWO64
    ensures Encodable(e)
    ensures IsNaN64(bits) ==> Encode(e) == []
    ensures !IsNaN64(bits) ==> Encode(e) == IntField(t, bits)
  {
    IntFieldEncoded(t, bits);
    if IsNaN64(bits) then [] else [Field(t, IntField(t, bits)[2..])]
  }

  /** The field encode_float writes: none for a NaN. */
  function FloatEntry(t: byte, bits: nat): (e: seq<Field>)
    requires t != EOL && bits < TWO32
    ensures Encodable(e) && Encode(e) == Spectrum.FloatField(t, bits)
  {
    IntFieldEncoded(t, bits);
    if IsNaN32(bits) then [] else [Field(t, IntField(t, bits)[2..])]
  }

  /** The field encode_string writes. */
  function StringEntry(t: byte, s: seq<byte>): (e: seq<Field>)
    requires t != EOL && |s| < TWO32
    ensures Encodable(e) && Encode(e) == [t] + LengthHeader(|s|) + s
  {
    [Field(t, s)]
  }

  /** Encoding two runs of fields is encoding the first, then the second. */
  lemma {:induction false} EncodeAppend(a: seq<Field>, b: seq<Field>)
    requires Encodable(a) && Encodable(b)
    ensures Encodable(a + b) && Encode(a + b) == Encode(a) + Encode(b)
  {
    if a == [] {
      assert a + b == b;
    } else {
      var ab := a + b;
      assert ab[0] == a[0] && ab[1..] == a[1..] + b;
      EncodeAppend(a[1..], b);
      assert Encode(ab) == Encoded(a[0].kind, a[0].value) + Encode(a[1..] + b);
      Reassociate(Encoded(a[0].kind, a[0].value), Encode(a[1..]), Encode(b));
    }
  }

  /** Appending is associative (the writer appends to what it has written). */
  lemma Reassociate(a: seq<byte>, b: seq<byte>, c: seq<byte>)
    ensures a + b + c == a + (b + c)
  {
  }

  /** Appending is associative, for four parts. */
  lemma Reassociate4(a: seq<byte>, b: seq<byte>, c: seq<byte>, d: seq<byte>)
    ensures a + b + c + d == a + (b + c + d)
  {
  }

  /** Scanning encoded fields followed by EOL gives back exactly those fields. */
  lemma {:induction false} RecordScan(fs: seq<Field>)
    requires Encodable(fs)
    ensures Fields(Encode(fs) + [EOL]) == fs
  {
    if fs == [] {
      FieldsEol([]);
      assert [EOL] + [] == [EOL];
    } else {
      var rest := Encode(fs[1..]) + [EOL];
      assert Encode(fs) + [EOL] == Encoded(fs[0].kind, fs[0].value) + rest;
      FieldsCons(fs[0].kind, fs[0].value, rest);
      RecordScan(fs[1..]);
      assert [fs[0]] + fs[1..] == fs;
    }
  }

  /** What radiod scans after the CMD byte of a command is its field list. */
  lemma ScanCommand(fs: seq<Field>)
    requires Encodable(fs)
    ensures Fields(Command(fs)[1..]) == fs
  {
    assert Command(fs)[1..] == Encode(fs) + [EOL];
    RecordScan(fs);
  }

  /** The value bytes of an encode_int field read back as the C `int` and its 32-bit residue. */
  lemma IntEntryReads(t: byte, x: int)
    requires t != EOL
    ensures IntEntry(t, x)[0].value == IntField(t, U64(I32(x)))[2..]
    ensures Value(IntEntry(t, x)[0].value) % TWO32 == U32(x)
    ensures DecodeInt(IntEntry(t, x)[0].value) == I32(x)
  {
    var y := I32(x);
    IntRoundTrip(t, U64(y));
    SignedIntRoundTrip(t, y);
    var v := Value(IntField(t, U64(y))[2..]);
    ModMod(v, TWO32, TWO32);
    ModMod(y, TWO32, TWO32);
    assert TWO32 * TWO32 == TWO64;
  }

  /** The first value of a kind in `a + b`: from `a` when `a` has one. */
  lemma {:induction false} FirstValueAppend(a: seq<Field>, b: seq<Field>, kind: byte)
    ensures FirstValue(a + b, kind) == if FirstValue(a, kind).Some? then FirstValue(a, kind) else FirstValue(b, kind)
  {
    if a != [] {
      assert (a + b)[0] == a[0];
      assert (a + b)[1..] == a[1..] + b;
      FirstValueAppend(a[1..], b, kind);
    } else {
      assert a + b == b;
    }
  }

  // ---------------------------------------------------------------------
  // The field lists of the commands

  /** init_control's first command: tune the audio channel to 10 MHz in AM. */
  function AudioStartFields(ssrc: nat, tag: nat): (fs: seq<Field>)
    ensures Encodable(fs)
  {
    EncodeAppend(DoubleEntry(RADIO_FREQUENCY, START_FREQUENCY_BITS), IntEntry(OUTPUT_SSRC, ssrc));
    EncodeAppend(DoubleEntry(RADIO_FREQUENCY, START_FREQUENCY_BITS) + IntEntry(OUTPUT_SSRC, ssrc), IntEntry(COMMAND_TAG, tag));
    EncodeAppend(DoubleEntry(RADIO_FREQUENCY, START_FREQUENCY_BITS) + IntEntry(OUTPUT_SSRC, ssrc) + IntEntry(COMMAND_TAG, tag),
      StringEntry(PRESET, ['a' as byte, 'm' as byte]));
    DoubleEntry(RADIO_FREQUENCY, START_FREQUENCY_BITS) + IntEntry(OUTPUT_SSRC, ssrc) + IntEntry(COMMAND_TAG, tag)
      + StringEntry(PRESET, ['a' as byte, 'm' as byte])
  }

  /** init_control's second command: tune the spectrum channel `ssrc + 1` to 10 MHz. */
  function SpectrumStartFields(ssrc: nat, tag: nat): (fs: seq<Field>)
    ensures Encodable(fs)
  {
    EncodeAppend(DoubleEntry(RADIO_FREQUENCY, START_FREQUENCY_BITS), IntEntry(OUTPUT_SSRC, ssrc + 1));
    EncodeAppend(DoubleEntry(RADIO_FREQUENCY, START_FREQUENCY_BITS) + IntEntry(OUTPUT_SSRC, ssrc + 1), IntEntry(COMMAND_TAG, tag));
    DoubleEntry(RADIO_FREQUENCY, START_FREQUENCY_BITS) + IntEntry(OUTPUT_SSRC, ssrc + 1) + IntEntry(COMMAND_TAG, tag)
  }

  /** control_set_frequency's command: the new frequency for the audio channel. */
  function TuneFields(ssrc: nat, tag: nat, freqBits: nat): (fs: seq<Field>)
    requires freqBits < TWO64
    ensures Encodable(fs)
  {
    EncodeAppend(DoubleEntry(RADIO_FREQUENCY, freqBits), IntEntry(OUTPUT_SSRC, ssrc));
    EncodeAppend(DoubleEntry(RADIO_FREQUENCY, freqBits) + IntEntry(OUTPUT_SSRC, ssrc), IntEntry(COMMAND_TAG, tag));
    DoubleEntry(RADIO_FREQUENCY, freqBits) + IntEntry(OUTPUT_SSRC, ssrc) + IntEntry(COMMAND_TAG, tag)
  }

  /** control_set_mode's command: the preset name for the audio channel. */
  function ModeFields(ssrc: nat, tag: nat, preset: seq<byte>): (fs: seq<Field>)
    requires |preset| < TWO32
    ensures Encodable(fs)
  {
    EncodeAppend(StringEntry(PRESET, preset), IntEntry(OUTPUT_SSRC, ssrc));
    EncodeAppend(StringEntry(PRESET, preset) + IntEntry(OUTPUT_SSRC, ssrc), IntEntry(COMMAND_TAG, tag));
    StringEntry(PRESET, preset) + IntEntry(OUTPUT_SSRC, ssrc) + IntEntry(COMMAND_TAG, tag)
  }

  /** stop_spectrum_stream's command: tune the spectrum channel to 0 Hz. */
  function StopFields(ssrc: nat, tag: nat): (fs: seq<Field>)
    ensures Encodable(fs)
  {
    EncodeAppend(IntEntry(OUTPUT_SSRC, ssrc + 1), IntEntry(COMMAND_TAG, tag));
    EncodeAppend(IntEntry(OUTPUT_SSRC, ssrc + 1) + IntEntry(COMMAND_TAG, tag), IntEntry(DEMOD_TYPE, Spectrum.SPECT_DEMOD));
    EncodeAppend(IntEntry(OUTPUT_SSRC, ssrc + 1) + IntEntry(COMMAND_TAG, tag) + IntEntry(DEMOD_TYPE, Spectrum.SPECT_DEMOD),
      DoubleEntry(RADIO_FREQUENCY, 0));
    IntEntry(OUTPUT_SSRC, ssrc + 1) + IntEntry(COMMAND_TAG, tag) + IntEntry(DEMOD_TYPE, Spectrum.SPECT_DEMOD)
      + DoubleEntry(RADIO_FREQUENCY, 0)
  }

  /** control_get_powers's command: the spectrum channel's frequency, bin count and bin width. */
  function PowersFields(ssrc: nat, tag: nat, freqBits: nat, bins: int, binBwBits: nat): (fs: seq<Field>)
    requires freqBits < TWO64 && binBwBits < TWO32
    ensures Encodable(fs)
  {
    var e1 := IntEntry(OUTPUT_SSRC, ssrc + 1);
    var e2 := IntEntry(COMMAND_TAG, tag);
    var e3 := IntEntry(DEMOD_TYPE, Spectrum.SPECT_DEMOD);
    var e4 := DoubleEntry(RADIO_FREQUENCY, freqBits);
    var e5 := IntEntry(BIN_COUNT, bins);
    var e6 := FloatEntry(NONCOHERENT_BIN_BW, binBwBits);
    EncodeAppend(e1, e2);
    EncodeAppend(e1 + e2, e3);
    EncodeAppend(e1 + e2 + e3, e4);
    EncodeAppend(e1 + e2 + e3 + e4, e5);
    EncodeAppend(e1 + e2 + e3 + e4 + e5, e6);
    e1 + e2 + e3 + e4 + e5 + e6
  }

  /** control_poll's command: a poll of the audio channel. */
  function PollFields(ssrc: nat, tag: nat): (fs: seq<Field>)
    ensures Encodable(fs)
  {
    EncodeAppend(IntEntry(COMMAND_TAG, tag), IntEntry(OUTPUT_SSRC, ssrc));
    IntEntry(COMMAND_TAG, tag) + IntEntry(OUTPUT_SSRC, ssrc)
  }

  // ---------------------------------------------------------------------
  // What radiod reads back from a command

  /** get_ssrc and get_tag: the first field of `kind` is there and its value is `x` modulo 2^32. */
  predicate Reads32(fs: seq<Field>, kind: byte, x: nat)
  {
    FirstValue(fs, kind).Some? && Value(FirstValue(fs, kind).value) % TWO32 == x
  }

  /** decode_int: the first field of `kind` is there and reads as the C `int` `x`. */
  predicate ReadsInt(fs: seq<Field>, kind: byte, x: int)
  {
    FirstValue(fs, kind).Some? && DecodeInt(FirstValue(fs, kind).value) == x
  }

  /** An encode_int field is found by its kind and reads back as the value written. */
  lemma IntEntryFound(kind: byte, x: int)
    requires kind != EOL
    ensures FirstValue(IntEntry(kind, x), kind) == Some(IntEntry(kind, x)[0].value)
    ensures Reads32(IntEntry(kind, x), kind, U32(x)) && ReadsInt(IntEntry(kind, x), kind, I32(x))
  {
    IntEntryReads(kind, x);
  }

  /**
   * A powers request scans as its fields in order: radiod's get_ssrc finds
   * the spectrum channel `ssrc + 1`, get_tag the tag, and the demodulator
   * type and bin count read back as sent.
   */
  lemma PowersRequestReads(ssrc: nat, tag: nat, freqBits: nat, bins: int, binBwBits: nat)
    requires freqBits < TWO64 && binBwBits < TWO32
    ensures var fs := Fields(Command(PowersFields(ssrc, tag, freqBits, bins, binBwBits))[1..]);
      && fs == PowersFields(ssrc, tag, freqBits, bins, binBwBits)
      && Reads32(fs, OUTPUT_SSRC, U32(ssrc + 1)) && Reads32(fs, COMMAND_TAG, U32(tag))
      && ReadsInt(fs, DEMOD_TYPE, Spectrum.SPECT_DEMOD) && ReadsInt(fs, BIN_COUNT, I32(bins))
  {
    var e1 := IntEntry(OUTPUT_SSRC, ssrc + 1);
    var e2 := IntEntry(COMMAND_TAG, tag);
    var e3 := IntEntry(DEMOD_TYPE, Spectrum.SPECT_DEMOD);
    var e4 := DoubleEntry(RADIO_FREQUENCY, freqBits);
    var e5 := IntEntry(BIN_COUNT, bins);
    var e6 := FloatEntry(NONCOHERENT_BIN_BW, binBwBits);
    ScanCommand(PowersFields(ssrc, tag, freqBits, bins, binBwBits));
    Lacks(e1, OUTPUT_SSRC, COMMAND_TAG);
    Lacks(e1, OUTPUT_SSRC, DEMOD_TYPE);
    Lacks(e1, OUTPUT_SSRC, BIN_COUNT);
    Lacks(e2, COMMAND_TAG, DEMOD_TYPE);
    Lacks(e2, COMMAND_TAG, BIN_COUNT);
    Lacks(e3, DEMOD_TYPE, BIN_COUNT);
    Lacks(e4, RADIO_FREQUENCY, BIN_COUNT);
    Lookup6(e1, e2, e3, e4, e5, e6, OUTPUT_SSRC);
    Lookup6(e1, e2, e3, e4, e5, e6, COMMAND_TAG);
    Lookup6(e1, e2, e3, e4, e5, e6, DEMOD_TYPE);
    Lookup6(e1, e2, e3, e4, e5, e6, BIN_COUNT);
    IntEntryFound(OUTPUT_SSRC, ssrc + 1);
    IntEntryFound(COMMAND_TAG, tag);
    IntEntryFound(DEMOD_TYPE, Spectrum.SPECT_DEMOD);
    IntEntryFound(BIN_COUNT, bins);
  }

  /** A run of at most one field, of kind `t`, has no field of another kind. */
  lemma Lacks(e: seq<Field>, t: byte, kind: byte)
    requires |e| <= 1 && (|e| == 1 ==> e[0].kind == t) && kind != t
    ensures FirstValue(e, kind).None?
  {
  }

  /** The first field of a kind in six runs of fields: from the first run that has one. */
  lemma Lookup6(e1: seq<Field>, e2: seq<Field>, e3: seq<Field>, e4: seq<Field>, e5: seq<Field>, e6: seq<Field>, kind: byte)
    ensures FirstValue(e1 + e2 + e3 + e4 + e5 + e6, kind) ==
      if FirstValue(e1, kind).Some? then FirstValue(e1, kind)
      else if FirstValue(e2, kind).Some? then FirstValue(e2, kind)
      else if FirstValue(e3, kind).Some? then FirstValue(e3, kind)
      else if FirstValue(e4, kind).Some? then FirstValue(e4, kind)
      else if FirstValue(e5, kind).Some? then FirstValue(e5, kind)
      else FirstValue(e6, kind)
  {
    FirstValueAppend(e1, e2, kind);
    FirstValueAppend(e1 + e2, e3, kind);
    FirstValueAppend(e1 + e2 + e3, e4, kind);
    FirstValueAppend(e1 + e2 + e3 + e4, e5, kind);
    FirstValueAppend(e1 + e2 + e3 + e4 + e5, e6, kind);
  }

  /** The first field of a kind in four runs of fields. */
  lemma Lookup4(e1: seq<Field>, e2: seq<Field>, e3: seq<Field>, e4: seq<Field>, kind: byte)
    ensures FirstValue(e1 + e2 + e3 + e4, kind) ==
      if FirstValue(e1, kind).Some? then FirstValue(e1, kind)
      else if FirstValue(e2, kind).Some? then FirstValue(e2, kind)
      else if FirstValue(e3, kind).Some? then FirstValue(e3, kind)
      else FirstValue(e4, kind)
  {
    FirstValueAppend(e1, e2, kind);
    FirstValueAppend(e1 + e2, e3, kind);
    FirstValueAppend(e1 + e2 + e3, e4, kind);
  }

  /** The first field of a kind in three runs of fields. */
  lemma Lookup3(e1: seq<Field>, e2: seq<Field>, e3: seq<Field>, kind: byte)
    ensures FirstValue(e1 + e2 + e3, kind) ==
      if FirstValue(e1, kind).Some? then FirstValue(e1, kind)
      else if FirstValue(e2, kind).Some? then FirstValue(e2, kind)
      else FirstValue(e3, kind)
  {
    FirstValueAppend(e1, e2, kind);
    FirstValueAppend(e1 + e2, e3, kind);
  }

  /**
   * The stop command addresses the spectrum channel `ssrc + 1` with the
   * tag, asks for the spectrum demodulator and tunes to 0 Hz (an empty
   * RADIO_FREQUENCY value).
   */
  lemma StopRequestReads(ssrc: nat, tag: nat)
    ensures var fs := Fields(Command(StopFields(ssrc, tag))[1..]);
      && fs == StopFields(ssrc, tag)
      && Reads32(fs, OUTPUT_SSRC, U32(ssrc + 1)) && Reads32(fs, COMMAND_TAG, U32(tag))
      && ReadsInt(fs, DEMOD_TYPE, Spectrum.SPECT_DEMOD) && FirstValue(fs, RADIO_FREQUENCY) == Some([])
  {
    var e1 := IntEntry(OUTPUT_SSRC, ssrc + 1);
    var e2 := IntEntry(COMMAND_TAG, tag);
    var e3 := IntEntry(DEMOD_TYPE, Spectrum.SPECT_DEMOD);
    var e4 := DoubleEntry(RADIO_FREQUENCY, 0);
    ScanCommand(StopFields(ssrc, tag));
    Lacks(e1, OUTPUT_SSRC, COMMAND_TAG);
    Lacks(e1, OUTPUT_SSRC, DEMOD_TYPE);
    Lacks(e1, OUTPUT_SSRC, RADIO_FREQUENCY);
    Lacks(e2, COMMAND_TAG, DEMOD_TYPE);
    Lacks(e2, COMMAND_TAG, RADIO_FREQUENCY);
    Lacks(e3, DEMOD_TYPE, RADIO_FREQUENCY);
    Lookup4(e1, e2, e3, e4, OUTPUT_SSRC);
    Lookup4(e1, e2, e3, e4, COMMAND_TAG);
    Lookup4(e1, e2, e3, e4, DEMOD_TYPE);
    Lookup4(e1, e2, e3, e4, RADIO_FREQUENCY);
    IntEntryFound(OUTPUT_SSRC, ssrc + 1);
    IntEntryFound(COMMAND_TAG, tag);
    IntEntryFound(DEMOD_TYPE, Spectrum.SPECT_DEMOD);
    assert IntField(RADIO_FREQUENCY, 0) == [RADIO_FREQUENCY, 0];
  }

  /** A poll carries the tag first and then the polled SSRC. */
  lemma PollRequestReads(ssrc: nat, tag: nat)
    ensures var fs := Fields(Command(PollFields(ssrc, tag))[1..]);
      && fs == PollFields(ssrc, tag) && fs[0].kind == COMMAND_TAG && fs[1].kind == OUTPUT_SSRC
      && Reads32(fs, COMMAND_TAG, U32(tag)) && Reads32(fs, OUTPUT_SSRC, U32(ssrc))
  {
    var e1 := IntEntry(COMMAND_TAG, tag);
    var e2 := IntEntry(OUTPUT_SSRC, ssrc);
    ScanCommand(PollFields(ssrc, tag));
    Lacks(e1, COMMAND_TAG, OUTPUT_SSRC);
    FirstValueAppend(e1, e2, COMMAND_TAG);
    FirstValueAppend(e1, e2, OUTPUT_SSRC);
    IntEntryFound(COMMAND_TAG, tag);
    IntEntryFound(OUTPUT_SSRC, ssrc);
  }

  /**
   * A tuning command addresses the audio channel `ssrc` with the tag; the
   * frequency field is there exactly when the frequency is not a NaN.
   */
  lemma TuneRequestReads(ssrc: nat, tag: nat, freqBits: nat)
    requires freqBits < TWO64
    ensures var fs := Fields(Command(TuneFields(ssrc, tag, freqBits))[1..]);
      && fs == TuneFields(ssrc, tag, freqBits)
      && Reads32(fs, OUTPUT_SSRC, U32(ssrc)) && Reads32(fs, COMMAND_TAG, U32(tag))
      && (FirstValue(fs, RADIO_FREQUENCY).Some? <==> !IsNaN64(freqBits))
  {
    var e1 := DoubleEntry(RADIO_FREQUENCY, freqBits);
    var e2 := IntEntry(OUTPUT_SSRC, ssrc);
    var e3 := IntEntry(COMMAND_TAG, tag);
    ScanCommand(TuneFields(ssrc, tag, freqBits));
    Lacks(e1, RADIO_FREQUENCY, OUTPUT_SSRC);
    Lacks(e1, RADIO_FREQUENCY, COMMAND_TAG);
    Lacks(e2, OUTPUT_SSRC, COMMAND_TAG);
    Lacks(e2, OUTPUT_SSRC, RADIO_FREQUENCY);
    Lacks(e3, COMMAND_TAG, RADIO_FREQUENCY);
    Lookup3(e1, e2, e3, OUTPUT_SSRC);
    Lookup3(e1, e2, e3, COMMAND_TAG);
    Lookup3(e1, e2, e3, RADIO_FREQUENCY);
    IntEntryFound(OUTPUT_SSRC, ssrc);
    IntEntryFound(COMMAND_TAG, tag);
  }

  /** A mode command carries the preset name unchanged, then the audio SSRC and the tag. */
  lemma ModeRequestReads(ssrc: nat, tag: nat, preset: seq<byte>)
    requires |preset| < TWO32
    ensures var fs := Fields(Command(ModeFields(ssrc, tag, preset))[1..]);
      && fs == ModeFields(ssrc, tag, preset) && FirstValue(fs, PRESET) == Some(preset)
      && Reads32(fs, OUTPUT_SSRC, U32(ssrc)) && Reads32(fs, COMMAND_TAG, U32(tag))
  {
    var e1 := StringEntry(PRESET, preset);
    var e2 := IntEntry(OUTPUT_SSRC, ssrc);
    var e3 := IntEntry(COMMAND_TAG, tag);
    ScanCommand(ModeFields(ssrc, tag, preset));
    Lacks(e1, PRESET, OUTPUT_SSRC);
    Lacks(e1, PRESET, COMMAND_TAG);
    Lacks(e2, OUTPUT_SSRC, COMMAND_TAG);
    Lookup3(e1, e2, e3, OUTPUT_SSRC);
    Lookup3(e1, e2, e3, COMMAND_TAG);
    Lookup3(e1, e2, e3, PRESET);
    IntEntryFound(OUTPUT_SSRC, ssrc);
    IntEntryFound(COMMAND_TAG, tag);
  }

  /**
   * init_control's first command tunes the audio channel `ssrc` to 10 MHz
   * in preset "am".
   */
  lemma AudioStartReads(ssrc: nat, tag: nat)
    ensures var fs := Fields(Command(AudioStartFields(ssrc, tag))[1..]);
      && fs == AudioStartFields(ssrc, tag)
      && Reads32(fs, OUTPUT_SSRC, U32(ssrc)) && Reads32(fs, COMMAND_TAG, U32(tag))
      && FirstValue(fs, PRESET) == Some(['a' as byte, 'm' as byte])
      && FirstValue(fs, RADIO_FREQUENCY) == Some(IntField(RADIO_FREQUENCY, START_FREQUENCY_BITS)[2..])
  {
    var e1 := DoubleEntry(RADIO_FREQUENCY, START_FREQUENCY_BITS);
    var e2 := IntEntry(OUTPUT_SSRC, ssrc);
    var e3 := IntEntry(COMMAND_TAG, tag);
    var e4 := StringEntry(PRESET, ['a' as byte, 'm' as byte]);
    StartFrequencyEntry();
    ScanCommand(AudioStartFields(ssrc, tag));
    Lacks(e1, RADIO_FREQUENCY, OUTPUT_SSRC);
    Lacks(e1, RADIO_FREQUENCY, COMMAND_TAG);
    Lacks(e1, RADIO_FREQUENCY, PRESET);
    Lacks(e2, OUTPUT_SSRC, COMMAND_TAG);
    Lacks(e2, OUTPUT_SSRC, PRESET);
    Lacks(e3, COMMAND_TAG, PRESET);
    Lookup4(e1, e2, e3, e4, OUTPUT_SSRC);
    Lookup4(e1, e2, e3, e4, COMMAND_TAG);
    Lookup4(e1, e2, e3, e4, PRESET);
    Lookup4(e1, e2, e3, e4, RADIO_FREQUENCY);
    IntEntryFound(OUTPUT_SSRC, ssrc);
    IntEntryFound(COMMAND_TAG, tag);
  }

  /** 10 MHz as a double is not a NaN, so its field is sent. */
  lemma StartFrequencyEntry()
    ensures DoubleEntry(RADIO_FREQUENCY, START_FREQUENCY_BITS)
      == [Field(RADIO_FREQUENCY, IntField(RADIO_FREQUENCY, START_FREQUENCY_BITS)[2..])]
  {
    assert !IsNaN64(START_FREQUENCY_BITS);
  }

  /** init_control's second command tunes the spectrum channel `ssrc + 1` to 10 MHz. */
  lemma SpectrumStartReads(ssrc: nat, tag: nat)
    ensures var fs := Fields(Command(SpectrumStartFields(ssrc, tag))[1..]);
      && fs == SpectrumStartFields(ssrc, tag)
      && Reads32(fs, OUTPUT_SSRC, U32(ssrc + 1)) && Reads32(fs, COMMAND_TAG, U32(tag))
      && FirstValue(fs, RADIO_FREQUENCY) == Some(IntField(RADIO_FREQUENCY, START_FREQUENCY_BITS)[2..])
  {
    ScanCommand(SpectrumStartFields(ssrc, tag));
    SpectrumStartLookups(ssrc, tag);
  }

  /** The lookups of SpectrumStartReads, on the field list itself. */
  lemma SpectrumStartLookups(ssrc: nat, tag: nat)
    ensures var fs := SpectrumStartFields(ssrc, tag);
      && Reads32(fs, OUTPUT_SSRC, U32(ssrc + 1)) && Reads32(fs, COMMAND_TAG, U32(tag))
      && FirstValue(fs, RADIO_FREQUENCY) == Some(IntField(RADIO_FREQUENCY, START_FREQUENCY_BITS)[2..])
  {
    var e1 := DoubleEntry(RADIO_FREQUENCY, START_FREQUENCY_BITS);
    var e2 := IntEntry(OUTPUT_SSRC, ssrc + 1);
    var e3 := IntEntry(COMMAND_TAG, tag);
    StartFrequencyEntry();
    Lacks(e1, RADIO_FREQUENCY, OUTPUT_SSRC);
    Lacks(e1, RADIO_FREQUENCY, COMMAND_TAG);
    Lacks(e2, OUTPUT_SSRC, COMMAND_TAG);
    var fs := SpectrumStartFields(ssrc, tag);
    assert fs == e1 + e2 + e3;
    Lookup3(e1, e2, e3, OUTPUT_SSRC);
    Lookup3(e1, e2, e3, COMMAND_TAG);
    Lookup3(e1, e2, e3, RADIO_FREQUENCY);
    IntEntryFound(OUTPUT_SSRC, ssrc + 1);
    IntEntryFound(COMMAND_TAG, tag);
  }

  // ---------------------------------------------------------------------
  // Writing fields into a command buffer

  /** encode_int into a command under construction. */
  method PutInt(w: Writer, ghost fs: seq<Field>, t: byte, x: int) returns (ghost fs': seq<Field>)
    requires w.Valid() && w.Room() >= 10 && t != EOL
    requires Encodable(fs) && w.Written() == [CMD] + Encode(fs)
    modifies w, w.data
    ensures w.Valid() && w.Room() >= old(w.Room()) - 10
    ensures fs' == fs + IntEntry(t, x) && Encodable(fs') && w.Written() == [CMD] + Encode(fs')
    ensures fs == [] ==> fs' == IntEntry(t, x)
  {
    var _ := w.EncodeInt(t, I32(x));
    EncodeAppend(fs, IntEntry(t, x));
    Reassociate([CMD], Encode(fs), Encode(IntEntry(t, x)));
    fs' := fs + IntEntry(t, x);
  }

  /** encode_double into a command under construction. */
  method PutDouble(w: Writer, ghost fs: seq<Field>, t: byte, bits: nat) returns (ghost fs': seq<Field>)
    requires w.Valid() && w.Room() >= 10 && t != EOL && bits < TWO64
    requires Encodable(fs) && w.Written() == [CMD] + Encode(fs)
    modifies w, w.data
    ensures w.Valid() && w.Room() >= old(w.Room()) - 10
    ensures fs' == fs + DoubleEntry(t, bits) && Encodable(fs') && w.Written() == [CMD] + Encode(fs')
    ensures fs == [] ==> fs' == DoubleEntry(t, bits)
  {
    var _ := w.EncodeDouble(t, bits);
    EncodeAppend(fs, DoubleEntry(t, bits));
    Reassociate([CMD], Encode(fs), Encode(DoubleEntry(t, bits)));
    fs' := fs + DoubleEntry(t, bits);
  }

  /** encode_float into a command under construction. */
  method PutFloat(w: Writer, ghost fs: seq<Field>, t: byte, bits: nat) returns (ghost fs': seq<Field>)
    requires w.Valid() && w.Room() >= 10 && t != EOL && bits < TWO32
    requires Encodable(fs) && w.Written() == [CMD] + Encode(fs)
    modifies w, w.data
    ensures w.Valid() && w.Room() >= old(w.Room()) - 10
    ensures fs' == fs + FloatEntry(t, bits) && Encodable(fs') && w.Written() == [CMD] + Encode(fs')
    ensures fs == [] ==> fs' == FloatEntry(t, bits)
  {
    var _ := w.EncodeFloat(t, bits);
    EncodeAppend(fs, FloatEntry(t, bits));
    Reassociate([CMD], Encode(fs), Encode(FloatEntry(t, bits)));
    fs' := fs + FloatEntry(t, bits);
  }

  /** encode_string into a command under construction. */
  method PutString(w: Writer, ghost fs: seq<Field>, t: byte, s: seq<byte>) returns (ghost fs': seq<Field>)
    requires w.Valid() && |s| < TWO32 && w.Room() >= 6 + |s| && t != EOL
    requires Encodable(fs) && w.Written() == [CMD] + Encode(fs)
    modifies w, w.data
    ensures w.Valid() && w.Room() >= old(w.Room()) - 6 - |s|
    ensures fs' == fs + StringEntry(t, s) && Encodable(fs') && w.Written() == [CMD] + Encode(fs')
    ensures fs == [] ==> fs' == StringEntry(t, s)
  {
    ghost var before := w.Written();
    var _ := w.EncodeString(t, s);
    Reassociate4(before, [t], LengthHeader(|s|), s);
    EncodeAppend(fs, StringEntry(t, s));
    Reassociate([CMD], Encode(fs), Encode(StringEntry(t, s)));
    fs' := fs + StringEntry(t, s);
  }

  /** A fresh command buffer holding only the CMD byte. */
  method StartCommand(size: nat) returns (w: Writer)
    requires size >= 1
    ensures fresh(w) && fresh(w.data) && w.Valid()
    ensures w.Written() == [CMD] + Encode([]) && w.Room() == size - 1
  {
    w := new Writer(size);
    w.Put(CMD);
  }

  /** encode_eol, and the finished command. */
  method FinishCommand(w: Writer, ghost fs: seq<Field>) returns (cmd: seq<byte>)
    requires w.Valid() && w.Room() >= 1 && Encodable(fs) && w.Written() == [CMD] + Encode(fs)
    modifies w, w.data
    ensures cmd == Command(fs)
  {
    var _ := w.EncodeEol();
    cmd := w.Written();
  }

  // ---------------------------------------------------------------------
  // The builders

  /** init_control: the command for the audio channel, then the one for the spectrum channel. */
  method InitControl(sp: Session, tag1: nat, tag2: nat) returns (audio: seq<byte>, spectrum: seq<byte>)
    ensures audio == Command(AudioStartFields(sp.ssrc, tag1))
    ensures spectrum == Command(SpectrumStartFields(sp.ssrc, tag2))
  {
    var w := StartCommand(PKTSIZE);
    ghost var fs := PutDouble(w, [], RADIO_FREQUENCY, START_FREQUENCY_BITS);
    fs := PutInt(w, fs, OUTPUT_SSRC, sp.ssrc);
    fs := PutInt(w, fs, COMMAND_TAG, tag1);
    fs := PutString(w, fs, PRESET, ['a' as byte, 'm' as byte]);
    audio := FinishCommand(w, fs);

    w := StartCommand(PKTSIZE);
    fs := PutDouble(w, [], RADIO_FREQUENCY, START_FREQUENCY_BITS);
    fs := PutInt(w, fs, OUTPUT_SSRC, sp.ssrc + 1);
    fs := PutInt(w, fs, COMMAND_TAG, tag2);
    spectrum := FinishCommand(w, fs);
  }

  /**
   * control_set_frequency: nothing for an empty string; otherwise the
   * session's frequency becomes `hz` (the parsed kHz value times 1000, as
   * `uint32_t`) and the command carries `freqBits`, the bit pattern of that
   * value as a double. Floating point is not modelled, so the two are
   * independent parameters here and nothing ties one to the other.
   */
  method ControlSetFrequency(sp: Session, text: seq<byte>, hz: nat, freqBits: nat, tag: nat)
    returns (cmd: Option<seq<byte>>)
    requires sp.Valid() && hz < TWO32 && freqBits < TWO64
    modifies sp
    ensures sp.Valid()
    ensures text == [] ==> cmd == None && sp.frequency == old(sp.frequency)
    ensures text != [] ==> cmd == Some(Command(TuneFields(sp.ssrc, tag, freqBits))) && sp.frequency == hz
    ensures sp.centerFrequency == old(sp.centerFrequency) && sp.binWidth == old(sp.binWidth)
    ensures sp.bins == old(sp.bins) && sp.zoomIndex == old(sp.zoomIndex) && sp.once == old(sp.once)
    ensures sp.audioActive == old(sp.audioActive) && sp.spectrumActive == old(sp.spectrumActive)
    ensures sp.requestedPreset == old(sp.requestedPreset)
  {
    if |text| == 0 {
      return None;
    }
    var w := StartCommand(PKTSIZE);
    sp.frequency := hz;
    ghost var fs := PutDouble(w, [], RADIO_FREQUENCY, freqBits);
    fs := PutInt(w, fs, OUTPUT_SSRC, sp.ssrc);
    fs := PutInt(w, fs, COMMAND_TAG, tag);
    var c := FinishCommand(w, fs);
    return Some(c);
  }

  /**
   * control_set_mode: nothing for an empty string; otherwise the preset
   * command, and the session remembers the name cut to its 32-byte buffer.
   */
  method ControlSetMode(sp: Session, text: seq<byte>, tag: nat) returns (cmd: Option<seq<byte>>)
    requires sp.Valid() && |text| < PKTSIZE - 30
    modifies sp
    ensures sp.Valid()
    ensures text == [] ==> cmd == None && sp.requestedPreset == old(sp.requestedPreset)
    ensures text != [] ==> cmd == Some(Command(ModeFields(sp.ssrc, tag, text)))
    ensures text != [] ==> sp.requestedPreset == Strlcpy(text, PRESET_SIZE)
    ensures sp.frequency == old(sp.frequency) && sp.centerFrequency == old(sp.centerFrequency)
    ensures sp.binWidth == old(sp.binWidth) && sp.bins == old(sp.bins) && sp.zoomIndex == old(sp.zoomIndex)
    ensures sp.once == old(sp.once)
    ensures sp.audioActive == old(sp.audioActive) && sp.spectrumActive == old(sp.spectrumActive)
  {
    if |text| == 0 {
      return None;
    }
    var w := StartCommand(PKTSIZE);
    ghost var fs := PutString(w, [], PRESET, text);
    fs := PutInt(w, fs, OUTPUT_SSRC, sp.ssrc);
    fs := PutInt(w, fs, COMMAND_TAG, tag);
    var c := FinishCommand(w, fs);
    sp.requestedPreset := Strlcpy(text, PRESET_SIZE);
    return Some(c);
  }

  /**
   * stop_spectrum_stream: one command, sent three times (each send is
   * followed by a 100 ms pause, which is not modelled).
   */
  method StopSpectrumStream(sp: Session, tag: nat) returns (sent: seq<seq<byte>>)
    ensures |sent| == STOP_REPEATS
    ensures forall i :: 0 <= i < |sent| ==> sent[i] == Command(StopFields(sp.ssrc, tag))
  {
    var cmd := StopCommand(sp, tag);
    sent := [];
    for i := 0 to STOP_REPEATS
      invariant |sent| == i
      invariant forall j :: 0 <= j < i ==> sent[j] == cmd
    {
      sent := sent + [cmd];
    }
  }

  /** The command stop_spectrum_stream builds once and sends three times. */
  method StopCommand(sp: Session, tag: nat) returns (cmd: seq<byte>)
    ensures cmd == Command(StopFields(sp.ssrc, tag))
  {
    var w := StartCommand(PKTSIZE);
    ghost var fs := PutInt(w, [], OUTPUT_SSRC, sp.ssrc + 1);
    fs := PutInt(w, fs, COMMAND_TAG, tag);
    fs := PutInt(w, fs, DEMOD_TYPE, Spectrum.SPECT_DEMOD);
    fs := PutDouble(w, fs, RADIO_FREQUENCY, 0);
    cmd := FinishCommand(w, fs);
  }

  /** control_get_powers: ask for the spectrum channel's bins. */
  method ControlGetPowers(sp: Session, tag: nat, freqBits: nat, bins: int, binBwBits: nat) returns (cmd: seq<byte>)
    requires freqBits < TWO64 && binBwBits < TWO32
    ensures cmd == Command(PowersFields(sp.ssrc, tag, freqBits, bins, binBwBits))
  {
    var w := StartCommand(PKTSIZE);
    ghost var fs := PutInt(w, [], OUTPUT_SSRC, sp.ssrc + 1);
    fs := PutInt(w, fs, COMMAND_TAG, tag);
    fs := PutInt(w, fs, DEMOD_TYPE, Spectrum.SPECT_DEMOD);
    fs := PutDouble(w, fs, RADIO_FREQUENCY, freqBits);
    fs := PutInt(w, fs, BIN_COUNT, bins);
    fs := PutFloat(w, fs, NONCOHERENT_BIN_BW, binBwBits);
    cmd := FinishCommand(w, fs);
  }

  /** control_poll: the tag first, then the SSRC to poll, in a 128-byte buffer. */
  method ControlPoll(sp: Session, tag: nat) returns (cmd: seq<byte>)
    ensures cmd == Command(PollFields(sp.ssrc, tag))
  {
    var w := StartCommand(POLL_BUFFER_SIZE);
    ghost var fs := PutInt(w, [], COMMAND_TAG, tag);
    fs := PutInt(w, fs, OUTPUT_SSRC, sp.ssrc);
    cmd := FinishCommand(w, fs);
  }
}
