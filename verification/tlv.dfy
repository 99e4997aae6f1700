/**
 * The type-length-value codec of the radio's status and command packets
 * (status.c, status.h).
 *
 * A packet is one kind byte (STATUS or CMD) followed by fields. A field is
 * its type code, a length, then that many value bytes. A length below 128 is
 * one byte; otherwise the byte 0x80|k is followed by the length in k
 * big-endian bytes. Integers are written big-endian without leading zero
 * bytes, so 0 has an empty value. Floats and doubles travel as their
 * IEEE-754 bit patterns through the integer encoder.
 */
module Tlv {
  import opened Bytes
  import opened Sockaddr

  // Packet kinds (enum pkt_type)
  const STATUS: byte := 0
  const CMD: byte := 1

  // Field type codes (enum status_type; the UNUSEDn placeholders are omitted)
  const EOL: byte := 0
  const COMMAND_TAG: byte := 1
  const CMD_CNT: byte := 2
  const GPS_TIME: byte := 3
  const DESCRIPTION: byte := 4
  const STATUS_DEST_SOCKET: byte := 5
  const SETOPTS: byte := 6
  const CLEAROPTS: byte := 7
  const RTP_TIMESNAP: byte := 8
  const INPUT_SAMPRATE: byte := 10
  const INPUT_SAMPLES: byte := 13
  const OUTPUT_DATA_SOURCE_SOCKET: byte := 16
  const OUTPUT_DATA_DEST_SOCKET: byte := 17
  const OUTPUT_SSRC: byte := 18
  const OUTPUT_TTL: byte := 19
  const OUTPUT_SAMPRATE: byte := 20
  const OUTPUT_METADATA_PACKETS: byte := 21
  const OUTPUT_DATA_PACKETS: byte := 22
  const OUTPUT_ERRORS: byte := 23
  const CALIBRATE: byte := 24
  const LNA_GAIN: byte := 25
  const MIXER_GAIN: byte := 26
  const IF_GAIN: byte := 27
  const DC_I_OFFSET: byte := 28
  const DC_Q_OFFSET: byte := 29
  const IQ_IMBALANCE: byte := 30
  const IQ_PHASE: byte := 31
  const DIRECT_CONVERSION: byte := 32
  const RADIO_FREQUENCY: byte := 33
  const FIRST_LO_FREQUENCY: byte := 34
  const SECOND_LO_FREQUENCY: byte := 35
  const SHIFT_FREQUENCY: byte := 36
  const DOPPLER_FREQUENCY: byte := 37
  const DOPPLER_FREQUENCY_RATE: byte := 38
  const LOW_EDGE: byte := 39
  const HIGH_EDGE: byte := 40
  const KAISER_BETA: byte := 41
  const FILTER_BLOCKSIZE: byte := 42
  const FILTER_FIR_LENGTH: byte := 43
  const FILTER2: byte := 44
  const IF_POWER: byte := 45
  const BASEBAND_POWER: byte := 46
  const NOISE_DENSITY: byte := 47
  const DEMOD_TYPE: byte := 48
  const OUTPUT_CHANNELS: byte := 49
  const INDEPENDENT_SIDEBAND: byte := 50
  const PLL_ENABLE: byte := 51
  const PLL_LOCK: byte := 52
  const PLL_SQUARE: byte := 53
  const PLL_PHASE: byte := 54
  const PLL_BW: byte := 55
  const ENVELOPE: byte := 56
  const SNR_SQUELCH: byte := 57
  const PLL_SNR: byte := 58
  const FREQ_OFFSET: byte := 59
  const PEAK_DEVIATION: byte := 60
  const PL_TONE: byte := 61
  const AGC_ENABLE: byte := 62
  const HEADROOM: byte := 63
  const AGC_HANGTIME: byte := 64
  const AGC_RECOVERY_RATE: byte := 65
  const FM_SNR: byte := 66
  const AGC_THRESHOLD: byte := 67
  const GAIN: byte := 68
  const OUTPUT_LEVEL: byte := 69
  const OUTPUT_SAMPLES: byte := 70
  const OPUS_BIT_RATE: byte := 71
  const MINPACKET: byte := 72
  const FILTER2_BLOCKSIZE: byte := 73
  const FILTER2_FIR_LENGTH: byte := 74
  const FILTER2_KAISER_BETA: byte := 75
  const FILTER_DROPS: byte := 77
  const LOCK: byte := 78
  const TP1: byte := 79
  const TP2: byte := 80
  const GAINSTEP: byte := 81
  const AD_BITS_PER_SAMPLE: byte := 82
  const SQUELCH_OPEN: byte := 83
  const SQUELCH_CLOSE: byte := 84
  const PRESET: byte := 85
  const DEEMPH_TC: byte := 86
  const DEEMPH_GAIN: byte := 87
  const CONVERTER_OFFSET: byte := 88
  const PL_DEVIATION: byte := 89
  const THRESH_EXTEND: byte := 90
  const COHERENT_BIN_SPACING: byte := 92
  const NONCOHERENT_BIN_BW: byte := 93
  const BIN_COUNT: byte := 94
  const BIN_DATA: byte := 96
  const RF_ATTEN: byte := 97
  const RF_GAIN: byte := 98
  const RF_AGC: byte := 99
  const FE_LOW_EDGE: byte := 100
  const FE_HIGH_EDGE: byte := 101
  const FE_ISREAL: byte := 102
  const BLOCKS_SINCE_POLL: byte := 103
  const AD_OVER: byte := 104
  const RTP_PT: byte := 105
  const STATUS_INTERVAL: byte := 106
  const OUTPUT_ENCODING: byte := 107
  const SAMPLES_SINCE_OVER: byte := 108
  const PLL_WRAPS: byte := 109
  const RF_LEVEL_CAL: byte := 110
  // ---------------------------------------------------------------------
  // The output buffer

  /**
   * A packet under construction: the buffer and the write pointer `cp`
   * that each encoder advances past the bytes it writes.
   */
  class Writer {
    const data: array<byte>
    var cp: nat

    ghost predicate Valid()
      reads this
    {
      cp <= data.Length
    }

    /** The bytes written so far. */
    function Written(): seq<byte>
      reads this, data
      requires Valid()
    {
      data[..cp]
    }

    /** Space left after the write pointer. */
    function Room(): nat
      reads this
      requires Valid()
    {
      data.Length - cp
    }

    constructor (capacity: nat)
      ensures Valid() && fresh(data) && data.Length == capacity
      ensures Written() == []
    {
      data := new byte[capacity](_ => 0);
      cp := 0;
    }

    /** `*cp++ = b` */
    method Put(b: byte)
      requires Valid() && Room() >= 1
      modifies this, data
      ensures Valid() && cp == old(cp) + 1
      ensures Written() == old(Written()) + [b]
    {
      data[cp] := b;
      cp := cp + 1;
    }

    /** `memcpy(cp, src, n); cp += n` */
    method PutBytes(src: seq<byte>)
      requires Valid() && Room() >= |src|
      modifies this, data
      ensures Valid() && cp == old(cp) + |src|
      ensures Written() == old(Written()) + src
    {
      forall i | 0 <= i < |src| {
        data[cp + i] := src[i];
      }
      cp := cp + |src|;
    }

    /**
     * encode_int64: the type, the number of significant bytes, then those
     * bytes most significant first. The first loop shifts leading zero bytes
     * out of `x`; the second emits the top byte and shifts, `len` times.
     * Returns the number of bytes written.
     */
    method EncodeInt64(t: byte, x: nat) returns (n: int)
      requires Valid() && x < TWO64 && Room() >= 10
      modifies this, data
      ensures Valid()
      ensures Written() == old(Written()) + IntField(t, x)
      ensures n == |IntField(t, x)|
    {
      Put(t);
      if x == 0 {
        Put(0);
        return 2;
      }
      var len, y := StripLeadingZeros(x);
      Put(len);
      EmitDigits(x, len, y);
      return 2 + len;
    }

    /**
     * The emitting loop of encode_int64: `len` times, the top byte of the
     * 64-bit `y` is written and `y` is shifted left by 8.
     */
    method EmitDigits(x: nat, len: nat, y0: nat)
      requires Valid() && Room() >= len
      requires 1 <= len <= 8 && x < Pow256(len) && y0 == x * Pow256(8 - len)
      modifies this, data
      ensures Valid()
      ensures Written() == old(Written()) + BigEndian(x, len)
    {
      var y := y0;
      var i := 0;
      while i < len
        invariant 0 <= i <= len
        invariant Valid() && Room() >= len - i
        invariant Written() == old(Written()) + BigEndian(x, len)[..i]
        invariant y == Shifted(x, len, i)
      {
        ShiftedDigit(x, len, i);
        assert BigEndian(x, len)[..i + 1] == BigEndian(x, len)[..i] + [y / Pow256(7)];
        Put(y / Pow256(7));
        y := (y * 256) % TWO64;
        i := i + 1;
      }
      assert BigEndian(x, len)[..len] == BigEndian(x, len);
    }

    /** encode_eol: the single byte EOL. */
    method EncodeEol() returns (n: int)
      requires Valid() && Room() >= 1
      modifies this, data
      ensures Valid() && Written() == old(Written()) + [EOL] && n == 1
    {
      Put(EOL);
      return 1;
    }

    /** encode_byte: written exactly as encode_int64 writes the same value. */
    method EncodeByte(t: byte, x: byte) returns (n: int)
      requires Valid() && Room() >= 3
      modifies this, data
      ensures Valid()
      ensures Written() == old(Written()) + IntField(t, x)
      ensures n == |IntField(t, x)|
    {
      Put(t);
      if x == 0 {
        Put(0);
        return 2;
      }
      Put(1);
      Put(x);
      assert IntField(t, x) == [t, 1, x] by { IntFieldSmall(t, x); }
      return 3;
    }

    /** encode_int16: widens to 64 bits. */
    method EncodeInt16(t: byte, x: nat) returns (n: int)
      requires Valid() && x < TWO16 && Room() >= 10
      modifies this, data
      ensures Valid()
      ensures Written() == old(Written()) + IntField(t, x)
      ensures n == |IntField(t, x)| <= 4
    {
      n := EncodeInt64(t, x);
      IntFieldLength(t, x, 2);
    }

    /** encode_int32: widens to 64 bits. */
    method EncodeInt32(t: byte, x: nat) returns (n: int)
      requires Valid() && x < TWO32 && Room() >= 10
      modifies this, data
      ensures Valid()
      ensures Written() == old(Written()) + IntField(t, x)
      ensures n == |IntField(t, x)| <= 6
    {
      n := EncodeInt64(t, x);
      IntFieldLength(t, x, 4);
    }

    /**
     * encode_int: a C `int` is sign-extended to 64 bits, so a negative
     * value is written as its 8-byte two's-complement pattern.
     */
    method EncodeInt(t: byte, x: int) returns (n: int)
      requires Valid() && -TWO31 <= x < TWO31 && Room() >= 10
      modifies this, data
      ensures Valid()
      ensures Written() == old(Written()) + IntField(t, U64(x))
      ensures x < 0 ==> n == 10
      ensures 0 <= x ==> n == |IntField(t, x)| <= 6
    {
      n := EncodeInt64(t, U64(x));
      if x < 0 {
        NegativeIntWidth(t, x);
      } else {
        IntFieldLength(t, x, 4);
      }
    }

    /**
     * encode_float: nothing is written for a NaN; otherwise the 32-bit
     * pattern goes through the integer encoder (so +0.0 has an empty value).
     */
    method EncodeFloat(t: byte, bits: nat) returns (n: int)
      requires Valid() && bits < TWO32 && Room() >= 10
      modifies this, data
      ensures Valid()
      ensures IsNaN32(bits) ==> n == 0 && Written() == old(Written())
      ensures !IsNaN32(bits) ==> n == |IntField(t, bits)| && Written() == old(Written()) + IntField(t, bits)
    {
      if IsNaN32(bits) {
        return 0;
      }
      n := EncodeInt32(t, bits);
    }

    /** encode_double: as encode_float, with the 64-bit pattern. */
    method EncodeDouble(t: byte, bits: nat) returns (n: int)
      requires Valid() && bits < TWO64 && Room() >= 10
      modifies this, data
      ensures Valid()
      ensures IsNaN64(bits) ==> n == 0 && Written() == old(Written())
      ensures !IsNaN64(bits) ==> n == |IntField(t, bits)| && Written() == old(Written()) + IntField(t, bits)
    {
      if IsNaN64(bits) {
        return 0;
      }
      n := EncodeInt64(t, bits);
    }

    /**
     * The length part of a field header, as encode_string and encode_vector
     * write it: one byte below 128, else 0x80|k and k big-endian bytes.
     */
    method PutLength(len: nat)
      requires Valid() && len < TWO32 && Room() >= 5
      modifies this, data
      ensures Valid() && Written() == old(Written()) + LengthHeader(len)
    {
      if len < 128 {
        Put(len);
      } else if len < 65536 {
        LengthHeader2(len);
        PutBytes([0x82, len / 256, len % 256]);
      } else if len < 16777216 {
        LengthHeader3(len);
        PutBytes([0x83, len / 0x1_0000, (len / 256) % 256, len % 256]);
      } else {
        LengthHeader4(len);
        PutBytes([0x84, len / 0x100_0000, (len / 0x1_0000) % 256, (len / 256) % 256, len % 256]);
      }
    }

    /** A port number in network byte order (`memcpy` of `sin_port`). */
    method PutPort(p: nat)
      requires Valid() && p < TWO16 && Room() >= 2
      modifies this, data
      ensures Valid() && Written() == old(Written()) + BigEndian(p, 2)
    {
      PortBytes(p);
      Put(p / 256);
      Put(p % 256);
    }

    /** The four bytes of a 32-bit word, most significant first. */
    method PutWord(w: nat)
      requires Valid() && w < TWO32 && Room() >= 4
      modifies this, data
      ensures Valid() && Written() == old(Written()) + BigEndian(w, 4)
    {
      WordBytes(w);
      Put(w / 0x100_0000);
      Put((w / 0x1_0000) % 256);
      Put((w / 256) % 256);
      Put(w % 256);
    }

    /** encode_string: type, length header, then the bytes themselves. */
    method EncodeString(t: byte, s: seq<byte>) returns (n: int)
      requires Valid() && |s| < TWO32 && Room() >= 6 + |s|
      modifies this, data
      ensures Valid()
      ensures Written() == old(Written()) + [t] + LengthHeader(|s|) + s
      ensures n == 1 + |LengthHeader(|s|)| + |s|
    {
      Put(t);
      PutLength(|s|);
      PutBytes(s);
      n := 1 + |LengthHeader(|s|)| + |s|;
    }

    /**
     * encode_vector: type, the length header for 4 bytes per float, then
     * each float's 32-bit pattern big-endian.
     */
    method EncodeVector(t: byte, floats: seq<nat>) returns (n: int)
      requires Valid() && 4 * |floats| < TWO31 && Room() >= 6 + 4 * |floats|
      requires forall k :: 0 <= k < |floats| ==> floats[k] < TWO32
      modifies this, data
      ensures Valid()
      ensures Written() == old(Written()) + [t] + LengthHeader(4 * |floats|) + Words(floats)
      ensures n == 1 + |LengthHeader(4 * |floats|)| + 4 * |floats|
    {
      Put(t);
      PutLength(4 * |floats|);
      for i := 0 to |floats|
        invariant Valid() && Room() >= 4 * (|floats| - i)
        invariant Written() == old(Written()) + [t] + LengthHeader(4 * |floats|) + Words(floats[..i])
      {
        var w := floats[i];
        PutWord(w);
        WordsAppend(floats[..i], w);
        assert floats[..i + 1] == floats[..i] + [w];
      }
      assert floats[..|floats|] == floats;
      WordsLength(floats);
      n := 1 + |LengthHeader(4 * |floats|)| + 4 * |floats|;
    }

    /**
     * encode_socket: IPv4 writes the 4 address bytes and the port, IPv6 only
     * the first 8 of its 16 address bytes and the port; other families
     * write nothing. Returns the value length (6 or 10), or 0.
     */
    method EncodeSocket(t: byte, s: SockAddr) returns (optlen: int)
      requires Valid() && WellFormed(s) && Room() >= 12
      modifies this, data
      ensures Valid()
      ensures Written() == old(Written()) + SocketField(t, s)
      ensures optlen == if s.OtherFamily? then 0 else |SocketField(t, s)| - 2
    {
      match s {
        case Inet(a, p) =>
          ghost var before := Written();
          PutBytes([t, 6] + a);
          PutPort(p);
          assert Written() == before + ([t, 6] + a + BigEndian(p, 2));
          optlen := 6;
        case Inet6(a, p) =>
          ghost var before := Written();
          PutBytes([t, 10] + a[..8]);
          PutPort(p);
          assert Written() == before + ([t, 10] + a[..8] + BigEndian(p, 2));
          optlen := 10;
        case OtherFamily(_) =>
          return 0;
      }
    }
  }

  // ---------------------------------------------------------------------
  // What the encoders write

  /** The field encode_int64 writes for `x`. */
  function IntField(t: byte, x: nat): (f: seq<byte>)
    requires x < TWO64
    ensures |f| >= 2 && f[0] == t && |f| == f[1] as int + 2 && f[1] <= 8
  {
    ByteCountAtMost(x, 8);
    PowValues();
    [t, ByteCount(x)] + BigEndian(x, ByteCount(x))
  }

  /** The length part of a field header for a value of `n` bytes. */
  function LengthHeader(n: nat): (h: seq<byte>)
    requires n < TWO32
    ensures 1 <= |h| <= 5
    ensures |h| == 1 <==> n < 128
    ensures |h| > 1 ==> h[0] == 0x80 + (|h| - 1)
  {
    PowValues();
    if n < 128 then [n]
    else if n < TWO16 then [0x82] + BigEndian(n, 2)
    else if n < 0x100_0000 then [0x83] + BigEndian(n, 3)
    else [0x84] + BigEndian(n, 4)
  }

  /** The concatenated 4-byte big-endian patterns of a float array. */
  function Words(fs: seq<nat>): (r: seq<byte>)
  {
    if fs == [] then [] else Words(fs[..|fs| - 1]) + BigEndian(fs[|fs| - 1], 4)
  }

  /** The field encode_socket writes (nothing for other families). */
  function SocketField(t: byte, s: SockAddr): (f: seq<byte>)
    requires WellFormed(s)
    ensures s.OtherFamily? <==> f == []
    ensures s.Inet? ==> |f| == 8 && f[1] == 6
    ensures s.Inet6? ==> |f| == 12 && f[1] == 10
  {
    match s
    case Inet(a, p) => [t, 6] + a + BigEndian(p, 2)
    case Inet6(a, p) => [t, 10] + a[..8] + BigEndian(p, 2)
    case OtherFamily(_) => []
  }

  /** A 32-bit IEEE-754 pattern with all exponent bits set and a non-zero mantissa. */
  predicate IsNaN32(bits: nat)
  {
    (bits / 0x80_0000) % 0x100 == 0xff && bits % 0x80_0000 != 0
  }

  /** A 64-bit IEEE-754 pattern with all exponent bits set and a non-zero mantissa. */
  predicate IsNaN64(bits: nat)
  {
    (bits / 0x10_0000_0000_0000) % 0x800 == 0x7ff && bits % 0x10_0000_0000_0000 != 0
  }

  // ---------------------------------------------------------------------
  // Decoders. Each takes the value bytes of one field.

  /**
   * decode_int64: shifts each byte into a 64-bit accumulator, so the result
   * is the big-endian value modulo 2^64 (only the last 8 bytes count).
   */
  method DecodeInt64(v: seq<byte>) returns (r: nat)
    ensures r == Value(v) % TWO64
  {
    PowValues();
    r := 0;
    var i := 0;
    while i < |v|
      invariant 0 <= i <= |v|
      invariant r == Value(v[..i]) % TWO64
    {
      assert v[..i + 1][..i] == v[..i];
      ShiftIn(Value(v[..i]), v[i], 8);
      r := (r * 256) % TWO64 + v[i];
      i := i + 1;
    }
    assert v[..|v|] == v;
  }

  /** decode_int32: the 64-bit accumulation masked to 32 bits. */
  function Decode32(v: seq<byte>): (r: nat)
    ensures r == Value(v) % TWO32
    ensures |v| <= 4 ==> r == Value(v)
  {
    ModMod(Value(v), TWO32, TWO32);
    PowValues();
    ValueFits(v, 4);
    (Value(v) % TWO64) % TWO32
  }

  /** decode_int16 */
  function Decode16(v: seq<byte>): (r: nat)
    ensures r == Value(v) % TWO16
  {
    ModMod(Value(v), TWO16, 0x1_0000_0000_0000);
    (Value(v) % TWO64) % TWO16
  }

  /** decode_int8 */
  function Decode8(v: seq<byte>): (r: byte)
    ensures r == Value(v) % 256
    ensures |v| >= 1 ==> r == v[|v| - 1]
  {
    ModMod(Value(v), 256, 0x100_0000_0000_0000);
    (Value(v) % TWO64) % 256
  }

  /** decode_bool: true when the 64-bit accumulation is non-zero. */
  function DecodeBool(v: seq<byte>): (r: bool)
    ensures |v| <= 8 ==> (r <==> exists i :: 0 <= i < |v| && v[i] != 0)
    ensures r <==> exists i :: 0 <= i < |v| && |v| - 8 <= i && v[i] != 0
  {
    ValueZero(v);
    ValueFits(v, 8);
    PowValues();
    LowBytesNonZero(v);
    Value(v) % TWO64 != 0
  }

  /** Only the last 8 bytes survive the 64-bit accumulation. */
  lemma LowBytesNonZero(v: seq<byte>)
    ensures Value(v) % TWO64 != 0 <==> exists i :: 0 <= i < |v| && |v| - 8 <= i && v[i] != 0
  {
    PowValues();
    if |v| <= 8 {
      ValueFits(v, 8);
      ValueZero(v);
    } else {
      var t := v[|v| - 8..];
      ValueSuffix(v, 8);
      ValueZero(t);
      assert forall i :: 0 <= i < 8 ==> t[i] == v[|v| - 8 + i];
      if Value(v) % TWO64 != 0 {
        var j :| 0 <= j < 8 && t[j] != 0;
        assert v[|v| - 8 + j] != 0;
      }
    }
  }

  /**
   * decode_int: the accumulation masked with UINT_MAX and returned as a
   * C `int`, i.e. the low 32 bits read as two's complement.
   */
  function DecodeInt(v: seq<byte>): (r: int)
    ensures -TWO31 <= r < TWO31
    ensures r % TWO32 == Value(v) % TWO32
  {
    I32(Decode32(v))
  }

  /** decode_string: the value bytes followed by a NUL terminator. */
  function DecodeString(v: seq<byte>): (r: seq<byte>)
    ensures |r| == |v| + 1 && r[..|v|] == v && r[|v|] == 0
  {
    v + [0]
  }

  /**
   * The `float` decode_float returns: either the 32-bit pattern itself, or
   * an 8-byte double narrowed to float (the narrowing is not modelled).
   */
  datatype FloatValue = FloatBits(bits: nat) | NarrowedDouble(bits: nat)

  /**
   * The `double` decode_double returns: either the 64-bit pattern itself, or
   * a 4-byte float widened to double.
   */
  datatype DoubleValue = DoubleBits(bits: nat) | WidenedFloat(bits: nat)

  /**
   * decode_float: an empty value is 0.0, an 8-byte value is a double to be
   * narrowed, anything else is the low 32 bits of the accumulation
   * (the bytes a `union` member `float` overlays on a little-endian host).
   */
  function DecodeFloat(v: seq<byte>): (r: FloatValue)
    ensures r.FloatBits? ==> r.bits < TWO32
    ensures |v| == 0 ==> r == FloatBits(0)
    ensures 1 <= |v| <= 4 ==> r == FloatBits(Value(v))
    ensures |v| == 8 ==> r == NarrowedDouble(Value(v) % TWO64)
    ensures |v| >= 5 && |v| != 8 ==> r == FloatBits(Value(v) % TWO32)
  {
    if |v| == 0 then FloatBits(0)
    else if |v| == 8 then NarrowedDouble(Value(v) % TWO64)
    else FloatBits(Decode32(v))
  }

  /** decode_double: 0.0, a widened float for 4 bytes, else the 64-bit pattern. */
  function DecodeDouble(v: seq<byte>): (r: DoubleValue)
    ensures |v| == 0 ==> r == DoubleBits(0)
    ensures |v| == 4 ==> r == WidenedFloat(Value(v))
    ensures |v| != 0 && |v| != 4 && |v| <= 8 ==> r == DoubleBits(Value(v))
    ensures |v| > 8 ==> r == DoubleBits(Value(v) % TWO64)
  {
    ValueFits(v, 8);
    PowValues();
    if |v| == 0 then DoubleBits(0)
    else if |v| == 4 then WidenedFloat(DecodeFloat(v).bits)
    else DoubleBits(Value(v) % TWO64)
  }

  /**
   * What decode_socket writes into a `struct sockaddr`: the family, the
   * port, and the address bytes it copies, which are all 4 of an IPv4
   * address but only the first 8 of an IPv6 one. The bytes it does not
   * write are not part of the value.
   */
  datatype SocketValue =
    | Ipv4Value(addr: seq<byte>, port: nat)
    | Ipv6Value(head: seq<byte>, port: nat)

  /** The part of an IPv4 or IPv6 address that encode_socket sends. */
  function SentPart(s: SockAddr): (r: SocketValue)
    requires WellFormed(s) && !s.OtherFamily?
    ensures r.port == s.port && (r.Ipv4Value? <==> s.Inet?)
    ensures r.Ipv4Value? ==> r.addr == s.addr
    ensures r.Ipv6Value? ==> |r.head| == 8 && r.head == s.addr[..8]
  {
    if s.Inet? then Ipv4Value(s.addr, s.port) else Ipv6Value(s.addr[..8], s.port)
  }

  /**
   * decode_socket: a 6-byte value is an IPv4 address and port, a 10-byte
   * value the first 8 IPv6 address bytes and the port; any other length
   * gives NULL, and the structure is not written.
   */
  function DecodeSocket(v: seq<byte>): (r: Option<SocketValue>)
    ensures r.Some? <==> |v| == 6 || |v| == 10
    ensures r.Some? ==> r.value.port < TWO16 && r.value.port == Value(v[|v| - 2..])
    ensures |v| == 6 ==> r.value == Ipv4Value(v[..4], Value(v[4..]))
    ensures |v| == 10 ==> r.value == Ipv6Value(v[..8], Value(v[8..]))
  {
    if |v| == 6 then
      ValueBound(v[4..]);
      PowValues();
      Some(Ipv4Value(v[..4], Value(v[4..])))
    else if |v| == 10 then
      ValueBound(v[8..]);
      PowValues();
      Some(Ipv6Value(v[..8], Value(v[8..])))
    else None
  }

  /**
   * The zero-stripping loop of encode_int64: while the top byte of the
   * 64-bit `y` is zero, shift it left by 8 and count one byte fewer.
   */
  method StripLeadingZeros(x: nat) returns (len: nat, y: nat)
    requires 0 < x < TWO64
    ensures 1 <= len <= 8 && len == ByteCount(x)
    ensures x < Pow256(len) && y == x * Pow256(8 - len)
  {
    PowValues();
    y := x;
    len := 8;
    while len > 0 && y / Pow256(7) == 0
      invariant 0 <= len <= 8
      invariant x < Pow256(len) && y == x * Pow256(8 - len)
    {
      ShiftLeadingZero(x, len, y);
      y := (y * 256) % TWO64;
      len := len - 1;
    }
    LeadingByteCount(x, len, y);
  }

  // ---------------------------------------------------------------------
  // Proof steps of the encoder loops

  /** One pass of the zero-stripping loop of encode_int64. */
  lemma ShiftLeadingZero(x: nat, len: nat, y: nat)
    requires 0 < len <= 8 && x < Pow256(len) && y == x * Pow256(8 - len)
    requires y / Pow256(7) == 0
    ensures x < Pow256(len - 1)
    ensures (y * 256) % TWO64 == x * Pow256(8 - (len - 1))
  {
    PowValues();
    PowAdd(len - 1, 8 - len);
    assert y < Pow256(len - 1) * Pow256(8 - len);
    MulCancelLt(x, Pow256(len - 1), Pow256(8 - len));
    assert Pow256(8 - (len - 1)) == 256 * Pow256(8 - len);
    assert y * 256 == x * Pow256(8 - (len - 1));
    assert y * 256 < TWO64;
  }

  /** When the zero-stripping loop stops, `len` is the byte count of `x`. */
  lemma LeadingByteCount(x: nat, len: nat, y: nat)
    requires x > 0 && len <= 8 && x < Pow256(len) && y == x * Pow256(8 - len)
    requires !(len > 0 && y / Pow256(7) == 0)
    ensures len >= 1 && ByteCount(x) == len
    ensures y == (x % Pow256(len - 0)) * Pow256(8 - len + 0)
  {
    assert len != 0;
    var p := Pow256(len - 1);
    var c := Pow256(8 - len);
    PowAdd(len - 1, 8 - len);
    LeadingCore(x, p, c, y);
    ByteCountUnique(x, len);
    ModSmall(x, Pow256(len));
  }

  lemma ModSmall(x: nat, m: nat)
    requires x < m
    ensures x % m == x
  {
  }

  /** The stop test of the loop, with the powers of 256 kept abstract. */
  lemma LeadingCore(x: nat, p: nat, c: nat, y: nat)
    requires p > 0 && c > 0 && y == x * c && y / (p * c) != 0
    ensures p <= x
  {
    assert y >= p * c;
    MulCancelLe(p, x, c);
  }

  /** The 64-bit `y` of encode_int64's emitting loop after `i` passes. */
  function Shifted(x: nat, len: nat, i: nat): nat
    requires len <= 8
  {
    if i == 0 then x * Pow256(8 - len) else (Shifted(x, len, i - 1) * 256) % TWO64
  }

  /** After `i` passes, `y` holds the `len - i` low digits of `x`, at the top of 64 bits. */
  lemma {:induction false} ShiftedForm(x: nat, len: nat, i: nat)
    requires i <= len <= 8 && x < Pow256(len)
    ensures Shifted(x, len, i) == (x % Pow256(len - i)) * Pow256(8 - len + i)
  {
    if i == 0 {
      DivModUnique(x, Pow256(len), 0, x);
    } else {
      var j := i - 1;
      ShiftedForm(x, len, j);
      EmitDigitShift(x, len, j);
      var prev := Shifted(x, len, j);
      assert prev == (x % Pow256(len - j)) * Pow256(8 - len + j);
      assert Shifted(x, len, i) == (prev * 256) % TWO64;
      assert len - (j + 1) == len - i && 8 - len + (j + 1) == 8 - len + i;
    }
  }

  /** Pass `i` of the emitting loop writes digit `i` of `x`. */
  lemma ShiftedDigit(x: nat, len: nat, i: nat)
    requires i < len <= 8 && x < Pow256(len)
    ensures Shifted(x, len, i) / Pow256(7) == BigEndian(x, len)[i]
  {
    ShiftedForm(x, len, i);
    EmitDigitValue(x, len, i);
  }

  /** The top byte of the shifted value is the next big-endian digit. */
  lemma EmitDigitValue(x: nat, len: nat, i: nat)
    requires i < len <= 8
    ensures ((x % Pow256(len - i)) * Pow256(8 - len + i)) / Pow256(7) == BigEndian(x, len)[i]
  {
    var m := len - i;
    var c := Pow256(8 - len + i);
    var p := Pow256(m - 1);
    assert Pow256(m) == p * 256;
    PowAdd(m - 1, 8 - len + i);
    DivCancel(x % (p * 256), p, c);
    ModDivDigit(x, p);
    BigEndianAt(x, len, i);
  }

  /** Shifting left by 8 in 64 bits drops that digit. */
  lemma EmitDigitShift(x: nat, len: nat, i: nat)
    requires i < len <= 8
    ensures ((x % Pow256(len - i)) * Pow256(8 - len + i) * 256) % TWO64 ==
      (x % Pow256(len - (i + 1))) * Pow256(8 - len + (i + 1))
  {
    var m := len - i;
    var c := Pow256(8 - len + i);
    var p := Pow256(m - 1);
    assert Pow256(m) == p * 256;
    assert Pow256(8 - len + (i + 1)) == c * 256;
    PowAdd(m - 1, 8 - len + i + 1);
    assert Pow256(8) == p * (c * 256);
    PowValues();
    assert (x % (p * 256)) * c * 256 == (x % (p * 256)) * (c * 256);
    ModScale(x % (p * 256), p, c * 256);
    ModMod(x, p, 256);
  }

  lemma IntFieldSmall(t: byte, x: byte)
    requires x != 0
    ensures IntField(t, x) == [t, 1, x]
  {
    assert ByteCount(x) == 1 by { assert ByteCount(x / 256) == 0; }
    assert BigEndian(x, 1) == BigEndian(x / 256, 0) + [x % 256];
  }

  lemma IntFieldLength(t: byte, x: nat, k: nat)
    requires k <= 8 && x < Pow256(k) && x < TWO64
    ensures |IntField(t, x)| <= 2 + k
  {
    ByteCountAtMost(x, k);
  }

  /** A negative `int` sign-extends to 64 bits whose top byte is 0xff. */
  lemma NegativeIntWidth(t: byte, x: int)
    requires -TWO31 <= x < 0
    ensures |IntField(t, U64(x))| == 10
  {
    PowValues();
    ByteCountUnique(U64(x), 8);
  }

  lemma WordsAppend(fs: seq<nat>, w: nat)
    ensures Words(fs + [w]) == Words(fs) + BigEndian(w, 4)
  {
    assert (fs + [w])[..|fs|] == fs;
  }

  lemma {:induction false} WordsLength(fs: seq<nat>)
    ensures |Words(fs)| == 4 * |fs|
  {
    if fs != [] {
      WordsLength(fs[..|fs| - 1]);
    }
  }

  /** The header of a length that needs two bytes. */
  lemma LengthHeader2(n: nat)
    requires 128 <= n < 0x1_0000
    ensures LengthHeader(n) == [0x82, n / 256, n % 256]
  {
    PortBytes(n);
  }

  /** The header of a length that needs three bytes. */
  lemma LengthHeader3(n: nat)
    requires 0x1_0000 <= n < 0x100_0000
    ensures LengthHeader(n) == [0x83, n / 0x1_0000, (n / 256) % 256, n % 256]
  {
    ThreeBytes(n);
    PortBytes(n % 0x1_0000);
    DivOfLow(n);
  }

  /** The header of a length that needs four bytes. */
  lemma LengthHeader4(n: nat)
    requires 0x100_0000 <= n < 0x1_0000_0000
    ensures LengthHeader(n) == [0x84, n / 0x100_0000, (n / 0x1_0000) % 256, (n / 256) % 256, n % 256]
  {
    WordBytes(n);
  }

  /** The middle byte of a 24-bit length, read from its low 16 bits. */
  lemma DivOfLow(n: nat)
    ensures (n % 0x1_0000) / 256 == (n / 256) % 256 && (n % 0x1_0000) % 256 == n % 256
  {
    ModDivDigit(n, 256);
    ModMod(n, 256, 256);
  }

  /** A three-byte big-endian number is its top byte followed by a two-byte number. */
  lemma ThreeBytes(x: nat)
    requires x < 0x100_0000
    ensures BigEndian(x, 3) == [x / 0x1_0000] + BigEndian(x % 0x1_0000, 2)
  {
    PowValues();
    BigEndianAt(x, 3, 0);
    BigEndianAt(x, 3, 1);
    BigEndianAt(x, 3, 2);
    PortBytes(x % 0x1_0000);
  }

  lemma WordBytes(w: nat)
    requires w < TWO32
    ensures BigEndian(w, 4) == [w / 0x100_0000, (w / 0x1_0000) % 256, (w / 256) % 256, w % 256]
  {
    PowValues();
    BigEndianAt(w, 4, 0);
    BigEndianAt(w, 4, 1);
    BigEndianAt(w, 4, 2);
    BigEndianAt(w, 4, 3);
  }

  lemma PortBytes(p: nat)
    requires p < TWO16
    ensures BigEndian(p, 2) == [p / 256, p % 256]
  {
    PowValues();
    BigEndianAt(p, 2, 0);
    BigEndianAt(p, 2, 1);
  }

  // ---------------------------------------------------------------------
  // Properties of the codec

  /**
   * The shape of an integer field: 0 has an empty value; any other value
   * takes 1 to 8 bytes, the fewest that hold it, so the first is non-zero.
   * The value bytes denote `x`.
   */
  lemma IntFieldShape(t: byte, x: nat)
    requires x < TWO64
    ensures x == 0 ==> IntField(t, x) == [t, 0]
    ensures x != 0 ==> 1 <= IntField(t, x)[1] <= 8 && IntField(t, x)[2] != 0
    ensures Value(IntField(t, x)[2..]) == x
    ensures x < Pow256(IntField(t, x)[1])
    ensures x != 0 ==> Pow256(IntField(t, x)[1] - 1) <= x
  {
    var n := ByteCount(x);
    var f := IntField(t, x);
    ByteCountBounds(x);
    assert f[2..] == BigEndian(x, n);
    ValueBigEndian(x, n);
    if x != 0 {
      LeadingDigit(x, n);
    }
  }

  /** 300 = 0x012C is written as two value bytes. */
  lemma IntField300(t: byte)
    ensures IntField(t, 300) == [t, 2, 0x01, 0x2C]
  {
    PowValues();
    ByteCountUnique(300, 2);
    BigEndianAt(300, 2, 0);
    BigEndianAt(300, 2, 1);
  }

  /**
   * decode_int64 on the value bytes of encode_int64(x) gives back `x`;
   * the narrowing decoders give back any value that fits their width, and
   * decode_bool tells zero from non-zero.
   */
  lemma IntRoundTrip(t: byte, x: nat)
    requires x < TWO64
    ensures Value(IntField(t, x)[2..]) % TWO64 == x
    ensures x < TWO32 ==> Decode32(IntField(t, x)[2..]) == x
    ensures x < TWO16 ==> Decode16(IntField(t, x)[2..]) == x
    ensures x < 256 ==> Decode8(IntField(t, x)[2..]) == x
    ensures DecodeBool(IntField(t, x)[2..]) <==> x != 0
  {
    IntFieldShape(t, x);
  }

  /**
   * A C `int` survives encode_int (sign extension to 64 bits) followed by
   * decode_int (mask to 32 bits).
   */
  lemma SignedIntRoundTrip(t: byte, x: int)
    requires -TWO31 <= x < TWO31
    ensures DecodeInt(IntField(t, U64(x))[2..]) == x
  {
    var v := IntField(t, U64(x))[2..];
    IntFieldShape(t, U64(x));
    ModMod(x, TWO32, TWO32);
    assert TWO32 * TWO32 == TWO64;
    assert Decode32(v) == x % TWO32;
    SignedResidue(x);
  }

  /** A 32-bit signed value survives the trip through its unsigned residue. */
  lemma SignedResidue(x: int)
    requires -TWO31 <= x < TWO31
    ensures I32(x % TWO32) == x
  {
    if x < 0 {
      DivModUnique(x, TWO32, -1, x + TWO32);
      DivModUnique(x + TWO32, TWO32, 0, x + TWO32);
    } else {
      DivModUnique(x, TWO32, 0, x);
    }
  }

  /** A non-NaN float survives encode_float followed by decode_float. */
  lemma FloatRoundTrip(t: byte, bits: nat)
    requires bits < TWO32 && !IsNaN32(bits)
    ensures DecodeFloat(IntField(t, bits)[2..]) == FloatBits(bits)
  {
    IntFieldShape(t, bits);
    PowValues();
    ByteCountAtMost(bits, 4);
  }

  /**
   * A non-NaN double survives encode_double followed by decode_double,
   * except a pattern with exactly four significant bytes (a subnormal
   * double), which decode_double reads back as a float widened to double.
   */
  lemma DoubleRoundTrip(t: byte, bits: nat)
    requires bits < TWO64 && !IsNaN64(bits)
    ensures 0x100_0000 <= bits < TWO32 ==> DecodeDouble(IntField(t, bits)[2..]) == WidenedFloat(bits)
    ensures !(0x100_0000 <= bits < TWO32) ==> DecodeDouble(IntField(t, bits)[2..]) == DoubleBits(bits)
  {
    IntFieldShape(t, bits);
    PowValues();
    var n := IntField(t, bits)[1];
    if 0x100_0000 <= bits < TWO32 {
      ByteCountUnique(bits, 4);
    } else if bits < 0x100_0000 {
      ByteCountAtMost(bits, 3);
    } else {
      assert TWO32 <= bits;
      if n <= 4 {
        PowMono(n, 4);
      }
      assert n > 4;
    }
  }

  /**
   * decode_socket inverts encode_socket on what is sent: the family and
   * port, the whole IPv4 address, and the first 8 bytes of an IPv6 one.
   */
  lemma SocketRoundTrip(t: byte, s: SockAddr)
    requires WellFormed(s) && !s.OtherFamily?
    ensures DecodeSocket(SocketField(t, s)[2..]) == Some(SentPart(s))
  {
    var v := SocketField(t, s)[2..];
    PowValues();
    ValueBigEndian(s.port, 2);
    if s.Inet? {
      assert v[..4] == s.addr && v[4..] == BigEndian(s.port, 2);
    } else {
      assert v[..8] == s.addr[..8] && v[8..] == BigEndian(s.port, 2);
    }
  }

  /** Block `k` of the float array's bytes is the k-th pattern, big-endian. */
  lemma {:induction false} WordsAt(fs: seq<nat>, k: nat)
    requires k < |fs|
    ensures |Words(fs)| == 4 * |fs|
    ensures Words(fs)[4 * k .. 4 * k + 4] == BigEndian(fs[k], 4)
    ensures fs[k] < TWO32 ==> Value(Words(fs)[4 * k .. 4 * k + 4]) == fs[k]
  {
    WordsLength(fs);
    var p := fs[..|fs| - 1];
    WordsLength(p);
    if k < |fs| - 1 {
      WordsAt(p, k);
      assert Words(fs)[4 * k .. 4 * k + 4] == Words(p)[4 * k .. 4 * k + 4];
    }
    PowValues();
    if fs[k] < TWO32 {
      ValueBigEndian(fs[k], 4);
    }
  }
}
