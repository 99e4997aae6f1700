/**
 * The record scanners of decode_status.c: get_ssrc, get_tag and
 * decode_radio_status walk a status record field by field.
 *
 * Every scanner reads a field header the same way: the type byte (EOL ends
 * the record), a length byte, and, when that byte has its top bit set, the
 * number of big-endian length bytes given by its low 7 bits, accumulated
 * into a 32-bit `unsigned int`. Scanning stops at the first field whose
 * value would reach or pass the end of the buffer (`cp + optlen >=
 * buffer + length`), so a field that ends exactly at the end of the buffer
 * is never seen; records are terminated by EOL, which keeps their last
 * field inside the buffer.
 */
module Scan {
  import opened Bytes
  import opened Sockaddr
  import opened Tlv

  /** A field as the scanners deliver it: its type code and value bytes. */
  datatype Field = Field(kind: byte, value: seq<byte>)

  /** What reading a field header at the start of a buffer finds. */
  datatype Header =
    | End                                         // the EOL type code
    | Overrun                                     // the value does not fit: stop
    | Hdr(kind: byte, hdrLen: nat, optlen: nat)   // header bytes, value bytes

  /**
   * The byte at `i`, or 0 past the end. Only the length bytes of a header
   * can lie past the end, and then the bounds test fails whatever they are.
   */
  function At(s: seq<byte>, i: int): byte
  {
    if 0 <= i < |s| then s[i] else 0
  }

  /**
   * The long-form length of the header at `p`: `k` bytes after the type and
   * length bytes, shifted into a 32-bit `unsigned int` one at a time.
   */
  function LongLength(s: seq<byte>, p: nat, k: nat): (r: nat)
    ensures r < TWO32
  {
    if k == 0 then 0 else (LongLength(s, p, k - 1) * 256) % TWO32 + At(s, p + 1 + k)
  }

  /**
   * When the bytes after the type and length bytes are `bytes`, the
   * long-form length is the big-endian number they denote, modulo 2^32.
   */
  lemma {:induction false} LongLengthOf(s: seq<byte>, p: nat, bytes: seq<byte>)
    requires p + 2 + |bytes| <= |s| && s[p + 2..p + 2 + |bytes|] == bytes
    ensures LongLength(s, p, |bytes|) == Value(bytes) % TWO32
  {
    var k := |bytes|;
    if k > 0 {
      var front := bytes[..k - 1];
      assert s[p + 2..p + 2 + |front|] == front;
      LongLengthOf(s, p, front);
      assert At(s, p + 1 + k) == bytes[k - 1];
      PowValues();
      ShiftIn(Value(front), bytes[k - 1], 4);
    }
  }

  /** The field header at index `p` of the buffer (decode_status.c:9-25). */
  function HeaderAt(s: seq<byte>, p: nat): (h: Header)
    requires p < |s|
    ensures h.Hdr? ==> h.kind == s[p] != EOL && 2 <= h.hdrLen && p + h.hdrLen + h.optlen < |s|
    ensures h.End? <==> s[p] == EOL
  {
    if s[p] == EOL then End
    else
      var b := At(s, p + 1);
      var hdrLen := if b >= 0x80 then 2 + (b - 0x80) else 2;
      var optlen := if b >= 0x80 then LongLength(s, p, b - 0x80) else b;
      if p + hdrLen + optlen >= |s| then Overrun else Hdr(s[p], hdrLen, optlen)
  }

  /** The fields a scanner visits from index `p`, up to EOL or the first overrun. */
  function FieldsFrom(s: seq<byte>, p: nat): seq<Field>
    decreases |s| - p
  {
    if p >= |s| then []
    else match HeaderAt(s, p)
      case Hdr(k, h, n) => [Field(k, s[p + h..p + h + n])] + FieldsFrom(s, p + h + n)
      case _ => []
  }

  /** A record from `p` on is the field whose header is at `p`, then the fields after it. */
  lemma FieldsStep(s: seq<byte>, p: nat, h: Header)
    requires p < |s| && h == HeaderAt(s, p) && h.Hdr?
    ensures FieldsFrom(s, p) ==
      [Field(h.kind, s[p + h.hdrLen..p + h.hdrLen + h.optlen])] + FieldsFrom(s, p + h.hdrLen + h.optlen)
  {
  }

  /** The fields of a whole record. */
  function Fields(s: seq<byte>): seq<Field>
  {
    FieldsFrom(s, 0)
  }

  /** The value of the first field of the given kind. */
  function FirstValue(fs: seq<Field>, kind: byte): Option<seq<byte>>
  {
    if fs == [] then None
    else if fs[0].kind == kind then Some(fs[0].value)
    else FirstValue(fs[1..], kind)
  }

  /** The first value found is that of the first field of the kind; None when there is none. */
  lemma {:induction false} FirstValueFinds(fs: seq<Field>, kind: byte)
    ensures FirstValue(fs, kind).None? <==> forall i :: 0 <= i < |fs| ==> fs[i].kind != kind
    ensures FirstValue(fs, kind).Some? ==>
      exists i :: 0 <= i < |fs| && fs[i] == Field(kind, FirstValue(fs, kind).value) &&
        forall j :: 0 <= j < i ==> fs[j].kind != kind
  {
    if fs != [] && fs[0].kind != kind {
      FirstValueFinds(fs[1..], kind);
      if FirstValue(fs, kind).Some? {
        var i :| 0 <= i < |fs| - 1 && fs[1..][i] == Field(kind, FirstValue(fs, kind).value) &&
          forall j :: 0 <= j < i ==> fs[1..][j].kind != kind;
        assert fs[i + 1] == Field(kind, FirstValue(fs, kind).value);
        assert forall j :: 0 <= j < i + 1 ==> fs[j].kind != kind by {
          forall j | 0 <= j < i + 1 ensures fs[j].kind != kind {
            if j > 0 { assert fs[j] == fs[1..][j - 1]; }
          }
        }
      } else {
        forall i | 0 <= i < |fs| ensures fs[i].kind != kind {
          if i > 0 { assert fs[i] == fs[1..][i - 1]; }
        }
      }
    } else if fs != [] {
      assert fs[0] == Field(kind, FirstValue(fs, kind).value);
    }
  }

  /**
   * Reads the header of the field starting at `p`, as the body of each
   * scanner loop does before its switch.
   */
  method ReadFieldHeader(buffer: seq<byte>, p: nat) returns (h: Header)
    requires p < |buffer|
    ensures h == HeaderAt(buffer, p)
  {
    var cp := p;
    var t := buffer[cp];
    cp := cp + 1;
    if t == EOL {
      return End;
    }
    var optlen: nat := At(buffer, cp);
    cp := cp + 1;
    if optlen >= 0x80 {
      var lengthOfLength := optlen - 0x80;
      ghost var k := lengthOfLength;
      optlen := 0;
      while lengthOfLength > 0
        invariant 0 <= lengthOfLength <= k
        invariant cp == p + 2 + (k - lengthOfLength)
        invariant optlen == LongLength(buffer, p, k - lengthOfLength)
      {
        // optlen <<= 8; optlen |= *cp++: the low byte is clear after the shift
        optlen := (optlen * 256) % TWO32 + At(buffer, cp);
        cp := cp + 1;
        lengthOfLength := lengthOfLength - 1;
      }
    }
    if cp + optlen >= |buffer| {
      return Overrun;
    }
    return Hdr(t, cp - p, optlen);
  }

  /**
   * The loop shared by get_ssrc and get_tag: the value of the first field
   * of the given kind, or None when EOL, an overrun or the end of the
   * buffer comes first.
   */
  method FindField(buffer: seq<byte>, kind: byte) returns (v: Option<seq<byte>>)
    ensures v == FirstValue(Fields(buffer), kind)
  {
    var cp := 0;
    while cp < |buffer|
      invariant cp <= |buffer|
      invariant FirstValue(FieldsFrom(buffer, cp), kind) == FirstValue(Fields(buffer), kind)
      decreases |buffer| - cp
    {
      var h := ReadFieldHeader(buffer, cp);
      if !h.Hdr? {
        return None;
      }
      var start := cp + h.hdrLen;
      if h.kind == kind {
        return Some(buffer[start..start + h.optlen]);
      }
      cp := start + h.optlen;
    }
    return None;
  }

  /** get_ssrc: the 32-bit value of the first OUTPUT_SSRC field, else 0. */
  method GetSsrc(buffer: seq<byte>) returns (ssrc: nat)
    ensures ssrc < TWO32
    ensures FirstValue(Fields(buffer), OUTPUT_SSRC).None? ==> ssrc == 0
    ensures FirstValue(Fields(buffer), OUTPUT_SSRC).Some? ==>
      ssrc == Value(FirstValue(Fields(buffer), OUTPUT_SSRC).value) % TWO32
  {
    var v := FindField(buffer, OUTPUT_SSRC);
    if v.None? {
      return 0;
    }
    return Decode32(v.value);
  }

  /** get_tag: the 32-bit value of the first COMMAND_TAG field, else 0. */
  method GetTag(buffer: seq<byte>) returns (tag: nat)
    ensures tag < TWO32
    ensures FirstValue(Fields(buffer), COMMAND_TAG).None? ==> tag == 0
    ensures FirstValue(Fields(buffer), COMMAND_TAG).Some? ==>
      tag == Value(FirstValue(Fields(buffer), COMMAND_TAG).value) % TWO32
  {
    var v := FindField(buffer, COMMAND_TAG);
    if v.None? {
      return 0;
    }
    return Decode32(v.value);
  }

  // ---------------------------------------------------------------------
  // How encoded fields scan

  /** The bytes of one field as the encoders write it. */
  function Encoded(t: byte, v: seq<byte>): (e: seq<byte>)
    requires |v| < TWO32
    ensures |e| == 1 + |LengthHeader(|v|)| + |v|
  {
    [t] + LengthHeader(|v|) + v
  }

  /**
   * The length parse recovers the exact value length of an encoded field,
   * provided at least one byte follows it; a field ending exactly at the end
   * of the buffer is an overrun.
   */
  lemma HeaderOfEncoded(t: byte, v: seq<byte>, rest: seq<byte>)
    requires t != EOL && |v| < TWO32
    ensures rest != [] ==> HeaderAt(Encoded(t, v) + rest, 0) == Hdr(t, 1 + |LengthHeader(|v|)|, |v|)
    ensures rest == [] ==> HeaderAt(Encoded(t, v) + rest, 0) == Overrun
  {
    var n := |v|;
    var hd := LengthHeader(n);
    var s := Encoded(t, v) + rest;
    EncodedLayout(t, v, rest);
    if n >= 128 {
      LongHeader(n);
      LongLengthOf(s, 0, hd[1..]);
    }
  }

  /** Where the parts of an encoded field lie in the buffer. */
  lemma EncodedLayout(t: byte, v: seq<byte>, rest: seq<byte>)
    requires |v| < TWO32
    ensures var hd := LengthHeader(|v|);
      var s := Encoded(t, v) + rest;
      |s| == 1 + |hd| + |v| + |rest| && s[0] == t && At(s, 1) == hd[0] &&
      s[2..1 + |hd|] == hd[1..] && s[1 + |hd|..1 + |hd| + |v|] == v &&
      s[1 + |hd| + |v|..] == rest
  {
    var hd := LengthHeader(|v|);
    var s := Encoded(t, v) + rest;
    assert s == [t] + hd + v + rest;
    assert s[2..1 + |hd|] == hd[1..];
    assert s[1 + |hd|..1 + |hd| + |v|] == v;
  }

  /** The long-form length bytes of encode_string denote the length itself. */
  lemma LongHeader(n: nat)
    requires 128 <= n < TWO32
    ensures Value(LengthHeader(n)[1..]) % TWO32 == n
  {
    var hd := LengthHeader(n);
    var k := |hd| - 1;
    PowValues();
    assert hd[1..] == BigEndian(n, k);
    assert n < Pow256(k) by {
      if k == 3 { PowMono(3, 3); }
    }
    ValueBigEndian(n, k);
  }

  /** An encoded field followed by more bytes scans as that field, then the rest. */
  lemma FieldsCons(t: byte, v: seq<byte>, rest: seq<byte>)
    requires t != EOL && |v| < TWO32 && rest != []
    ensures Fields(Encoded(t, v) + rest) == [Field(t, v)] + Fields(rest)
  {
    HeaderOfEncoded(t, v, rest);
    EncodedLayout(t, v, rest);
    FirstFieldThenRest(Encoded(t, v), rest, 1 + |LengthHeader(|v|)|);
  }

  /**
   * A buffer that starts with one whole field `pre` (header of `h` bytes,
   * then its value) scans as that field, then whatever `rest` scans as.
   */
  lemma FirstFieldThenRest(pre: seq<byte>, rest: seq<byte>, h: nat)
    requires 0 < h <= |pre| && HeaderAt(pre + rest, 0) == Hdr(pre[0], h, |pre| - h)
    ensures FieldsFrom(pre + rest, 0) == [Field(pre[0], pre[h..])] + FieldsFrom(rest, 0)
  {
    var s := pre + rest;
    var n := |pre|;
    assert s[h..n] == pre[h..];
    FieldsStep(s, 0, Hdr(pre[0], h, n - h));
    assert 0 + h + (n - h) == n;
    FieldsShift(pre, rest, 0);
    assert n + 0 == n;
  }

  /** Scanning is unaffected by bytes in front of the scan position. */
  lemma {:induction false} FieldsShift(pre: seq<byte>, s: seq<byte>, p: nat)
    ensures FieldsFrom(pre + s, |pre| + p) == FieldsFrom(s, p)
    decreases |s| - p
  {
    if p < |s| {
      HeaderShift(pre, s, p);
      var h := HeaderAt(s, p);
      if h.Hdr? {
        var q := p + h.hdrLen + h.optlen;
        FieldsStep(s, p, h);
        ShiftedField(pre, s, p, h);
        FieldsShift(pre, s, q);
      }
    }
  }

  /** The field at `p` reads the same with bytes in front of the record. */
  lemma ShiftedField(pre: seq<byte>, s: seq<byte>, p: nat, h: Header)
    requires p < |s| && h == HeaderAt(s, p) && h.Hdr? && HeaderAt(pre + s, |pre| + p) == h
    ensures var q := p + h.hdrLen + h.optlen;
      FieldsFrom(pre + s, |pre| + p) == [Field(h.kind, s[p + h.hdrLen..q])] + FieldsFrom(pre + s, |pre| + q)
  {
    var start := p + h.hdrLen;
    assert (pre + s)[|pre| + start..|pre| + start + h.optlen] == s[start..start + h.optlen];
    FieldsStep(pre + s, |pre| + p, h);
  }

  /** A slice of `s` is the same slice of `pre + s`, moved by `|pre|`. */
  lemma SliceShift(pre: seq<byte>, s: seq<byte>, i: nat, j: nat)
    requires i <= j <= |s|
    ensures (pre + s)[|pre| + i..|pre| + j] == s[i..j]
  {
  }

  lemma HeaderShift(pre: seq<byte>, s: seq<byte>, p: nat)
    requires p < |s|
    ensures HeaderAt(pre + s, |pre| + p) == HeaderAt(s, p)
  {
    var b := At(s, p + 1);
    assert At(pre + s, |pre| + p + 1) == b;
    if b >= 0x80 {
      LongLengthShift(pre, s, p, b - 0x80);
    }
  }

  lemma {:induction false} LongLengthShift(pre: seq<byte>, s: seq<byte>, p: nat, k: nat)
    ensures LongLength(pre + s, |pre| + p, k) == LongLength(s, p, k)
  {
    if k > 0 {
      LongLengthShift(pre, s, p, k - 1);
      assert At(pre + s, |pre| + p + 1 + k) == At(s, p + 1 + k);
    }
  }

  /** Nothing is seen after EOL. */
  lemma FieldsEol(rest: seq<byte>)
    ensures Fields([EOL] + rest) == []
  {
  }

  /** A record whose only field runs to the end of the buffer yields nothing. */
  lemma LastFieldDropped(t: byte, v: seq<byte>)
    requires t != EOL && |v| < TWO32
    ensures Fields(Encoded(t, v)) == []
    ensures Fields(Encoded(t, v) + [EOL]) == [Field(t, v)]
  {
    HeaderOfEncoded(t, v, []);
    assert Encoded(t, v) + [] == Encoded(t, v);
    FieldsCons(t, v, [EOL]);
  }

  /** encode_int64's output is an encoded field with the value bytes. */
  lemma IntFieldEncoded(t: byte, x: nat)
    requires x < TWO64
    ensures IntField(t, x) == Encoded(t, IntField(t, x)[2..])
  {
  }

  /** encode_socket's output is an encoded field with the 6 or 10 value bytes. */
  lemma SocketFieldEncoded(t: byte, s: SockAddr)
    requires WellFormed(s) && !s.OtherFamily?
    ensures SocketField(t, s) == Encoded(t, SocketField(t, s)[2..])
  {
  }

  /** The record [COMMAND_TAG 4 0 0 0 1][OUTPUT_SSRC 4 0 0 3 0xE8][EOL]. */
  const EXAMPLE_RECORD: seq<byte> := [COMMAND_TAG, 4, 0, 0, 0, 1, OUTPUT_SSRC, 4, 0, 0, 3, 0xE8, EOL]

  /** The example record holds exactly its two fields. */
  lemma ExampleFields()
    ensures Fields(EXAMPLE_RECORD) ==
      [Field(COMMAND_TAG, [0, 0, 0, 1]), Field(OUTPUT_SSRC, [0, 0, 3, 0xE8])]
  {
    var ssrcField := Encoded(OUTPUT_SSRC, [0, 0, 3, 0xE8]);
    assert ssrcField == [OUTPUT_SSRC, 4, 0, 0, 3, 0xE8];
    var tagField := Encoded(COMMAND_TAG, [0, 0, 0, 1]);
    assert tagField == [COMMAND_TAG, 4, 0, 0, 0, 1];
    FieldsCons(OUTPUT_SSRC, [0, 0, 3, 0xE8], [EOL]);
    FieldsCons(COMMAND_TAG, [0, 0, 0, 1], ssrcField + [EOL]);
    assert tagField + (ssrcField + [EOL]) == EXAMPLE_RECORD;
  }

  /** get_ssrc finds 1000 in the example record, get_tag finds 1. */
  lemma SsrcExample()
    ensures FirstValue(Fields(EXAMPLE_RECORD), OUTPUT_SSRC) == Some([0, 0, 3, 0xE8])
    ensures FirstValue(Fields(EXAMPLE_RECORD), COMMAND_TAG) == Some([0, 0, 0, 1])
    ensures Value([0, 0, 3, 0xE8]) % TWO32 == 1000
    ensures Value([0, 0, 0, 1]) % TWO32 == 1
  {
    ExampleFields();
    PowValues();
    ValueBigEndian(1000, 4);
    ValueBigEndian(1, 4);
    WordBytes(1000);
    WordBytes(1);
  }
}
