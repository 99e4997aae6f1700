/**
 * The RTP fixed header of section 5.1 of RFC 3550 as rtp.c packs and
 * unpacks it, and the checks the audio path of ka9q-web.c applies to a
 * received datagram before forwarding it.
 *
 * Header words travel big-endian (`htonl`/`ntohl`); a word of the buffer
 * is the value of its four bytes. The shifts and masks of the first word
 * are divisions and remainders by powers of two, and the `|` of hton_rtp
 * joins fields that occupy disjoint bits, so it is a sum.
 */
module Rtp {
  import opened Bytes
  import opened Tlv

  const RTP_MIN_SIZE: nat := 12
  const RTP_VERS: nat := 2
  /** Size of `struct packet`'s content buffer. */
  const PKTSIZE: nat := 65536
  /** Number of entries of `rtp_header.csrc`. */
  const CSRC_SLOTS: nat := 15

  /** `struct rtp_header`. */
  datatype RtpHeader = RtpHeader(
    version: int,
    typ: nat,          // uint8_t type
    sequence: nat,     // uint16_t seq
    timestamp: nat,    // uint32_t
    ssrc: nat,         // uint32_t
    marker: bool,
    pad: bool,
    extension: bool,
    cc: int,
    csrc: seq<nat>)    // uint32_t csrc[15]

  /** The ranges the C field types impose. */
  predicate WellTyped(h: RtpHeader)
  {
    && h.typ < 256 && h.sequence < TWO16 && h.timestamp < TWO32 && h.ssrc < TWO32
    && |h.csrc| == CSRC_SLOTS
    && forall i :: 0 <= i < |h.csrc| ==> h.csrc[i] < TWO32
  }

  function Bit(b: bool): nat
  {
    if b then 1 else 0
  }

  /** `htonl(x)`: the four bytes of a 32-bit word, most significant first. */
  function Word(x: nat): (r: seq<byte>)
    ensures |r| == 4
  {
    BigEndian(x, 4)
  }

  /** `ntohl(*dp)` with `dp` at byte offset `p`. */
  function WordAt(data: seq<byte>, p: nat): (r: nat)
    requires p + 4 <= |data|
    ensures r < TWO32
  {
    ValueBound(data[p..p + 4]);
    PowValues();
    Value(data[p..p + 4])
  }

  // ---------------------------------------------------------------------
  // hton_rtp

  /** The first header word hton_rtp composes; the number of CSRCs is masked to 4 bits. */
  function FirstWord(h: RtpHeader): (w: nat)
    requires WellTyped(h)
    ensures w < TWO32
  {
    RTP_VERS * 0x4000_0000 + Bit(h.pad) * 0x2000_0000 + Bit(h.extension) * 0x1000_0000
      + (h.cc % 16) * 0x100_0000 + Bit(h.marker) * 0x80_0000 + (h.typ % 128) * 0x1_0000 + h.sequence
  }

  /** The first `n` CSRC words. */
  function CsrcBytes(csrc: seq<nat>, n: nat): (r: seq<byte>)
    requires n <= |csrc|
    ensures |r| == 4 * n
  {
    if n == 0 then [] else CsrcBytes(csrc, n - 1) + Word(csrc[n - 1])
  }

  /** Everything hton_rtp writes: three fixed words and `cc & 0xf` CSRCs. */
  function HeaderBytes(h: RtpHeader): (r: seq<byte>)
    requires WellTyped(h)
    ensures |r| == RTP_MIN_SIZE + 4 * (h.cc % 16)
  {
    Word(FirstWord(h)) + Word(h.timestamp) + Word(h.ssrc) + CsrcBytes(h.csrc, h.cc % 16)
  }

  /** hton_rtp: the header written at the writer's position, which then lies just past it. */
  method HtonRtp(w: Writer, h: RtpHeader)
    requires w.Valid() && WellTyped(h) && w.Room() >= RTP_MIN_SIZE + 4 * (h.cc % 16)
    modifies w, w.data
    ensures w.Valid() && w.Written() == old(w.Written()) + HeaderBytes(h)
  {
    w.PutWord(FirstWord(h));
    w.PutWord(h.timestamp);
    w.PutWord(h.ssrc);
    PutCsrcs(w, h.csrc, h.cc % 16);
    assert w.Written() == old(w.Written()) + (Word(FirstWord(h)) + Word(h.timestamp) + Word(h.ssrc))
      + CsrcBytes(h.csrc, h.cc % 16);
  }

  /** The CSRC loop of hton_rtp. */
  method PutCsrcs(w: Writer, csrc: seq<nat>, cc: nat)
    requires w.Valid() && cc <= |csrc| && w.Room() >= 4 * cc
    requires forall i :: 0 <= i < cc ==> csrc[i] < TWO32
    modifies w, w.data
    ensures w.Valid() && w.Written() == old(w.Written()) + CsrcBytes(csrc, cc)
  {
    for i := 0 to cc
      invariant w.Valid() && w.Room() >= 4 * (cc - i)
      invariant w.Written() == old(w.Written()) + CsrcBytes(csrc, i)
    {
      w.PutWord(csrc[i]);
      assert CsrcBytes(csrc, i + 1) == CsrcBytes(csrc, i) + Word(csrc[i]);
    }
  }

  // ---------------------------------------------------------------------
  // ntoh_rtp

  /** `(w >> 24) & 0xf` */
  function CcOf(w: nat): nat
  {
    (w / 0x100_0000) % 16
  }

  /** `(w >> 28) & 1` */
  predicate ExtOf(w: nat)
  {
    (w / 0x1000_0000) % 2 == 1
  }

  /**
   * ntoh_rtp takes no length: the buffer must hold the fixed words, the
   * CSRCs the first word announces and, with the extension bit, the
   * extension header word. The extension body is skipped, not read.
   */
  predicate Readable(data: seq<byte>, at: nat)
  {
    && at + RTP_MIN_SIZE <= |data|
    && var w := WordAt(data, at);
      at + RTP_MIN_SIZE + 4 * CcOf(w) + (if ExtOf(w) then 4 else 0) <= |data|
  }

  /** The header and the offset just past it, as ntoh_rtp returns them. */
  datatype Parsed = Parsed(header: RtpHeader, next: nat)

  /** The CSRC array after reading `n` words from offset `p`; later slots keep their old contents. */
  function CsrcRead(old_csrc: seq<nat>, data: seq<byte>, p: nat, n: nat): (r: seq<nat>)
    requires |old_csrc| == CSRC_SLOTS && n <= CSRC_SLOTS && p + 4 * n <= |data|
    ensures |r| == CSRC_SLOTS
  {
    seq(CSRC_SLOTS, i requires 0 <= i < CSRC_SLOTS => if i < n then WordAt(data, p + 4 * i) else old_csrc[i])
  }

  /** What ntoh_rtp stores into `*rtp` (whose previous contents are `prev`) and returns. */
  function ParseHeader(prev: RtpHeader, data: seq<byte>, at: nat): (r: Parsed)
    requires |prev.csrc| == CSRC_SLOTS && Readable(data, at)
    ensures r.header.cc < 16 && r.header.typ < 128 && r.header.sequence < TWO16
    ensures r.next >= at + RTP_MIN_SIZE + 4 * r.header.cc
  {
    var w := WordAt(data, at);
    var cc := CcOf(w);
    var after := at + RTP_MIN_SIZE + 4 * cc;
    var h := RtpHeader(
      w / 0x4000_0000, (w / 0x1_0000) % 128, w % 0x1_0000,
      WordAt(data, at + 4), WordAt(data, at + 8),
      (w / 0x80_0000) % 2 == 1, (w / 0x2000_0000) % 2 == 1, ExtOf(w),
      cc, CsrcRead(prev.csrc, data, at + RTP_MIN_SIZE, cc));
    Parsed(h, if ExtOf(w) then after + 4 + 4 * (WordAt(data, after) % 0x1_0000) else after)
  }

  /** ntoh_rtp, word by word. */
  method NtohRtp(prev: RtpHeader, data: seq<byte>, at: nat) returns (h: RtpHeader, next: nat)
    requires |prev.csrc| == CSRC_SLOTS && Readable(data, at)
    ensures Parsed(h, next) == ParseHeader(prev, data, at)
  {
    var dp := at;
    var w := WordAt(data, dp);
    dp := dp + 4;
    var cc := (w / 0x100_0000) % 16;
    var ext := (w / 0x1000_0000) % 2 == 1;
    var timestamp := WordAt(data, dp);
    dp := dp + 4;
    var ssrc := WordAt(data, dp);
    dp := dp + 4;
    var csrc := prev.csrc;
    for i := 0 to cc
      invariant dp == at + RTP_MIN_SIZE + 4 * i
      invariant |csrc| == CSRC_SLOTS
      invariant forall j :: 0 <= j < CSRC_SLOTS ==>
        csrc[j] == if j < i then WordAt(data, at + RTP_MIN_SIZE + 4 * j) else prev.csrc[j]
    {
      csrc := csrc[i := WordAt(data, dp)];
      dp := dp + 4;
    }
    if ext {
      var extLen := WordAt(data, dp) % 0x1_0000;
      dp := dp + 4 + 4 * extLen;
    }
    h := RtpHeader(w / 0x4000_0000, (w / 0x1_0000) % 128, w % 0x1_0000, timestamp, ssrc,
      (w / 0x80_0000) % 2 == 1, (w / 0x2000_0000) % 2 == 1, ext, cc, csrc);
    next := dp;
    assert csrc == CsrcRead(prev.csrc, data, at + RTP_MIN_SIZE, cc);
  }

  // ---------------------------------------------------------------------
  // Round trip

  /** The header ntoh_rtp recovers from hton_rtp's words, over a struct that held `prev`. */
  function Normalized(h: RtpHeader, prev: RtpHeader): (r: RtpHeader)
    requires WellTyped(h) && |prev.csrc| == CSRC_SLOTS
    ensures |r.csrc| == CSRC_SLOTS
    ensures r.version == RTP_VERS && r.cc == h.cc % 16 && r.typ == h.typ % 128
    ensures r.pad == h.pad && r.marker == h.marker && r.extension == h.extension
    ensures r.sequence == h.sequence && r.timestamp == h.timestamp && r.ssrc == h.ssrc
    ensures forall i :: 0 <= i < h.cc % 16 ==> r.csrc[i] == h.csrc[i]
  {
    var cc := h.cc % 16;
    h.(version := RTP_VERS, typ := h.typ % 128, cc := cc,
      csrc := seq(CSRC_SLOTS, i requires 0 <= i < CSRC_SLOTS => if i < cc then h.csrc[i] else prev.csrc[i]))
  }

  /** `(w / p) % m` picks out a field `f` of width `m` sitting above `p`. */
  lemma FieldOf(w: nat, p: nat, m: nat, f: nat, rest: nat, low: nat)
    requires p > 0 && m > 0 && f < m && low < p && w == (f + m * rest) * p + low
    ensures w / p == f + m * rest && (w / p) % m == f
  {
    DivModUnique(w, p, f + m * rest, low);
    DivModUnique(f + m * rest, m, rest, f);
  }

  /** Each shift-and-mask of ntoh_rtp reads back the field hton_rtp put there. */
  lemma FirstWordFields(h: RtpHeader)
    requires WellTyped(h)
    ensures var w := FirstWord(h);
      && w < TWO32 && w / 0x4000_0000 == RTP_VERS
      && (w / 0x2000_0000) % 2 == Bit(h.pad) && (w / 0x1000_0000) % 2 == Bit(h.extension)
      && CcOf(w) == h.cc % 16 && (w / 0x80_0000) % 2 == Bit(h.marker)
      && (w / 0x1_0000) % 128 == h.typ % 128 && w % 0x1_0000 == h.sequence
  {
    UnpackHigh(Bit(h.pad), Bit(h.extension), h.cc % 16, Bit(h.marker), h.typ % 128, h.sequence);
    UnpackLow(Bit(h.pad), Bit(h.extension), h.cc % 16, Bit(h.marker), h.typ % 128, h.sequence);
  }

  /** The version, pad, extension and count fields of a packed first word. */
  lemma UnpackHigh(p: nat, e: nat, c: nat, m: nat, t: nat, s: nat)
    requires p < 2 && e < 2 && c < 16 && m < 2 && t < 128 && s < TWO16
    ensures var w := RTP_VERS * 0x4000_0000 + p * 0x2000_0000 + e * 0x1000_0000
        + c * 0x100_0000 + m * 0x80_0000 + t * 0x1_0000 + s;
      && w < TWO32 && w / 0x4000_0000 == RTP_VERS
      && (w / 0x2000_0000) % 2 == p && (w / 0x1000_0000) % 2 == e && (w / 0x100_0000) % 16 == c
  {
    var low := m * 0x80_0000 + t * 0x1_0000 + s;
    var w := RTP_VERS * 0x4000_0000 + p * 0x2000_0000 + e * 0x1000_0000 + c * 0x100_0000 + low;
    FieldOf(w, 0x4000_0000, 4, RTP_VERS, 0, p * 0x2000_0000 + e * 0x1000_0000 + c * 0x100_0000 + low);
    FieldOf(w, 0x2000_0000, 2, p, RTP_VERS, e * 0x1000_0000 + c * 0x100_0000 + low);
    FieldOf(w, 0x1000_0000, 2, e, RTP_VERS * 2 + p, c * 0x100_0000 + low);
    FieldOf(w, 0x100_0000, 16, c, (RTP_VERS * 2 + p) * 2 + e, low);
  }

  /** The marker, payload type and sequence fields of a packed first word. */
  lemma UnpackLow(p: nat, e: nat, c: nat, m: nat, t: nat, s: nat)
    requires p < 2 && e < 2 && c < 16 && m < 2 && t < 128 && s < TWO16
    ensures var w := RTP_VERS * 0x4000_0000 + p * 0x2000_0000 + e * 0x1000_0000
        + c * 0x100_0000 + m * 0x80_0000 + t * 0x1_0000 + s;
      && (w / 0x80_0000) % 2 == m && (w / 0x1_0000) % 128 == t && w % 0x1_0000 == s
  {
    var high := (RTP_VERS * 2 + p) * 2 + e;
    var w := RTP_VERS * 0x4000_0000 + p * 0x2000_0000 + e * 0x1000_0000 + c * 0x100_0000 + m * 0x80_0000 + t * 0x1_0000 + s;
    FieldOf(w, 0x80_0000, 2, m, high * 16 + c, t * 0x1_0000 + s);
    FieldOf(w, 0x1_0000, 128, t, (high * 16 + c) * 2 + m, s);
    DivModUnique(w, 0x1_0000, w / 0x1_0000, s);
  }

  /** The i-th CSRC word sits at offset 4i of the CSRC block. */
  lemma {:induction false} CsrcBytesAt(csrc: seq<nat>, n: nat, i: nat)
    requires i < n <= |csrc|
    ensures CsrcBytes(csrc, n)[4 * i..4 * i + 4] == Word(csrc[i])
  {
    if i < n - 1 {
      CsrcBytesAt(csrc, n - 1, i);
      assert CsrcBytes(csrc, n)[4 * i..4 * i + 4] == CsrcBytes(csrc, n - 1)[4 * i..4 * i + 4];
    } else {
      assert CsrcBytes(csrc, n)[4 * i..4 * i + 4] == Word(csrc[n - 1]);
    }
  }

  /** A slice inside the middle part of a concatenation. */
  lemma SliceOfMiddle(pre: seq<byte>, s: seq<byte>, rest: seq<byte>, a: nat, b: nat)
    requires a <= b <= |s|
    ensures (pre + s + rest)[|pre| + a..|pre| + b] == s[a..b]
  {
  }

  /** A word written by `Word` reads back with `WordAt`. */
  lemma WordBack(data: seq<byte>, p: nat, x: nat)
    requires p + 4 <= |data| && data[p..p + 4] == Word(x) && x < TWO32
    ensures WordAt(data, p) == x
  {
    PowValues();
    ValueBigEndian(x, 4);
  }

  /** The words of `HeaderBytes(h) + rest`, one by one. */
  lemma HeaderWords(h: RtpHeader, rest: seq<byte>)
    requires WellTyped(h)
    ensures var data := HeaderBytes(h) + rest;
      && WordAt(data, 0) == FirstWord(h) && WordAt(data, 4) == h.timestamp && WordAt(data, 8) == h.ssrc
      && forall i :: 0 <= i < h.cc % 16 ==> WordAt(data, RTP_MIN_SIZE + 4 * i) == h.csrc[i]
  {
    var cs := CsrcBytes(h.csrc, h.cc % 16);
    FirstWordFields(h);
    FixedWords(FirstWord(h), h.timestamp, h.ssrc, cs + rest);
    var fixed := Word(FirstWord(h)) + Word(h.timestamp) + Word(h.ssrc);
    assert HeaderBytes(h) + rest == fixed + (cs + rest);
    forall i | 0 <= i < h.cc % 16
      ensures WordAt(HeaderBytes(h) + rest, RTP_MIN_SIZE + 4 * i) == h.csrc[i]
    {
      CsrcWord(fixed, h.csrc, h.cc % 16, rest, i);
    }
  }

  /** The three fixed words read back from the front of a buffer. */
  lemma FixedWords(a: nat, b: nat, c: nat, tail: seq<byte>)
    requires a < TWO32 && b < TWO32 && c < TWO32
    ensures var data := Word(a) + Word(b) + Word(c) + tail;
      WordAt(data, 0) == a && WordAt(data, 4) == b && WordAt(data, 8) == c
  {
    var data := Word(a) + Word(b) + Word(c) + tail;
    SliceOfMiddle([], Word(a), Word(b) + Word(c) + tail, 0, 4);
    assert data == [] + Word(a) + (Word(b) + Word(c) + tail);
    WordBack(data, 0, a);
    SliceOfMiddle(Word(a), Word(b), Word(c) + tail, 0, 4);
    assert data == Word(a) + Word(b) + (Word(c) + tail);
    WordBack(data, 4, b);
    SliceOfMiddle(Word(a) + Word(b), Word(c), tail, 0, 4);
    WordBack(data, 8, c);
  }

  /** The i-th CSRC word reads back from after the fixed words. */
  lemma CsrcWord(fixed: seq<byte>, csrc: seq<nat>, n: nat, rest: seq<byte>, i: nat)
    requires |fixed| == RTP_MIN_SIZE && i < n <= |csrc| && csrc[i] < TWO32
    ensures WordAt(fixed + (CsrcBytes(csrc, n) + rest), RTP_MIN_SIZE + 4 * i) == csrc[i]
  {
    var data := fixed + (CsrcBytes(csrc, n) + rest);
    assert data == fixed + CsrcBytes(csrc, n) + rest;
    CsrcBytesAt(csrc, n, i);
    SliceOfMiddle(fixed, CsrcBytes(csrc, n), rest, 4 * i, 4 * i + 4);
    WordBack(data, RTP_MIN_SIZE + 4 * i, csrc[i]);
  }

  /**
   * ntoh_rtp(hton_rtp(h)) without an extension: every field comes back as
   * hton_rtp masked it, the version is RTP_VERS, and the returned position
   * is the one hton_rtp returned.
   */
  lemma RoundTrip(h: RtpHeader, prev: RtpHeader, rest: seq<byte>)
    requires WellTyped(h) && !h.extension && |prev.csrc| == CSRC_SLOTS
    ensures Readable(HeaderBytes(h) + rest, 0)
    ensures ParseHeader(prev, HeaderBytes(h) + rest, 0) == Parsed(Normalized(h, prev), |HeaderBytes(h)|)
  {
    var data := HeaderBytes(h) + rest;
    HeaderWords(h, rest);
    FirstWordFields(h);
    var r := ParseHeader(prev, data, 0);
    var n := Normalized(h, prev);
    assert r.header.csrc == n.csrc;
  }

  /**
   * With the extension bit set, ntoh_rtp reads the extension word and steps
   * over as many further words as its low 16 bits say: the whole extension
   * block is skipped and the fixed fields still come back.
   */
  lemma ExtensionSkipped(h: RtpHeader, prev: RtpHeader, ext: nat, body: seq<byte>, rest: seq<byte>)
    requires WellTyped(h) && h.extension && |prev.csrc| == CSRC_SLOTS
    requires ext < TWO32 && |body| == 4 * (ext % 0x1_0000)
    ensures Readable(HeaderBytes(h) + (Word(ext) + body + rest), 0)
    ensures var r := ParseHeader(prev, HeaderBytes(h) + (Word(ext) + body + rest), 0);
      && r.next == |HeaderBytes(h)| + 4 + |body|
      && r.header == Normalized(h, prev)
  {
    var tail := Word(ext) + body + rest;
    var data := HeaderBytes(h) + tail;
    HeaderWords(h, tail);
    FirstWordFields(h);
    SliceOfMiddle(HeaderBytes(h), Word(ext), body + rest, 0, 4);
    assert data == HeaderBytes(h) + Word(ext) + (body + rest);
    WordBack(data, |HeaderBytes(h)|, ext);
    var r := ParseHeader(prev, data, 0);
    assert r.header.csrc == Normalized(h, prev).csrc;
  }

  // ---------------------------------------------------------------------
  // The audio path's checks on a received datagram

  /** The header of a datagram and the payload after it. */
  datatype Packet = Packet(header: RtpHeader, dataStart: nat, len: int)

  /**
   * A datagram of `size` bytes received into the content buffer, as the
   * audio thread checks it: shorter than a header plus some data is
   * skipped; otherwise the payload runs from the end of the header to the
   * end of the datagram, less the padding count in its last byte when the
   * pad bit is set, and an empty payload is skipped.
   *
   * `pkt->len` is a `size_t`, so the subtractions wrap modulo 2^64 and the
   * test `pkt->len <= 0` only catches a length of exactly 0.
   */
  function ReceiveAsWritten(prev: RtpHeader, content: seq<byte>, size: int): (r: Option<Packet>)
    requires |prev.csrc| == CSRC_SLOTS && |content| == PKTSIZE && size <= PKTSIZE
    ensures size <= RTP_MIN_SIZE ==> r.None?
  {
    if size <= RTP_MIN_SIZE then None
    else
      var p := ParseHeader(prev, content, 0);
      var len := U64(size - p.next);
      var stripped := if p.header.pad then U64(len - content[size - 1]) else len;
      if stripped == 0 then None
      else Some(Packet(p.header.(pad := false), p.next, stripped))
  }

  /**
   * The same checks with the payload length as a signed count: a header
   * that runs past the datagram, or padding longer than the payload, gives
   * a length of at most 0 and the datagram is skipped.
   */
  function Receive(prev: RtpHeader, content: seq<byte>, size: int): (r: Option<Packet>)
    requires |prev.csrc| == CSRC_SLOTS && |content| == PKTSIZE && size <= PKTSIZE
  {
    if size <= RTP_MIN_SIZE then None
    else
      var p := ParseHeader(prev, content, 0);
      var len := size - p.next;
      var stripped := if p.header.pad then len - content[size - 1] else len;
      if stripped <= 0 then None
      else Some(Packet(p.header.(pad := false), p.next, stripped))
  }

  /**
   * A datagram passes the corrected checks exactly when it is longer than
   * RTP_MIN_SIZE and its payload, after the padding, is not empty; the
   * payload then lies inside the datagram, and its header is the one
   * ntoh_rtp parsed with the pad flag cleared.
   */
  lemma ReceiveSound(prev: RtpHeader, content: seq<byte>, size: int)
    requires |prev.csrc| == CSRC_SLOTS && |content| == PKTSIZE && size <= PKTSIZE
    ensures var r := Receive(prev, content, size);
      && (r.Some? <==>
          size > RTP_MIN_SIZE &&
          var p := ParseHeader(prev, content, 0);
          size - p.next - (if p.header.pad then content[size - 1] else 0) > 0)
      && (r.Some? ==>
          var p := ParseHeader(prev, content, 0);
          && r.value.header == p.header.(pad := false)
          && r.value.dataStart == p.next
          && 0 < r.value.len && r.value.dataStart + r.value.len <= size)
  {
  }

  /** Where the signed length is positive, the code as written agrees. */
  lemma ReceiveAgrees(prev: RtpHeader, content: seq<byte>, size: int)
    requires |prev.csrc| == CSRC_SLOTS && |content| == PKTSIZE && size <= PKTSIZE
    requires Receive(prev, content, size).Some?
    ensures ReceiveAsWritten(prev, content, size) == Receive(prev, content, size)
  {
  }

  /** A 13-byte datagram whose first byte announces one CSRC (0x81: version 2, cc 1). */
  const SHORT_DATAGRAM: seq<byte> := seq(PKTSIZE, i => if i == 0 then 0x81 else 0)

  /**
   * The header of that datagram needs 16 bytes, 3 more than arrived: the
   * unsigned length wraps to 2^64 - 3 and the datagram is accepted, while
   * the signed check skips it.
   */
  lemma ShortDatagramAccepted(prev: RtpHeader)
    requires |prev.csrc| == CSRC_SLOTS
    ensures ReceiveAsWritten(prev, SHORT_DATAGRAM, 13) == Some(Packet(
      ParseHeader(prev, SHORT_DATAGRAM, 0).header, 16, TWO64 - 3))
    ensures Receive(prev, SHORT_DATAGRAM, 13).None?
  {
    var d := SHORT_DATAGRAM;
    var b1: seq<byte>, b2: seq<byte>, b3: seq<byte>, b4: seq<byte> := [0x81], [0x81, 0], [0x81, 0, 0], [0x81, 0, 0, 0];
    assert d[0..4] == b4;
    assert b1[..0] == [] && b2[..1] == b1 && b3[..2] == b2 && b4[..3] == b3;
    assert Value(b1) == 0x81;
    assert Value(b2) == 0x8100;
    assert Value(b3) == 0x81_0000;
    assert Value(b4) == 0x8100_0000;
  }
}
