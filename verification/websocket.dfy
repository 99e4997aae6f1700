/**
 * websocket_cb (ka9q-web.c): a message from the browser is read into a
 * buffer of MAX_BINS bytes, cut into tokens at ':' by strtok, and its
 * one-letter key selects what happens to the client's session:
 *
 *   S          reply "S:<ssrc>" and start the spectrum thread
 *   A:START    audio on; A:STOP audio off
 *   F:<kHz>    tune, re-centre the display, send the frequency to radiod
 *   M:<mode>   send the preset to radiod, then poll the channel
 *   Z:+ / Z:-  zoom in / out one level and re-centre
 *   Z:c[:kHz]  centre the display on the frequency, or on the kHz given
 *   Z:<level>  zoom to that level and re-centre
 *
 * Numbers in a message are parsed by strtod/strtol; their results are
 * parameters here. The websocket itself, the reply and the spectrum thread
 * are outputs; the random command tags are parameters.
 */
module Websocket {
  import opened Bytes
  import opened Sessions
  import opened Commands

  /** `char tmp[MAX_BINS]`: the buffer a message is read into. */
  const TMP_SIZE: nat := MAX_BINS

  /** The delimiter websocket_cb passes to strtok. */
  const COLON: byte := 0x3A

  // ---------------------------------------------------------------------
  // How much is read

  /**
   * The read length as websocket_cb clamps it: only a length above the
   * buffer size is cut, to TMP_SIZE - 1.
   */
  function ReadLimitAsWritten(dataReadyLen: nat): (n: nat)
    ensures n <= dataReadyLen
    ensures dataReadyLen <= TMP_SIZE ==> n == dataReadyLen
  {
    if dataReadyLen > TMP_SIZE then TMP_SIZE - 1 else dataReadyLen
  }

  /**
   * A message of exactly TMP_SIZE bytes passes the clamp whole, so the
   * terminator `tmp[len] = 0` is stored at index TMP_SIZE, one past the end
   * of the buffer.
   */
  lemma TerminatorPastEnd()
    ensures ReadLimitAsWritten(TMP_SIZE) == TMP_SIZE
    ensures forall d: nat :: d != TMP_SIZE ==> ReadLimitAsWritten(d) < TMP_SIZE
  {
  }

  /** The clamp as intended: at most TMP_SIZE - 1 bytes, so the terminator fits. */
  function ReadLimit(dataReadyLen: nat): (n: nat)
    ensures n < TMP_SIZE && n <= dataReadyLen
    ensures dataReadyLen < TMP_SIZE ==> n == dataReadyLen
    ensures ReadLimitAsWritten(dataReadyLen) != n ==> dataReadyLen == TMP_SIZE
  {
    if dataReadyLen >= TMP_SIZE then TMP_SIZE - 1 else dataReadyLen
  }

  // ---------------------------------------------------------------------
  // strtok(…, ":")

  /** The first position from `i` that does not hold ':' (strspn). */
  function SkipColons(buf: seq<byte>, i: nat): (j: nat)
    requires i <= |buf|
    ensures i <= j <= |buf| && (j < |buf| ==> buf[j] != COLON)
    ensures forall k :: i <= k < j ==> buf[k] == COLON
    decreases |buf| - i
  {
    if i < |buf| && buf[i] == COLON then SkipColons(buf, i + 1) else i
  }

  /** The first position from `i` that holds ':' or NUL (strpbrk, or the string's end). */
  function TokenEnd(buf: seq<byte>, i: nat): (j: nat)
    requires i <= |buf|
    ensures i <= j <= |buf| && (j < |buf| ==> buf[j] == COLON || buf[j] == 0)
    ensures forall k :: i <= k < j ==> buf[k] != COLON && buf[k] != 0
    decreases |buf| - i
  {
    if i < |buf| && buf[i] != COLON && buf[i] != 0 then TokenEnd(buf, i + 1) else i
  }

  /** What one strtok call returns: NULL, or the position of a token. */
  datatype Token = Null | At(start: nat)

  /** One strtok call from `from`: the buffer after it, the token, and where the next call starts. */
  datatype Cut = Cut(buf: seq<byte>, token: Token, next: nat)

  /**
   * strtok with the delimiter ':': skip colons; at the end of the string,
   * NULL; otherwise the token runs to the next colon, which is overwritten
   * by NUL, or to the end of the string.
   */
  function Strtok(buf: seq<byte>, from: nat): (c: Cut)
    requires from <= |buf|
    ensures |c.buf| == |buf| && c.next <= |buf|
    ensures c.token.At? ==> c.token.start < |buf| && buf[c.token.start] != 0 && buf[c.token.start] != COLON
    ensures c.token.At? ==> c.buf[..c.token.start] == buf[..c.token.start]
    ensures c.token.Null? ==> c.buf == buf
  {
    var s := SkipColons(buf, from);
    if s == |buf| || buf[s] == 0 then Cut(buf, Null, s)
    else
      var e := TokenEnd(buf, s);
      if e < |buf| && buf[e] == COLON then Cut(buf[e := 0], At(s), e + 1)
      else Cut(buf, At(s), e)
  }

  /** The C string at `i` of the buffer. */
  function StringAt(buf: seq<byte>, i: nat): (r: seq<byte>)
    ensures i <= |buf| ==> |r| <= |buf| - i
  {
    if i <= |buf| then CString(buf[i..]) else []
  }

  /** The C string of a token; NULL has none. */
  function TokenText(c: Cut): (r: seq<byte>)
  {
    if c.token.At? then StringAt(c.buf, c.token.start) else []
  }

  // ---------------------------------------------------------------------
  // What a message asks for

  datatype Request =
    /** strtok returned NULL and websocket_cb dereferences it. */
    | Undefined
    /** The first token is not a single character, or not a key. */
    | Ignored
    | ReportSsrc
    /** `on` is None when the argument is neither START nor STOP. */
    | Audio(on: Option<bool>)
    | Tune(text: seq<byte>)
    | Mode(text: seq<byte>)
    | ZoomIn
    | ZoomOut
    | Centre(arg: Option<seq<byte>>)
    | ZoomToLevel(text: seq<byte>)

  const START_TEXT: seq<byte> := ['S' as byte, 'T' as byte, 'A' as byte, 'R' as byte, 'T' as byte]
  const STOP_TEXT: seq<byte> := ['S' as byte, 'T' as byte, 'O' as byte, 'P' as byte]

  /** One of the two spellings of a key. */
  predicate IsKey(k: byte, upper: char, lower: char)
    requires upper < 128 as char && lower < 128 as char
  {
    k as int == upper as int || k as int == lower as int
  }

  /**
   * The request websocket_cb reads from a message of `len > 0` bytes, after
   * `tmp[len] = 0`. The arguments of F, M and a zoom level are taken at
   * `&tmp[2]`, whatever the first token's position; A compares its second
   * token with START but `&tmp[2]` with STOP.
   */
  function Parse(msg: seq<byte>): (r: Request)
    requires |msg| > 0
    ensures (r.Tune? || r.Mode? || r.ZoomToLevel?) ==> |r.text| < |msg|
  {
    var c1 := Strtok(msg + [0], 0);
    if c1.token.Null? then Undefined
    else if |TokenText(c1)| != 1 then Ignored
    else ParseKey(c1)
  }

  /** The switch on the first token's only character. */
  function ParseKey(c1: Cut): (r: Request)
    requires c1.next <= |c1.buf| && |c1.buf| >= 2 && c1.token.At? && c1.token.start < |c1.buf|
    ensures (r.Tune? || r.Mode? || r.ZoomToLevel?) ==> |r.text| <= |c1.buf| - 2
  {
    var key := c1.buf[c1.token.start];
    if IsKey(key, 'S', 's') then ReportSsrc
    else if IsKey(key, 'A', 'a') then ParseAudio(c1)
    else if IsKey(key, 'F', 'f') then Tune(StringAt(c1.buf, 2))
    else if IsKey(key, 'M', 'm') then Mode(StringAt(c1.buf, 2))
    else if IsKey(key, 'Z', 'z') then ParseZoom(c1)
    else Ignored
  }

  /** The A key: the second token, then `&tmp[2]`. */
  function ParseAudio(c1: Cut): (r: Request)
    requires c1.next <= |c1.buf|
    ensures r.Undefined? || r.Audio?
  {
    var c2 := Strtok(c1.buf, c1.next);
    if c2.token.Null? then Undefined
    else if TokenText(c2) == START_TEXT then Audio(Some(true))
    else if StringAt(c2.buf, 2) == STOP_TEXT then Audio(Some(false))
    else Audio(None)
  }

  /** The Z key: the second token decides; `c` looks for a third. */
  function ParseZoom(c1: Cut): (r: Request)
    requires c1.next <= |c1.buf| && |c1.buf| >= 2
    ensures r.ZoomToLevel? ==> |r.text| <= |c1.buf| - 2
  {
    var c2 := Strtok(c1.buf, c1.next);
    if c2.token.Null? then Undefined
    else if TokenText(c2) == ['+' as byte] then ZoomIn
    else if TokenText(c2) == ['-' as byte] then ZoomOut
    else if TokenText(c2) == ['c' as byte] then
      var c3 := Strtok(c2.buf, c2.next);
      Centre(if c3.token.Null? then None else Some(TokenText(c3)))
    else ZoomToLevel(StringAt(c2.buf, 2))
  }

  // ---------------------------------------------------------------------
  // What a request does to the session

  /** The session's mutable fields, as one value. */
  datatype View = View(spectrumActive: bool, audioActive: bool, frequency: nat, center: nat,
                       binWidth: nat, bins: int, zoomIndex: int, once: bool, preset: seq<byte>)

  function ViewOf(sp: Session): (v: View)
    reads sp
    ensures v.frequency == sp.frequency && v.center == sp.centerFrequency && v.zoomIndex == sp.zoomIndex
  {
    View(sp.spectrumActive, sp.audioActive, sp.frequency, sp.centerFrequency,
         sp.binWidth, sp.bins, sp.zoomIndex, sp.once, sp.requestedPreset)
  }

  /** Session.Valid on a view. */
  predicate ValidView(v: View)
  {
    v.frequency < TWO32 && v.center < TWO32 && v.binWidth < TWO32 &&
    -TWO31 <= v.bins < TWO31 && 0 <= v.zoomIndex < |ZOOM_TABLE|
  }

  /**
   * What the handler takes from outside the message: the numbers strtod and
   * strtol read from it (`hz` for F, `centreHz` for `Z:c:…`, `level` for a
   * zoom level; None when nothing was parsed), the sample rate, and the two
   * random command tags.
   */
  datatype Numbers = Numbers(hz: nat, freqBits: nat, centreHz: Option<nat>, level: Option<int>,
                             samprate: int, tag1: nat, tag2: nat)

  /** The numbers fit the fields they are stored in. */
  predicate Fits(n: Numbers)
  {
    n.hz < TWO32 && n.freqBits < TWO64 && (n.centreHz.Some? ==> n.centreHz.value < TWO32)
  }

  /** The new view, what is sent to radiod, the reply to the browser, and whether the spectrum thread starts. */
  datatype Outcome = Outcome(view: View, sent: seq<seq<byte>>, reply: Option<int>, startSpectrum: bool)

  /** F: the frequency is set, and the centre checked twice (the inline copy, then check_frequency). */
  function TunedView(v: View, n: Numbers): (r: View)
    ensures ValidView(v) && n.hz < TWO32 ==> ValidView(r)
    ensures r.frequency == n.hz
  {
    var half := HalfSpan(v.binWidth, v.bins);
    var first := CheckedCenter(v.center, n.hz, half, n.samprate);
    v.(frequency := n.hz, center := CheckedCenter(first, n.hz, half, n.samprate))
  }

  /** F: control_set_frequency's command, unless the text is empty. */
  function TuneSent(ssrc: nat, text: seq<byte>, n: Numbers): seq<seq<byte>>
    requires n.freqBits < TWO64
  {
    if text == [] then [] else [Command(TuneFields(ssrc, n.tag1, n.freqBits))]
  }

  /** M: the preset is remembered unless the text is empty. */
  function ModeView(v: View, text: seq<byte>): View
  {
    if text == [] then v else v.(preset := Strlcpy(text, PRESET_SIZE))
  }

  /** M: control_set_mode's command unless the text is empty, then control_poll's. */
  function ModeSent(ssrc: nat, text: seq<byte>, n: Numbers): seq<seq<byte>>
    requires |text| < TWO32
  {
    (if text == [] then [] else [Command(ModeFields(ssrc, n.tag1, text))]) + [Command(PollFields(ssrc, n.tag2))]
  }

  /** zoom_to(level), then check_frequency. */
  function ZoomedView(v: View, level: int, samprate: int): (r: View)
    ensures ValidView(v) ==> ValidView(r)
    ensures r.frequency == v.frequency && r.zoomIndex == ZoomLevel(level, samprate)
    ensures r.binWidth == ZOOM_TABLE[r.zoomIndex].0 && r.bins == ZOOM_TABLE[r.zoomIndex].1
  {
    var z := ZoomLevel(level, samprate);
    var width := ZOOM_TABLE[z].0;
    var count := ZOOM_TABLE[z].1;
    v.(zoomIndex := z, binWidth := width, bins := count,
       center := CheckedCenter(v.center, v.frequency, HalfSpan(width, count), samprate))
  }

  /** `Z:c`: centre on the frequency, or on the kHz value that follows when one parses. */
  function CentredView(v: View, arg: Option<seq<byte>>, n: Numbers): (r: View)
    ensures ValidView(v) && Fits(n) ==> ValidView(r)
  {
    v.(center := if arg.Some? && n.centreHz.Some? then n.centreHz.value else v.frequency)
  }

  /**
   * What websocket_cb does with a parsed request to the session with SSRC
   * `ssrc` and fields `v`; the fields keep their C types.
   */
  function Respond(ssrc: nat, v: View, req: Request, n: Numbers): (o: Outcome)
    requires n.freqBits < TWO64 && (req.Mode? ==> |req.text| < TWO32)
    ensures ValidView(v) && Fits(n) ==> ValidView(o.view)
  {
    match req
    case ReportSsrc => Outcome(v, [], Some(I32(ssrc)), true)
    case Audio(on) => Outcome(if on.Some? then v.(audioActive := on.value) else v, [], None, false)
    case Tune(text) => Outcome(TunedView(v, n), TuneSent(ssrc, text, n), None, false)
    case Mode(text) => Outcome(ModeView(v, text), ModeSent(ssrc, text, n), None, false)
    case ZoomIn => Outcome(ZoomedView(v, v.zoomIndex + 1, n.samprate), [], None, false)
    case ZoomOut => Outcome(ZoomedView(v, v.zoomIndex - 1, n.samprate), [], None, false)
    case Centre(arg) => Outcome(CentredView(v, arg, n), [], None, false)
    case ZoomToLevel(_) =>
      Outcome(if n.level.Some? then ZoomedView(v, I32(n.level.value), n.samprate) else v, [], None, false)
    case Undefined => Outcome(v, [], None, false)
    case Ignored => Outcome(v, [], None, false)
  }

  /**
   * Only S replies (with the SSRC as `%d` prints it) and starts the
   * spectrum thread, only F with a frequency and M send commands, only A
   * touches the audio flag, only F the frequency and only M the preset.
   */
  lemma RespondScope(ssrc: nat, v: View, req: Request, n: Numbers)
    requires n.freqBits < TWO64 && (req.Mode? ==> |req.text| < TWO32)
    ensures var o := Respond(ssrc, v, req, n);
      && (o.reply.Some? <==> req.ReportSsrc?)
      && (o.reply.Some? ==> o.reply.value % TWO32 == ssrc % TWO32)
      && (o.startSpectrum <==> req.ReportSsrc?)
      && (o.sent != [] <==> (req.Tune? && req.text != []) || req.Mode?)
      && (!req.Audio? ==> o.view.audioActive == v.audioActive)
      && o.view.spectrumActive == v.spectrumActive && o.view.once == v.once
      && (o.view.frequency != v.frequency ==> req.Tune?)
      && (o.view.preset != v.preset ==> req.Mode?)
  {
  }

  /** websocket_closed: tune to "0", audio off, and the spectrum stream stopped if it was on. */
  function ClosedView(v: View): View
  {
    v.(frequency := 0, audioActive := false, spectrumActive := false)
  }

  /** The commands websocket_closed sends: the tune to 0 Hz, then three stops when the spectrum was on. */
  function ClosedSent(ssrc: nat, v: View, tag1: nat, tag2: nat): (r: seq<seq<byte>>)
    ensures |r| == if v.spectrumActive then 1 + STOP_REPEATS else 1
  {
    [Command(TuneFields(ssrc, tag1, 0))] +
    (if v.spectrumActive then seq(STOP_REPEATS, _ => Command(StopFields(ssrc, tag2))) else [])
  }

  // ---------------------------------------------------------------------
  // The handler

  /** The F key: set the frequency, check the centre twice, send the frequency. */
  method TuneKey(sp: Session, text: seq<byte>, n: Numbers) returns (sent: seq<seq<byte>>)
    requires sp.Valid() && Fits(n)
    modifies sp
    ensures sp.Valid() && ViewOf(sp) == TunedView(old(ViewOf(sp)), n)
    ensures sent == TuneSent(sp.ssrc, text, n)
  {
    sp.frequency := n.hz;
    // the copy of check_frequency written out in the F branch
    var half := HalfSpan(sp.binWidth, sp.bins);
    sp.centerFrequency := Recentre(sp.centerFrequency, sp.frequency, half, n.samprate);
    sp.CheckFrequency(n.samprate);
    var cmd := ControlSetFrequency(sp, text, n.hz, n.freqBits, n.tag1);
    sent := if cmd.Some? then [cmd.value] else [];
  }

  /** The M key: set the mode, then poll the channel. */
  method ModeKey(sp: Session, text: seq<byte>, n: Numbers) returns (sent: seq<seq<byte>>)
    requires sp.Valid() && |text| < PKTSIZE - 30
    modifies sp
    ensures sp.Valid() && ViewOf(sp) == ModeView(old(ViewOf(sp)), text)
    ensures sent == ModeSent(sp.ssrc, text, n)
  {
    var cmd := ControlSetMode(sp, text, n.tag1);
    var poll := ControlPoll(sp, n.tag2);
    sent := (if cmd.Some? then [cmd.value] else []) + [poll];
  }

  /** `Z:+` and `Z:-`: zoom one level, then check_frequency. */
  method ZoomKey(sp: Session, shift: int, samprate: int)
    requires sp.Valid() && (shift == 1 || shift == -1)
    modifies sp
    ensures sp.Valid() && ViewOf(sp) == ZoomedView(old(ViewOf(sp)), old(sp.zoomIndex) + shift, samprate)
  {
    sp.Zoom(shift, samprate);
    sp.CheckFrequency(samprate);
  }

  /** `Z:<level>` with a level that parses: zoom_to it, then check_frequency. */
  method ZoomToKey(sp: Session, level: int, samprate: int)
    requires sp.Valid()
    modifies sp
    ensures sp.Valid() && ViewOf(sp) == ZoomedView(old(ViewOf(sp)), level, samprate)
  {
    sp.ZoomTo(level, samprate);
    sp.CheckFrequency(samprate);
  }

  /** The keys that send commands to radiod: F and M. */
  method SendingKey(sp: Session, req: Request, n: Numbers) returns (reply: Option<int>, startSpectrum: bool, sent: seq<seq<byte>>)
    requires sp.Valid() && Fits(n) && (req.Tune? || (req.Mode? && |req.text| < PKTSIZE - 30))
    modifies sp
    ensures sp.Valid()
    ensures Outcome(ViewOf(sp), sent, reply, startSpectrum) == Respond(sp.ssrc, old(ViewOf(sp)), req, n)
  {
    reply, startSpectrum := None, false;
    if req.Tune? {
      sent := TuneKey(sp, req.text, n);
    } else {
      sent := ModeKey(sp, req.text, n);
    }
  }

  /** The keys that change the zoom level: `Z:+`, `Z:-` and `Z:<level>`. */
  method ZoomingKey(sp: Session, req: Request, n: Numbers) returns (reply: Option<int>, startSpectrum: bool, sent: seq<seq<byte>>)
    requires sp.Valid() && Fits(n) && (req.ZoomIn? || req.ZoomOut? || req.ZoomToLevel?)
    modifies sp
    ensures sp.Valid()
    ensures Outcome(ViewOf(sp), sent, reply, startSpectrum) == Respond(sp.ssrc, old(ViewOf(sp)), req, n)
  {
    reply, startSpectrum, sent := None, false, [];
    if req.ZoomIn? {
      ZoomKey(sp, 1, n.samprate);
    } else if req.ZoomOut? {
      ZoomKey(sp, -1, n.samprate);
    } else if n.level.Some? {
      ZoomToKey(sp, I32(n.level.value), n.samprate);
    }
  }

  /** The keys handled without radiod: S, A, `Z:c`, and messages that are ignored. */
  method LocalKey(sp: Session, req: Request, n: Numbers) returns (reply: Option<int>, startSpectrum: bool, sent: seq<seq<byte>>)
    requires sp.Valid() && Fits(n) && !(req.Tune? || req.Mode? || req.ZoomIn? || req.ZoomOut? || req.ZoomToLevel?)
    modifies sp
    ensures sp.Valid()
    ensures Outcome(ViewOf(sp), sent, reply, startSpectrum) == Respond(sp.ssrc, old(ViewOf(sp)), req, n)
  {
    reply, startSpectrum, sent := None, false, [];
    if req.ReportSsrc? {
      reply, startSpectrum := Some(I32(sp.ssrc)), true;
    } else if req.Audio? {
      if req.on.Some? {
        sp.audioActive := req.on.value;
      }
    } else if req.Centre? {
      sp.centerFrequency := sp.frequency;
      if req.arg.Some? && n.centreHz.Some? {
        sp.centerFrequency := n.centreHz.value;
      }
    }
  }

  /** The switch in websocket_cb. */
  method Dispatch(sp: Session, req: Request, n: Numbers) returns (reply: Option<int>, startSpectrum: bool, sent: seq<seq<byte>>)
    requires sp.Valid() && Fits(n) && (req.Mode? ==> |req.text| < PKTSIZE - 30)
    modifies sp
    ensures sp.Valid()
    ensures Outcome(ViewOf(sp), sent, reply, startSpectrum) == Respond(sp.ssrc, old(ViewOf(sp)), req, n)
  {
    if req.Tune? || req.Mode? {
      reply, startSpectrum, sent := SendingKey(sp, req, n);
    } else if req.ZoomIn? || req.ZoomOut? || req.ZoomToLevel? {
      reply, startSpectrum, sent := ZoomingKey(sp, req, n);
    } else {
      reply, startSpectrum, sent := LocalKey(sp, req, n);
    }
  }

  /** websocket_closed: tune the channel to "0", stop audio, and stop the spectrum stream if it runs. */
  method WebsocketClosed(sp: Session, tag1: nat, tag2: nat) returns (sent: seq<seq<byte>>)
    requires sp.Valid()
    modifies sp
    ensures sp.Valid() && ViewOf(sp) == ClosedView(old(ViewOf(sp)))
    ensures sent == ClosedSent(sp.ssrc, old(ViewOf(sp)), tag1, tag2)
  {
    var tune := ControlSetFrequency(sp, ['0' as byte], 0, 0, tag1);
    sent := [tune.value];
    sp.audioActive := false;
    if sp.spectrumActive {
      sp.spectrumActive := false;
      var stops := StopSpectrumStream(sp, tag2);
      assert stops == seq(STOP_REPEATS, _ => Command(StopFields(sp.ssrc, tag2)));
      sent := sent + stops;
    }
  }

  /** websocket_closed, then delete_session, which releases the lock. */
  method CloseSession(reg: Registry, sp: Session, tag1: nat, tag2: nat) returns (sent: seq<seq<byte>>)
    requires reg.Valid() && reg.locked && sp in reg.sessions && forall s :: s in reg.sessions ==> s.Valid()
    modifies reg, sp
    ensures reg.Valid() && !reg.locked && sp !in reg.sessions
    ensures var i := IndexOf(old(reg.sessions), sp);
      reg.sessions == old(reg.sessions)[..i] + old(reg.sessions)[i + 1..]
    ensures forall s :: s in old(reg.sessions) && s != sp ==> s in reg.sessions
    ensures forall s :: s in reg.sessions ==> s in old(reg.sessions) && s.Valid()
    ensures ViewOf(sp) == ClosedView(old(ViewOf(sp))) && sent == ClosedSent(sp.ssrc, old(ViewOf(sp)), tag1, tag2)
  {
    sent := WebsocketClosed(sp, tag1, tag2);
    reg.DeleteSession(sp);
  }

  /** What websocket_cb returns to the server. */
  datatype Status =
    | NeedMoreData
    | CloseConnection
    /** strtok returned NULL and the handler dereferences it; the lock stays held. */
    | NullDereference

  /**
   * websocket_cb for the websocket `ws`, told that `dataReadyLen` bytes are
   * ready; `received` is what onion_websocket_read then returns (empty for
   * a failed read). A negative length or a failed read closes the session;
   * otherwise the message is parsed and answered, and the lock released.
   * The bound on `received` is the corrected clamp `ReadLimit`, not the
   * source's `ReadLimitAsWritten`: at 1620 ready bytes the source reads a
   * full buffer and then writes its terminator past the end
   * (`TerminatorPastEnd`), which the model does not follow.
   */
  method WebsocketCb(reg: Registry, ws: nat, dataReadyLen: int, received: seq<byte>, n: Numbers)
    returns (status: Status, reply: Option<int>, startSpectrum: bool, sent: seq<seq<byte>>)
    requires reg.Valid() && !reg.locked && forall s :: s in reg.sessions ==> s.Valid()
    requires -TWO63 <= dataReadyLen < TWO63 && |received| <= ReadLimit(U64(dataReadyLen)) && Fits(n)
    modifies reg, reg.sessions
    ensures reg.Valid() && (reg.locked <==> status == NullDereference)
    ensures forall s :: s in reg.sessions ==> s.Valid()
    ensures var found := FindWs(old(reg.sessions), ws);
      forall s :: s in old(reg.sessions) && (found.None? || s != old(reg.sessions)[found.value]) ==>
        ViewOf(s) == old(ViewOf(s))
    ensures var found := FindWs(old(reg.sessions), ws);
      found.None? ==> status == NeedMoreData && reg.sessions == old(reg.sessions) && sent == [] && reply == None && !startSpectrum
    ensures var found := FindWs(old(reg.sessions), ws);
      found.Some? && (I32(dataReadyLen) < 0 || received == []) ==>
        var sp := old(reg.sessions)[found.value];
        var i := IndexOf(old(reg.sessions), sp);
        status == CloseConnection && sp !in reg.sessions && reply == None && !startSpectrum
        && reg.sessions == old(reg.sessions)[..i] + old(reg.sessions)[i + 1..]
        && (forall s :: s in old(reg.sessions) && s != sp ==> s in reg.sessions)
        && ViewOf(sp) == ClosedView(old(ViewOf(sp))) && sent == ClosedSent(sp.ssrc, old(ViewOf(sp)), n.tag1, n.tag2)
    ensures var found := FindWs(old(reg.sessions), ws);
      found.Some? && I32(dataReadyLen) >= 0 && received != [] ==>
        var sp := old(reg.sessions)[found.value];
        var req := Parse(received);
        reg.sessions == old(reg.sessions)
        && (req.Undefined? ==> status == NullDereference && sent == [] && reply == None && !startSpectrum)
        && (!req.Undefined? ==>
              (status == NeedMoreData &&
               Outcome(ViewOf(sp), sent, reply, startSpectrum) == Respond(sp.ssrc, old(ViewOf(sp)), req, n)))
  {
    var sp := reg.FindSessionFromWebsocket(ws);
    if sp == null {
      return NeedMoreData, None, false, [];
    }
    reply, startSpectrum := None, false;
    if I32(dataReadyLen) < 0 || |received| == 0 {
      sent := CloseSession(reg, sp, n.tag1, n.tag2);
      return CloseConnection, reply, startSpectrum, sent;
    }
    var req := Parse(received);
    if req.Undefined? {
      return NullDereference, reply, startSpectrum, [];
    }
    reply, startSpectrum, sent := Dispatch(sp, req, n);
    reg.Unlock();
    status := NeedMoreData;
  }

  // ---------------------------------------------------------------------
  // Properties

  /** A C string that ends at index `j` is the bytes before `j`. */
  lemma CStringIs(s: seq<byte>, j: nat)
    requires j < |s| && s[j] == 0 && forall k :: 0 <= k < j ==> s[k] != 0
    ensures CString(s) == s[..j]
  {
  }

  /**
   * strtok from `i` when `buf[i..j]` holds no delimiter and `buf[j]` ends
   * it: the token is those bytes; a ':' at `j` becomes NUL and the next
   * call starts after it.
   */
  lemma TokenIs(buf: seq<byte>, i: nat, j: nat)
    requires i < j < |buf| && (buf[j] == 0 || buf[j] == COLON)
    requires forall k :: i <= k < j ==> buf[k] != 0 && buf[k] != COLON
    ensures var c := Strtok(buf, i);
      c.token == At(i) && TokenText(c) == buf[i..j]
      && c == (if buf[j] == COLON then Cut(buf[j := 0], At(i), j + 1) else Cut(buf, At(i), j))
  {
    assert SkipColons(buf, i) == i;
    assert TokenEnd(buf, i) == j;
    var c := Strtok(buf, i);
    CStringIs(c.buf[i..], j - i);
  }

  /** A message made of a key and a ':' cuts to a one-character first token; the rest starts at index 2. */
  lemma KeyCut(k: byte, rest: seq<byte>)
    requires k != 0 && k != COLON
    ensures var c1 := Strtok([k, COLON] + rest + [0], 0);
      c1.token == At(0) && c1.next == 2 && TokenText(c1) == [k] && c1.buf[0] == k
      && c1.buf[2..] == rest + [0] && StringAt(c1.buf, 2) == CString(rest)
  {
    var buf := [k, COLON] + rest + [0];
    var tail := rest + [0];
    assert buf == [k, COLON] + tail;
    assert buf[2..] == tail;
    KeyCutBuffer(buf);
    CStringTerminated(rest);
  }

  /** KeyCut on any buffer that starts with a key and ':'. */
  lemma KeyCutBuffer(buf: seq<byte>)
    requires |buf| >= 2 && buf[0] != 0 && buf[0] != COLON && buf[1] == COLON
    ensures var c1 := Strtok(buf, 0);
      c1.token == At(0) && c1.next == 2 && TokenText(c1) == [buf[0]] && c1.buf == buf[1 := 0]
      && c1.buf[0] == buf[0] && c1.buf[2..] == buf[2..]
  {
    TokenIs(buf, 0, 1);
  }

  /** A first token of one character goes to the key switch. */
  lemma SingleKeyParsed(msg: seq<byte>)
    requires |msg| > 0
    requires var c1 := Strtok(msg + [0], 0); c1.token.At? && |TokenText(c1)| == 1
    ensures Parse(msg) == ParseKey(Strtok(msg + [0], 0))
  {
  }

  /** `F:<text>` and `f:<text>` tune to the C string after the colon. */
  lemma ParseTune(k: byte, rest: seq<byte>)
    requires k == 'F' as byte || k == 'f' as byte
    ensures Parse([k, COLON] + rest) == Tune(CString(rest))
  {
    KeyCut(k, rest);
    SingleKeyParsed([k, COLON] + rest);
  }

  /** `M:<text>` and `m:<text>` set the mode named by the C string after the colon. */
  lemma ParseMode(k: byte, rest: seq<byte>)
    requires k == 'M' as byte || k == 'm' as byte
    ensures Parse([k, COLON] + rest) == Mode(CString(rest))
  {
    KeyCut(k, rest);
    SingleKeyParsed([k, COLON] + rest);
  }

  /** `S`, and `S:` followed by anything, ask for the SSRC. */
  lemma ParseReportSsrc(k: byte, rest: seq<byte>)
    requires k == 'S' as byte || k == 's' as byte
    ensures Parse([k, COLON] + rest) == ReportSsrc
  {
    KeyCut(k, rest);
    SingleKeyParsed([k, COLON] + rest);
  }

  /** A lone `S` asks for the SSRC. */
  lemma ParseReportSsrcAlone(k: byte)
    requires k == 'S' as byte || k == 's' as byte
    ensures Parse([k]) == ReportSsrc
  {
    TokenIs([k] + [0], 0, 1);
  }

  /** A message of colons, or one that starts with NUL, has no first token. */
  lemma ParseNoToken(msg: seq<byte>)
    requires |msg| > 0 && (msg[0] == 0 || forall i :: 0 <= i < |msg| ==> msg[i] == COLON)
    ensures Parse(msg) == Undefined
  {
    var buf := msg + [0];
    var s := SkipColons(buf, 0);
    if msg[0] == 0 {
      assert s == 0;
    } else {
      assert buf[|msg|] == 0;
      assert s == |msg|;
    }
  }

  /**
   * A first token longer than one character is ignored, whatever follows:
   * `FF:7000` does not tune.
   */
  lemma ParseLongKey(a: byte, b: byte, rest: seq<byte>)
    requires a != 0 && a != COLON && b != 0 && b != COLON
    ensures Parse([a, b] + rest) == Ignored
  {
    var buf := [a, b] + rest + [0];
    assert SkipColons(buf, 0) == 0;
    var c1 := Strtok(buf, 0);
    var e := TokenEnd(buf, 0);
    assert e >= 2 by {
      assert TokenEnd(buf, 0) == TokenEnd(buf, 1);
    }
    assert c1.buf[0] == a && c1.buf[1] == b;
    var t := TokenText(c1);
    assert c1.buf[0..] == [a] + c1.buf[1..];
    assert c1.buf[1..] == [b] + c1.buf[2..];
    assert t == [a] + CString(c1.buf[1..]);
    assert |t| >= 2;
  }

  /** A word after `&tmp[2]`, ended by the terminator, is both the second token and the C string there. */
  lemma WordAfterKey(k: byte, w: seq<byte>)
    requires k != 0 && k != COLON && w != []
    requires forall i :: 0 <= i < |w| ==> w[i] != 0 && w[i] != COLON
    ensures var c1 := Strtok([k, COLON] + w + [0], 0);
      var c2 := Strtok(c1.buf, c1.next);
      c1.token == At(0) && TokenText(c1) == [k] && c1.buf[0] == k && c1.next == 2
      && c2.token.At? && TokenText(c2) == w && StringAt(c1.buf, 2) == w && c2.buf == c1.buf
  {
    KeyCut(k, w);
    var c1 := Strtok([k, COLON] + w + [0], 0);
    WordAt(c1.buf, 2, w);
  }

  /** A word that ends the buffer at `i` is the token strtok finds there and the C string there. */
  lemma WordAt(buf: seq<byte>, i: nat, w: seq<byte>)
    requires i + |w| < |buf| && buf[i..] == w + [0] && w != []
    requires forall k :: 0 <= k < |w| ==> w[k] != 0 && w[k] != COLON
    ensures Strtok(buf, i) == Cut(buf, At(i), i + |w|)
    ensures TokenText(Strtok(buf, i)) == w && StringAt(buf, i) == w
  {
    forall k | i <= k < i + |w|
      ensures buf[k] != 0 && buf[k] != COLON
    {
      assert buf[k] == buf[i..][k - i] == w[k - i];
    }
    assert buf[i + |w|] == buf[i..][|w|] == 0;
    TokenIs(buf, i, i + |w|);
    CStringIs(buf[i..], |w|);
    assert buf[i..][..|w|] == buf[i..i + |w|] == w;
  }

  /**
   * `A:<word>`: START turns audio on, STOP turns it off, any other word
   * leaves it as it was.
   */
  lemma ParseAudioWord(k: byte, w: seq<byte>)
    requires (k == 'A' as byte || k == 'a' as byte) && w != []
    requires forall i :: 0 <= i < |w| ==> w[i] != 0 && w[i] != COLON
    ensures Parse([k, COLON] + w) ==
      Audio(if w == START_TEXT then Some(true) else if w == STOP_TEXT then Some(false) else None)
  {
    WordAfterKey(k, w);
  }

  /**
   * `A::STOP` has the second token STOP, but `&tmp[2]` is ":STOP", so the
   * audio is left as it was; `A::START` still turns it on.
   */
  lemma ParseAudioDoubleColon(k: byte, w: seq<byte>)
    requires (k == 'A' as byte || k == 'a' as byte) && w != []
    requires forall i :: 0 <= i < |w| ==> w[i] != 0 && w[i] != COLON
    ensures Parse([k, COLON, COLON] + w) == Audio(if w == START_TEXT then Some(true) else None)
  {
    var rest := [COLON] + w;
    assert [k, COLON, COLON] + w == [k, COLON] + rest;
    KeyCut(k, rest);
    var c1 := Strtok([k, COLON] + rest + [0], 0);
    ColonThenWord(c1.buf, w);
  }

  /** After an extra ':' at index 2, strtok finds the word at 3, while the C string at 2 starts with ':'. */
  lemma ColonThenWord(buf: seq<byte>, w: seq<byte>)
    requires |buf| >= 3 && buf[2..] == [COLON] + w + [0] && w != []
    requires forall i :: 0 <= i < |w| ==> w[i] != 0 && w[i] != COLON
    ensures Strtok(buf, 2).token.At? && Strtok(buf, 2).buf == buf && TokenText(Strtok(buf, 2)) == w
    ensures StringAt(buf, 2) != [] && StringAt(buf, 2)[0] == COLON
  {
    assert buf[2] == COLON;
    assert buf[3..] == buf[2..][1..] == w + [0];
    assert SkipColons(buf, 2) == SkipColons(buf, 3) == 3;
    WordAt(buf, 3, w);
    assert Strtok(buf, 2) == Strtok(buf, 3);
  }

  /** A lone `A` has no second token. */
  lemma ParseAudioAlone(k: byte)
    requires k == 'A' as byte || k == 'a' as byte
    ensures Parse([k]) == Undefined
  {
    var buf := [k] + [0];
    TokenIs(buf, 0, 1);
    assert SkipColons(buf, 1) == 1;
  }

  /**
   * `Z:<byte>`: `+` zooms in, `-` zooms out, `c` with nothing after it
   * centres on the tuned frequency, and anything else is a zoom level read
   * from `&tmp[2]`.
   */
  lemma ParseZoomByte(k: byte, a: byte)
    requires (k == 'Z' as byte || k == 'z' as byte) && a != 0 && a != COLON
    ensures Parse([k, COLON, a]) ==
      if a == '+' as byte then ZoomIn
      else if a == '-' as byte then ZoomOut
      else if a == 'c' as byte then Centre(None)
      else ZoomToLevel([a])
  {
    WordAfterKey(k, [a]);
    assert [k, COLON, a] + [0] == [k, COLON] + [a] + [0];
    var c1 := Strtok([k, COLON] + [a] + [0], 0);
    ZoomKeyParsed([k, COLON, a], c1);
    var c2 := Strtok(c1.buf, 2);
    assert TokenText(c2) == [a];
    if a == 'c' as byte {
      assert c2.next == 3 by {
        TokenIs(c1.buf, 2, 3);
      }
      assert c1.buf[3] == 0;
      assert SkipColons(c1.buf, 3) == 3;
    }
  }

  /** A message whose first token is the Z key parses as the zoom branch. */
  lemma ZoomKeyParsed(msg: seq<byte>, c1: Cut)
    requires |msg| > 0 && c1 == Strtok(msg + [0], 0)
    requires c1.token == At(0) && TokenText(c1) == [msg[0]] && c1.buf[0] == msg[0]
    requires c1.next <= |c1.buf| && |c1.buf| >= 2
    requires msg[0] == 'Z' as byte || msg[0] == 'z' as byte
    ensures Parse(msg) == ParseZoom(c1)
  {
    SingleKeyParsed(msg);
    assert IsKey(c1.buf[0], 'Z', 'z') && !IsKey(c1.buf[0], 'S', 's') && !IsKey(c1.buf[0], 'A', 'a');
  }

  /**
   * F's double check costs nothing: when the arithmetic is exact and the
   * span fits in half the sample rate, the centre is the one a single
   * check_frequency gives, and a frequency that can be shown is inside the
   * displayed span.
   */
  lemma TuneChecksOnce(v: View, n: Numbers)
    requires var half := HalfSpan(v.binWidth, v.bins);
      Exact(v.center, n.hz, half, n.samprate) && 2 * half <= HalfOf(n.samprate)
    ensures var half := HalfSpan(v.binWidth, v.bins);
      var c := TunedView(v, n).center;
      c == CheckedCenter(v.center, n.hz, half, n.samprate)
      && (half <= n.hz <= HalfOf(n.samprate) - half ==> c - half <= n.hz <= c + half)
  {
    var half := HalfSpan(v.binWidth, v.bins);
    CheckIdempotent(v.center, n.hz, half, n.samprate);
    if half <= n.hz <= HalfOf(n.samprate) - half {
      FrequencyShown(v.center, n.hz, half, n.samprate);
    }
  }

  /**
   * From a level zoom_to can choose at this sample rate, `Z:+` never widens
   * the bins and `Z:-` never narrows them.
   */
  lemma ZoomDirections(v: View, samprate: int)
    requires 0 <= v.zoomIndex < |ZOOM_TABLE| && v.binWidth == ZOOM_TABLE[v.zoomIndex].0
    requires ZoomLevel(v.zoomIndex, samprate) == v.zoomIndex
    ensures ZoomedView(v, v.zoomIndex + 1, samprate).binWidth <= v.binWidth
    ensures ZoomedView(v, v.zoomIndex - 1, samprate).binWidth >= v.binWidth
  {
    ZoomMonotone(v.zoomIndex, 1, samprate);
    ZoomMonotone(v.zoomIndex, -1, samprate);
  }
}
