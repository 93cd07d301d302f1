/**
 Message reassembly of the plain WebSocket client (sections 5.4 and 5.5 of RFC 6455): fragments
 joined in order, pings answered, everything else ignored or fatal.
 */
module WsReader {
  import opened Bytes
  import opened Options
  import opened WsCodec

  datatype PollStatus = Ready | TimedOut | HungUp

  /**
   What the k-th round of the read loop meets: how waiting for the socket ends (an expired
   deadline counts as a timeout), whether a pong can be sent, and the random mask it would use.
   */
  datatype Env = Env(poll: nat -> PollStatus, pongSent: nat -> bool, mask: nat -> Mask)

  datatype Status = Text | Timeout | Closed

  /** Result of recvText: the text, the bytes left in the stream and the pongs sent. */
  datatype Outcome = Outcome(status: Status, text: seq<byte>, rest: seq<byte>, pongs: seq<seq<byte>>)

  /** What one frame does to the loop: end it, or go on with other fragments held. */
  datatype Round = Done(status: Status, text: seq<byte>) | Again(held: seq<byte>, awaiting: bool)

  function OnFrame(env: Env, k: nat, held: seq<byte>, awaiting: bool, f: Frame): (r: Round)
    requires |f.payload| <= MAX_INCOMING
    ensures r.Done? && r.status.Text? ==> |r.text| <= MAX_INCOMING
  {
    if f.opcode == CLOSE then Done(Closed, [])
    else if f.opcode == PING then
      if env.pongSent(k) then Again(held, awaiting) else Done(Closed, [])
    else if f.opcode == TEXT then
      if awaiting then Done(Closed, [])
      else if f.fin then Done(Text, f.payload)
      else Again(f.payload, true)
    else if f.opcode == CONTINUATION then
      if !awaiting || |held| + |f.payload| > MAX_INCOMING then Done(Closed, [])
      else if f.fin then Done(Text, held + f.payload)
      else Again(held + f.payload, true)
    else Again(held, awaiting)
  }

  function AddPong(env: Env, k: nat, f: Frame, pongs: seq<seq<byte>>): seq<seq<byte>>
    requires |f.payload| <= MAX_INCOMING
  {
    if f.opcode == PING && env.pongSent(k) then pongs + [Pong(env, k, f.payload)] else pongs
  }

  /** The read loop from round k on, holding the fragments so far. */
  function ReadText(env: Env, s: seq<byte>, k: nat, held: seq<byte>, awaiting: bool, pongs: seq<seq<byte>>): (o: Outcome)
    ensures o.status.Text? ==> |o.text| <= MAX_INCOMING
    decreases |s|
  {
    if env.poll(k).TimedOut? then Outcome(Timeout, [], s, pongs)
    else if env.poll(k).HungUp? then Outcome(Closed, [], s, pongs)
    else
      match Decode(s)
      case None => Outcome(Closed, [], s, pongs)
      case Some((f, rest)) =>
        match OnFrame(env, k, held, awaiting, f)
        case Done(status, text) => Outcome(status, text, rest, AddPong(env, k, f, pongs))
        case Again(h, a) => ReadText(env, rest, k + 1, h, a, AddPong(env, k, f, pongs))
  }

  function Pong(env: Env, k: nat, payload: seq<byte>): seq<byte>
    requires |payload| <= MAX_INCOMING
  {
    WireBytes(ClientFrame(PONG, payload, env.mask(k)))
  }

  method RecvText(env: Env, stream: seq<byte>) returns (o: Outcome)
    ensures o == ReadText(env, stream, 0, [], false, [])
  {
    var s, k := stream, 0;
    var fragmentedText, awaitingContinuation, pongs := [], false, [];
    while true
      invariant ReadText(env, stream, 0, [], false, []) == ReadText(env, s, k, fragmentedText, awaitingContinuation, pongs)
      decreases |s|
    {
      var pollStatus := env.poll(k);
      if pollStatus.TimedOut? { return Outcome(Timeout, [], s, pongs); }
      if pollStatus.HungUp? { return Outcome(Closed, [], s, pongs); }
      var received := ReceiveWsFrame(s);
      if received.None? { return Outcome(Closed, [], s, pongs); }
      var (frame, rest) := received.value;
      s := rest;
      if frame.opcode == CLOSE { return Outcome(Closed, [], s, pongs); }
      if frame.opcode == PING {
        var pong := SendClientFrame(PONG, frame.payload, env.mask(k));
        if !env.pongSent(k) { return Outcome(Closed, [], s, pongs); }
        pongs := pongs + [pong];
      } else if frame.opcode == TEXT {
        if awaitingContinuation { return Outcome(Closed, [], s, pongs); }
        if frame.fin { return Outcome(Text, frame.payload, s, pongs); }
        fragmentedText, awaitingContinuation := frame.payload, true;
      } else if frame.opcode == CONTINUATION {
        if !awaitingContinuation { return Outcome(Closed, [], s, pongs); }
        if |fragmentedText| + |frame.payload| > MAX_INCOMING { return Outcome(Closed, [], s, pongs); }
        fragmentedText := fragmentedText + frame.payload;
        if frame.fin { return Outcome(Text, fragmentedText, s, pongs); }
      }
      k := k + 1;
    }
  }

  // ---------------------------------------------------------------------------
  // Messages
  // ---------------------------------------------------------------------------

  predicate Bounded(fs: seq<Frame>) {
    forall i :: 0 <= i < |fs| ==> |fs[i].payload| <= MAX_INCOMING
  }

  predicate IsData(f: Frame) {
    f.opcode == TEXT || f.opcode == CONTINUATION
  }

  /**
   The frames of one text message, the part after its first fragment when `started`: data frames
   in order, the last frame final, and anything but data and close frames in between.
   */
  predicate IsMessage(fs: seq<Frame>, started: bool) {
    && fs != []
    && fs[0].opcode != CLOSE
    && if IsData(fs[0]) then
         && fs[0].opcode == (if started then CONTINUATION else TEXT)
         && if fs[0].fin then |fs| == 1 else IsMessage(fs[1..], true)
       else IsMessage(fs[1..], started)
  }

  /** The fragments, in order. */
  function TextOf(fs: seq<Frame>): seq<byte> {
    if fs == [] then []
    else if IsData(fs[0]) then fs[0].payload + TextOf(fs[1..])
    else TextOf(fs[1..])
  }

  /** One pong per ping, in order, with the same payload. */
  function PongsFor(env: Env, fs: seq<Frame>, k: nat): seq<seq<byte>>
    requires Bounded(fs)
  {
    if fs == [] then []
    else if fs[0].opcode == PING then [Pong(env, k, fs[0].payload)] + PongsFor(env, fs[1..], k + 1)
    else PongsFor(env, fs[1..], k + 1)
  }

  /** From round k on the socket becomes readable in time for each frame, and pongs can be sent. */
  ghost predicate Undisturbed(env: Env, fs: seq<Frame>, k: nat) {
    fs == [] || (env.poll(k).Ready? && (fs[0].opcode == PING ==> env.pongSent(k)) && Undisturbed(env, fs[1..], k + 1))
  }

  ghost predicate AllAcceptable(ws: seq<Wire>) {
    forall i :: 0 <= i < |ws| ==> Acceptable(ws[i])
  }

  lemma FirstOfStream(ws: seq<Wire>, rest: seq<byte>)
    requires AllAcceptable(ws) && ws != []
    ensures Decode(WireStream(ws) + rest) == Some((FrameOf(ws[0]), WireStream(ws[1..]) + rest))
    ensures FramesOf(ws)[0] == FrameOf(ws[0]) && FramesOf(ws)[1..] == FramesOf(ws[1..])
  {
    assert Acceptable(ws[0]);
    ConcatAssoc(WireBytes(ws[0]), WireStream(ws[1..]), rest);
    DecodeOfWire(ws[0], WireStream(ws[1..]) + rest);
  }

  lemma {:induction false} FramesAreBounded(ws: seq<Wire>)
    requires AllAcceptable(ws)
    ensures Bounded(FramesOf(ws))
  {
    if ws != [] {
      assert Acceptable(ws[0]);
      FramesAreBounded(ws[1..]);
    }
  }

  /** The same loop on frames instead of bytes; `used` counts the frames it took before it ended. */
  datatype Reading = Reading(status: Status, text: seq<byte>, used: nat, pongs: seq<seq<byte>>) | Starved

  function ReadFrames(env: Env, fs: seq<Frame>, k: nat, held: seq<byte>, awaiting: bool, pongs: seq<seq<byte>>): (r: Reading)
    requires Bounded(fs)
    ensures r.Reading? ==> r.used <= |fs|
    decreases fs
  {
    if env.poll(k).TimedOut? then Reading(Timeout, [], 0, pongs)
    else if env.poll(k).HungUp? then Reading(Closed, [], 0, pongs)
    else if fs == [] then Starved
    else
      match OnFrame(env, k, held, awaiting, fs[0])
      case Done(status, text) => Reading(status, text, 1, AddPong(env, k, fs[0], pongs))
      case Again(h, a) => Counted(ReadFrames(env, fs[1..], k + 1, h, a, AddPong(env, k, fs[0], pongs)))
  }

  /** The reading with one more frame in front. */
  function Counted(r: Reading): Reading {
    if r.Starved? then r else r.(used := r.used + 1)
  }

  /** The stream after its first n frames. */
  function After(s: seq<byte>, n: nat): seq<byte> {
    if n == 0 || Decode(s).None? then s else After(Decode(s).value.1, n - 1)
  }

  /** `s` starts with the frames `fs`. */
  ghost predicate Carries(s: seq<byte>, fs: seq<Frame>) {
    fs == [] || (Decode(s).Some? && Decode(s).value.0 == fs[0] && Carries(Decode(s).value.1, fs[1..]))
  }

  /** One round of the loop. */
  lemma ReadRound(env: Env, s: seq<byte>, f: Frame, t: seq<byte>, k: nat, held: seq<byte>, awaiting: bool, pongs: seq<seq<byte>>)
    requires env.poll(k).Ready? && Decode(s) == Some((f, t))
    ensures ReadText(env, s, k, held, awaiting, pongs) ==
            match OnFrame(env, k, held, awaiting, f)
            case Done(status, text) => Outcome(status, text, t, AddPong(env, k, f, pongs))
            case Again(h, a) => ReadText(env, t, k + 1, h, a, AddPong(env, k, f, pongs))
  {
  }

  lemma FramesRound(env: Env, fs: seq<Frame>, k: nat, held: seq<byte>, awaiting: bool, pongs: seq<seq<byte>>)
    requires Bounded(fs) && fs != [] && env.poll(k).Ready?
    ensures ReadFrames(env, fs, k, held, awaiting, pongs) ==
            match OnFrame(env, k, held, awaiting, fs[0])
            case Done(status, text) => Reading(status, text, 1, AddPong(env, k, fs[0], pongs))
            case Again(h, a) => Counted(ReadFrames(env, fs[1..], k + 1, h, a, AddPong(env, k, fs[0], pongs)))
  {
  }

  /** Reading the bytes of `s` goes as reading the frames `fs`, as far as the frames reach. */
  ghost predicate ReadsAlike(
    env: Env, s: seq<byte>, fs: seq<Frame>, k: nat, held: seq<byte>, awaiting: bool, pongs: seq<seq<byte>>)
    requires Bounded(fs)
  {
    var r := ReadFrames(env, fs, k, held, awaiting, pongs);
    r.Reading? ==>
      ReadText(env, s, k, held, awaiting, pongs) == Outcome(r.status, r.text, After(s, r.used), r.pongs)
  }

  /** Reading bytes is reading the frames they carry. */
  lemma {:induction false} BytesReadAsFrames(
    env: Env, s: seq<byte>, fs: seq<Frame>, k: nat, held: seq<byte>, awaiting: bool, pongs: seq<seq<byte>>)
    requires Bounded(fs) && Carries(s, fs)
    ensures ReadsAlike(env, s, fs, k, held, awaiting, pongs)
    decreases fs
  {
    if fs != [] && env.poll(k).Ready? {
      var t := Decode(s).value.1;
      var round := OnFrame(env, k, held, awaiting, fs[0]);
      if round.Again? {
        BytesReadAsFrames(env, t, fs[1..], k + 1, round.held, round.awaiting, AddPong(env, k, fs[0], pongs));
        AgainReadsAlike(env, s, fs, t, k, held, awaiting, pongs);
      } else {
        DoneReadsAlike(env, s, fs, t, k, held, awaiting, pongs);
      }
    }
  }

  lemma DoneReadsAlike(
    env: Env, s: seq<byte>, fs: seq<Frame>, t: seq<byte>, k: nat, held: seq<byte>, awaiting: bool, pongs: seq<seq<byte>>)
    requires Bounded(fs) && fs != [] && env.poll(k).Ready? && Decode(s) == Some((fs[0], t))
    requires OnFrame(env, k, held, awaiting, fs[0]).Done?
    ensures ReadsAlike(env, s, fs, k, held, awaiting, pongs)
  {
    ReadRound(env, s, fs[0], t, k, held, awaiting, pongs);
    AfterFirst(s, t, 0);
  }

  lemma AgainReadsAlike(
    env: Env, s: seq<byte>, fs: seq<Frame>, t: seq<byte>, k: nat, held: seq<byte>, awaiting: bool, pongs: seq<seq<byte>>)
    requires Bounded(fs) && fs != [] && env.poll(k).Ready? && Decode(s) == Some((fs[0], t))
    requires var round := OnFrame(env, k, held, awaiting, fs[0]);
             && round.Again?
             && ReadsAlike(env, t, fs[1..], k + 1, round.held, round.awaiting, AddPong(env, k, fs[0], pongs))
    ensures ReadsAlike(env, s, fs, k, held, awaiting, pongs)
  {
    var round, ponged := OnFrame(env, k, held, awaiting, fs[0]), AddPong(env, k, fs[0], pongs);
    var later := ReadFrames(env, fs[1..], k + 1, round.held, round.awaiting, ponged);
    assert ReadFrames(env, fs, k, held, awaiting, pongs) == Counted(later) by {
      FramesRound(env, fs, k, held, awaiting, pongs);
    }
    assert ReadText(env, s, k, held, awaiting, pongs) == ReadText(env, t, k + 1, round.held, round.awaiting, ponged) by {
      ReadRound(env, s, fs[0], t, k, held, awaiting, pongs);
    }
    if later.Reading? { AfterFirst(s, t, later.used); }
  }

  lemma AfterFirst(s: seq<byte>, t: seq<byte>, n: nat)
    requires Decode(s).Some? && Decode(s).value.1 == t
    ensures After(s, n + 1) == After(t, n)
  {
  }

  lemma {:induction false} StreamCarries(ws: seq<Wire>, rest: seq<byte>)
    requires AllAcceptable(ws)
    ensures Carries(WireStream(ws) + rest, FramesOf(ws))
    ensures After(WireStream(ws) + rest, |ws|) == rest
  {
    if ws == [] {
      assert WireStream(ws) + rest == rest;
    } else {
      FirstOfStream(ws, rest);
      StreamCarries(ws[1..], rest);
    }
  }

  lemma {:induction false} ReadsMessage(
    env: Env, fs: seq<Frame>, k: nat, held: seq<byte>, awaiting: bool, pongs: seq<seq<byte>>)
    requires Bounded(fs) && IsMessage(fs, awaiting)
    requires |held| <= MAX_INCOMING && (!awaiting ==> held == [])
    ensures var r := ReadFrames(env, fs, k, held, awaiting, pongs);
            if Undisturbed(env, fs, k) && |held| + |TextOf(fs)| <= MAX_INCOMING
            then r == Reading(Text, held + TextOf(fs), |fs|, pongs + PongsFor(env, fs, k))
            else r.Reading? && !r.status.Text?
    decreases fs
  {
    var f := fs[0];
    var round := OnFrame(env, k, held, awaiting, f);
    if env.poll(k).Ready? && round.Again? {
      ReadsMessage(env, fs[1..], k + 1, round.held, round.awaiting, AddPong(env, k, f, pongs));
      if IsData(f) {
        ConcatAssoc(held, f.payload, TextOf(fs[1..]));
      } else if f.opcode == PING {
        ConcatAssoc(pongs, [Pong(env, k, f.payload)], PongsFor(env, fs[1..], k + 1));
      }
    } else if IsData(f) && f.fin {
      assert fs[1..] == [];
      assert Undisturbed(env, [], k + 1) && TextOf(fs) == f.payload + [] == f.payload;
      assert PongsFor(env, fs, k) == [];
    }
  }

  /**
   A fragmented text message with other frames interleaved anywhere is returned as the ordered
   concatenation of its fragments, every ping answered by one pong with its payload, the rest of
   the stream untouched: exactly when no round times out or fails and the text is at most 4 MiB.
   */
  lemma {:induction false} MessageIsDelivered(env: Env, ws: seq<Wire>, rest: seq<byte>)
    requires AllAcceptable(ws) && IsMessage(FramesOf(ws), false)
    ensures Bounded(FramesOf(ws))
    ensures var o, fs := ReadText(env, WireStream(ws) + rest, 0, [], false, []), FramesOf(ws);
            && (o.status.Text? <==> Undisturbed(env, fs, 0) && |TextOf(fs)| <= MAX_INCOMING)
            && (o.status.Text? ==> o == Outcome(Text, TextOf(fs), rest, PongsFor(env, fs, 0)))
  {
    FramesAreBounded(ws);
    var fs := FramesOf(ws);
    ReadsMessage(env, fs, 0, [], false, []);
    StreamCarries(ws, rest);
    BytesReadAsFrames(env, WireStream(ws) + rest, fs, 0, [], false, []);
    assert [] + TextOf(fs) == TextOf(fs);
    assert [] + PongsFor(env, fs, 0) == PongsFor(env, fs, 0);
  }

  /** Any round of the loop, on bytes: the frame in front, as it was on the wire. */
  lemma {:induction false} FrontWire(s: seq<byte>, tail: seq<Wire>, rest: seq<byte>) returns (w: Wire)
    requires Decode(s).Some? && AllAcceptable(tail) && Decode(s).value.1 == WireStream(tail) + rest
    ensures Acceptable(w) && FrameOf(w) == Decode(s).value.0
    ensures AllAcceptable([w] + tail) && s == WireStream([w] + tail) + rest
    ensures FramesOf([w] + tail) == [FrameOf(w)] + FramesOf(tail)
  {
    w := DecodeIsSound(s);
    assert ([w] + tail)[1..] == tail;
    ConcatAssoc(WireBytes(w), WireStream(tail), rest);
  }

  /** A frame that lets the loop go on continues a message that what follows completes. */
  lemma {:induction false} RoundContinues(env: Env, k: nat, held: seq<byte>, awaiting: bool, f: Frame, later: seq<Frame>)
    requires |f.payload| <= MAX_INCOMING && (!awaiting ==> held == [])
    requires var round := OnFrame(env, k, held, awaiting, f);
             round.Again? && IsMessage(later, round.awaiting) && env.poll(k).Ready? && Undisturbed(env, later, k + 1)
    ensures var round, fs := OnFrame(env, k, held, awaiting, f), [f] + later;
            && (!round.awaiting ==> round.held == [])
            && IsMessage(fs, awaiting) && Undisturbed(env, fs, k) && round.held + TextOf(later) == held + TextOf(fs)
  {
    var round, fs := OnFrame(env, k, held, awaiting, f), [f] + later;
    assert fs[1..] == later;
    if IsData(f) { ConcatAssoc(held, f.payload, TextOf(later)); }
  }

  lemma {:induction false} RoundCompletes(env: Env, k: nat, held: seq<byte>, awaiting: bool, f: Frame)
    requires |f.payload| <= MAX_INCOMING && (!awaiting ==> held == []) && env.poll(k).Ready?
    requires var round := OnFrame(env, k, held, awaiting, f); round.Done? && round.status.Text?
    ensures IsMessage([f], awaiting) && Undisturbed(env, [f], k)
    ensures OnFrame(env, k, held, awaiting, f).text == held + TextOf([f])
  {
    assert [f][1..] == [] && TextOf([f]) == f.payload + TextOf([]);
    assert Undisturbed(env, [], k + 1);
  }

  lemma {:induction false} TextComesFrom(
    env: Env, s: seq<byte>, k: nat, held: seq<byte>, awaiting: bool, pongs: seq<seq<byte>>) returns (ws: seq<Wire>)
    requires (!awaiting ==> held == []) && ReadText(env, s, k, held, awaiting, pongs).status.Text?
    ensures AllAcceptable(ws) && IsMessage(FramesOf(ws), awaiting) && Undisturbed(env, FramesOf(ws), k)
    ensures var o := ReadText(env, s, k, held, awaiting, pongs);
            o.text == held + TextOf(FramesOf(ws)) && s == WireStream(ws) + o.rest
    decreases |s|
  {
    var (f, rest) := Decode(s).value;
    var round, ponged := OnFrame(env, k, held, awaiting, f), AddPong(env, k, f, pongs);
    ReadRound(env, s, f, rest, k, held, awaiting, pongs);
    if round.Done? {
      assert rest == WireStream([]) + rest;
      var w := FrontWire(s, [], rest);
      ws := [w] + [];
      RoundCompletes(env, k, held, awaiting, f);
      assert FramesOf(ws) == [f];
    } else {
      var tail := TextComesFrom(env, rest, k + 1, round.held, round.awaiting, ponged);
      var w := FrontWire(s, tail, ReadText(env, rest, k + 1, round.held, round.awaiting, ponged).rest);
      ws := [w] + tail;
      RoundContinues(env, k, held, awaiting, f, FramesOf(tail));
    }
  }

  /**
   Conversely, whatever the stream holds: a text is returned only for a whole message at its front,
   with nothing out of order and no close frame before its end, and it is the text of that message.
   */
  lemma {:induction false} TextIsAMessage(env: Env, s: seq<byte>) returns (ws: seq<Wire>)
    requires ReadText(env, s, 0, [], false, []).status.Text?
    ensures AllAcceptable(ws) && IsMessage(FramesOf(ws), false) && Undisturbed(env, FramesOf(ws), 0)
    ensures var o := ReadText(env, s, 0, [], false, []);
            o.text == TextOf(FramesOf(ws)) && s == WireStream(ws) + o.rest
  {
    ws := TextComesFrom(env, s, 0, [], false, []);
    assert [] + TextOf(FramesOf(ws)) == TextOf(FramesOf(ws));
  }

  ghost predicate NoClose(fs: seq<Frame>) {
    forall i :: 0 <= i < |fs| ==> fs[i].opcode != CLOSE
  }

  /** A call reports a timeout only when waiting for the socket timed out, having met no close frame. */
  lemma {:induction false} TimeoutComesFrom(
    env: Env, s: seq<byte>, k: nat, held: seq<byte>, awaiting: bool, pongs: seq<seq<byte>>) returns (ws: seq<Wire>)
    requires ReadText(env, s, k, held, awaiting, pongs).status.Timeout?
    ensures AllAcceptable(ws) && NoClose(FramesOf(ws)) && TimesOutAfter(env, FramesOf(ws), k, |ws|)
    ensures s == WireStream(ws) + ReadText(env, s, k, held, awaiting, pongs).rest
    decreases |s|
  {
    if env.poll(k).TimedOut? {
      ws := [];
      assert s == WireStream([]) + s;
    } else {
      var (f, rest) := Decode(s).value;
      var round, ponged := OnFrame(env, k, held, awaiting, f), AddPong(env, k, f, pongs);
      ReadRound(env, s, f, rest, k, held, awaiting, pongs);
      DoneIsNoTimeout(env, k, held, awaiting, f);
      var tail := TimeoutComesFrom(env, rest, k + 1, round.held, round.awaiting, ponged);
      var w := FrontWire(s, tail, ReadText(env, rest, k + 1, round.held, round.awaiting, ponged).rest);
      ws := [w] + tail;
      assert FramesOf(ws)[1..] == FramesOf(tail);
    }
  }

  lemma {:induction false} OrphansAreFatal(env: Env, fs: seq<Frame>, k: nat, pongs: seq<seq<byte>>)
    requires Bounded(fs) && IsMessage(fs, true)
    ensures var r := ReadFrames(env, fs, k, [], false, pongs);
            r.Reading? && !r.status.Text? && (Undisturbed(env, fs, k) ==> r.status.Closed?)
    decreases fs
  {
    if !IsData(fs[0]) {
      OrphansAreFatal(env, fs[1..], k + 1, AddPong(env, k, fs[0], pongs));
    }
  }

  /** After a timeout inside a message, a new call never makes a text of the remainder. */
  lemma {:induction false} TimeoutInsideMessageIsFatal(env: Env, ws: seq<Wire>, rest: seq<byte>)
    requires AllAcceptable(ws) && IsMessage(FramesOf(ws), true)
    ensures var o := ReadText(env, WireStream(ws) + rest, 0, [], false, []);
            !o.status.Text? && (Undisturbed(env, FramesOf(ws), 0) ==> o.status.Closed?)
  {
    FramesAreBounded(ws);
    OrphansAreFatal(env, FramesOf(ws), 0, []);
    StreamCarries(ws, rest);
    BytesReadAsFrames(env, WireStream(ws) + rest, FramesOf(ws), 0, [], false, []);
  }

  // ---------------------------------------------------------------------------
  // One call after the other
  // ---------------------------------------------------------------------------

  /** The reader loop up to its next message: a call that times out is followed by another one. */
  function UntilText(envs: seq<Env>, s: seq<byte>): Outcome {
    if envs == [] then Outcome(Timeout, [], s, [])
    else
      var o := ReadText(envs[0], s, 0, [], false, []);
      if !o.status.Timeout? then o
      else
        var later := UntilText(envs[1..], o.rest);
        later.(pongs := o.pongs + later.pongs)
  }

  method NextMessage(envs: seq<Env>, stream: seq<byte>) returns (o: Outcome)
    ensures o == UntilText(envs, stream)
  {
    var s, pongs := stream, [];
    ghost var all := UntilText(envs, stream);
    for i := 0 to |envs|
      invariant all == UntilText(envs[i..], s).(pongs := pongs + UntilText(envs[i..], s).pongs)
    {
      assert envs[i..][1..] == envs[i + 1..];
      var call := RecvText(envs[i], s);
      if !call.status.Timeout? { return call.(pongs := pongs + call.pongs); }
      ghost var later := UntilText(envs[i + 1..], call.rest);
      ConcatAssoc(pongs, call.pongs, later.pongs);
      s, pongs := call.rest, pongs + call.pongs;
    }
    o := Outcome(Timeout, [], s, pongs);
  }

  ghost predicate NoData(fs: seq<Frame>) {
    forall i :: 0 <= i < |fs| ==> !IsData(fs[i])
  }

  /** From round k on, j of the frames are handled without trouble and then the call times out. */
  ghost predicate TimesOutAfter(env: Env, fs: seq<Frame>, k: nat, j: nat) {
    if j == 0 then env.poll(k).TimedOut?
    else fs != [] && env.poll(k).Ready? && (fs[0].opcode == PING ==> env.pongSent(k)) && TimesOutAfter(env, fs[1..], k + 1, j - 1)
  }

  /** Some call reads the whole message, and the calls before it timed out before its first data frame. */
  ghost predicate Delivers(envs: seq<Env>, fs: seq<Frame>)
    decreases |envs|
  {
    envs != [] &&
    ((Undisturbed(envs[0], fs, 0) && |TextOf(fs)| <= MAX_INCOMING)
     || exists j :: 0 <= j < |fs| && TimesOutAfter(envs[0], fs, 0, j) && NoData(fs[..j]) && Delivers(envs[1..], fs[j..]))
  }

  /** What a call that times out leaves behind is again a message, or the remainder of one once data was read. */
  lemma {:induction false} TimeoutLeaves(
    env: Env, fs: seq<Frame>, k: nat, held: seq<byte>, awaiting: bool, started: bool, pongs: seq<seq<byte>>)
    requires Bounded(fs) && IsMessage(fs, started) && (awaiting ==> started)
    ensures var r := ReadFrames(env, fs, k, held, awaiting, pongs);
            r.Reading? && r.status.Timeout? ==>
              && r.used < |fs| && TimesOutAfter(env, fs, k, r.used)
              && IsMessage(fs[r.used..], started || !NoData(fs[..r.used]))
    decreases fs
  {
    if env.poll(k).Ready? {
      FramesRound(env, fs, k, held, awaiting, pongs);
      var round, ponged := OnFrame(env, k, held, awaiting, fs[0]), AddPong(env, k, fs[0], pongs);
      if round.Again? {
        MessageGoesOn(env, fs, k, held, awaiting, started);
        var more := ReadFrames(env, fs[1..], k + 1, round.held, round.awaiting, ponged);
        TimeoutLeaves(env, fs[1..], k + 1, round.held, round.awaiting, started || IsData(fs[0]), ponged);
        if more.Reading? && more.status.Timeout? { NoDataFirst(fs, more.used); }
      } else {
        DoneIsNoTimeout(env, k, held, awaiting, fs[0]);
      }
    } else {
      assert fs[0..] == fs && fs[..0] == [];
    }
  }

  lemma DoneIsNoTimeout(env: Env, k: nat, held: seq<byte>, awaiting: bool, f: Frame)
    requires |f.payload| <= MAX_INCOMING
    ensures var r := OnFrame(env, k, held, awaiting, f);
            r.Done? ==> !r.status.Timeout?
  {
  }

  lemma MessageGoesOn(env: Env, fs: seq<Frame>, k: nat, held: seq<byte>, awaiting: bool, started: bool)
    requires Bounded(fs) && IsMessage(fs, started) && (awaiting ==> started)
    requires OnFrame(env, k, held, awaiting, fs[0]).Again?
    ensures IsMessage(fs[1..], started || IsData(fs[0]))
    ensures OnFrame(env, k, held, awaiting, fs[0]).awaiting ==> started || IsData(fs[0])
    ensures fs[0].opcode == PING ==> env.pongSent(k)
  {
  }

  lemma NoDataFirst(fs: seq<Frame>, n: nat)
    requires n < |fs|
    ensures fs[n + 1..] == fs[1..][n..]
    ensures NoData(fs[..n + 1]) <==> !IsData(fs[0]) && NoData(fs[1..][..n])
  {
    var all, tail := fs[..n + 1], fs[1..][..n];
    assert all == [fs[0]] + tail;
    forall i | 0 <= i < n ensures tail[i] == all[i + 1] {}
  }

  /** Conversely, a timeout before any data frame ends the call there. */
  lemma {:induction false} TimeoutBeforeData(env: Env, fs: seq<Frame>, k: nat, j: nat, pongs: seq<seq<byte>>)
    requires Bounded(fs) && IsMessage(fs, false) && j < |fs| && TimesOutAfter(env, fs, k, j) && NoData(fs[..j])
    ensures var r := ReadFrames(env, fs, k, [], false, pongs);
            r.Reading? && r.status.Timeout? && r.used == j
    decreases fs
  {
    if j > 0 {
      NoDataFirst(fs, j - 1);
      TimeoutBeforeData(env, fs[1..], k + 1, j - 1, AddPong(env, k, fs[0], pongs));
    }
  }

  lemma SuffixAcceptable(ws: seq<Wire>, n: nat)
    requires AllAcceptable(ws) && n <= |ws|
    ensures AllAcceptable(ws[n..])
  {
    forall i | 0 <= i < |ws[n..]| ensures Acceptable(ws[n..][i]) { assert ws[n..][i] == ws[n + i]; }
  }

  lemma {:induction false} FramesOfSuffix(ws: seq<Wire>, n: nat)
    requires n <= |ws|
    ensures FramesOf(ws)[n..] == FramesOf(ws[n..])
    decreases n
  {
    if n == 0 {
      assert ws[0..] == ws && FramesOf(ws)[0..] == FramesOf(ws);
    } else {
      var fs, t := FramesOf(ws), ws[1..];
      assert fs[1..] == FramesOf(t);
      FramesOfSuffix(t, n - 1);
      assert t[n - 1..] == ws[n..] && fs[1..][n - 1..] == fs[n..];
    }
  }

  lemma {:induction false} AfterFrames(ws: seq<Wire>, rest: seq<byte>, n: nat)
    requires AllAcceptable(ws) && n <= |ws|
    ensures AllAcceptable(ws[n..])
    ensures After(WireStream(ws) + rest, n) == WireStream(ws[n..]) + rest
    decreases n
  {
    SuffixAcceptable(ws, n);
    if n == 0 {
      assert ws[0..] == ws;
    } else {
      var t := ws[1..];
      SuffixAcceptable(ws, 1);
      assert t[n - 1..] == ws[n..];
      assert After(WireStream(ws) + rest, n) == After(WireStream(t) + rest, n - 1) by {
        FirstOfStream(ws, rest);
        AfterFirst(WireStream(ws) + rest, WireStream(t) + rest, n - 1);
      }
      AfterFrames(t, rest, n - 1);
    }
  }

  /** One call on the bytes is one reading of the frames. */
  lemma CallReads(env: Env, ws: seq<Wire>, rest: seq<byte>)
    requires AllAcceptable(ws) && Bounded(FramesOf(ws))
    ensures var o, r := ReadText(env, WireStream(ws) + rest, 0, [], false, []), ReadFrames(env, FramesOf(ws), 0, [], false, []);
            r.Reading? ==>
              && o.status == r.status && o.text == r.text && o.pongs == r.pongs
              && AllAcceptable(ws[r.used..]) && o.rest == WireStream(ws[r.used..]) + rest
  {
    StreamCarries(ws, rest);
    BytesReadAsFrames(env, WireStream(ws) + rest, FramesOf(ws), 0, [], false, []);
    var r := ReadFrames(env, FramesOf(ws), 0, [], false, []);
    if r.Reading? { AfterFrames(ws, rest, r.used); }
  }

  // Pongs over several calls.

  /** Payloads of the pings, in order. */
  function Pings(fs: seq<Frame>): seq<seq<byte>> {
    if fs == [] then [] else (if fs[0].opcode == PING then [fs[0].payload] else []) + Pings(fs[1..])
  }

  /** A pong frame of the client with this payload, under some mask. */
  ghost predicate IsPong(frame: seq<byte>, payload: seq<byte>) {
    |payload| <= MAX_INCOMING && exists mask: Mask :: frame == WireBytes(ClientFrame(PONG, payload, mask))
  }

  /** One pong per ping, in order, with the same payload. */
  ghost predicate Answers(pongs: seq<seq<byte>>, pings: seq<seq<byte>>) {
    |pongs| == |pings| && forall i :: 0 <= i < |pongs| ==> IsPong(pongs[i], pings[i])
  }

  lemma AnswersAppend(a: seq<seq<byte>>, b: seq<seq<byte>>, x: seq<seq<byte>>, y: seq<seq<byte>>)
    requires Answers(a, x) && Answers(b, y)
    ensures Answers(a + b, x + y)
  {
  }

  lemma {:induction false} PingsAppend(fs: seq<Frame>, gs: seq<Frame>)
    ensures Pings(fs + gs) == Pings(fs) + Pings(gs)
  {
    if fs == [] {
      assert fs + gs == gs;
    } else {
      assert (fs + gs)[1..] == fs[1..] + gs;
      PingsAppend(fs[1..], gs);
    }
  }

  lemma RoundAnswers(env: Env, k: nat, f: Frame, pongs: seq<seq<byte>>, pings: seq<seq<byte>>)
    requires |f.payload| <= MAX_INCOMING && Answers(pongs, pings) && (f.opcode == PING ==> env.pongSent(k))
    ensures Answers(AddPong(env, k, f, pongs), pings + Pings([f]))
  {
    assert Pings([f]) == (if f.opcode == PING then [f.payload] else []) + [];
    if f.opcode == PING {
      assert IsPong(Pong(env, k, f.payload), f.payload);
      AnswersAppend(pongs, [Pong(env, k, f.payload)], pings, [f.payload]);
    }
  }

  /** A call that does not close has answered every ping that it read. */
  lemma {:induction false} ReadingAnswers(
    env: Env, fs: seq<Frame>, k: nat, held: seq<byte>, awaiting: bool, pongs: seq<seq<byte>>, pings: seq<seq<byte>>)
    requires Bounded(fs) && Answers(pongs, pings)
    ensures var r := ReadFrames(env, fs, k, held, awaiting, pongs);
            r.Reading? && !r.status.Closed? ==> Answers(r.pongs, pings + Pings(fs[..r.used]))
    decreases fs
  {
    var r := ReadFrames(env, fs, k, held, awaiting, pongs);
    if r.Reading? && !r.status.Closed? {
      if r.used == 0 {
        NothingRead(env, fs, k, held, awaiting, pongs);
        assert fs[..0] == [] && pings + [] == pings;
      } else {
        var round, ponged, asked := FirstRoundAnswers(env, fs, k, held, awaiting, pongs, pings);
        if round.Again? {
          ReadingAnswers(env, fs[1..], k + 1, round.held, round.awaiting, ponged, asked);
          PrefixAnswers(fs, r.used, r.pongs, pings);
        } else {
          assert fs[..1] == [fs[0]];
        }
      }
    }
  }

  lemma {:induction false} PrefixAnswers(fs: seq<Frame>, n: nat, pongs: seq<seq<byte>>, pings: seq<seq<byte>>)
    requires 0 < n <= |fs| && Answers(pongs, pings + Pings([fs[0]]) + Pings(fs[1..][..n - 1]))
    ensures Answers(pongs, pings + Pings(fs[..n]))
  {
    PrefixPings(fs, n, pings);
  }

  /** What the first round leaves to the others. */
  lemma {:induction false} FirstRoundAnswers(
    env: Env, fs: seq<Frame>, k: nat, held: seq<byte>, awaiting: bool, pongs: seq<seq<byte>>, pings: seq<seq<byte>>)
    returns (round: Round, ponged: seq<seq<byte>>, asked: seq<seq<byte>>)
    requires Bounded(fs) && Answers(pongs, pings)
    requires var r := ReadFrames(env, fs, k, held, awaiting, pongs); r.Reading? && !r.status.Closed? && r.used > 0
    ensures fs != [] && Bounded(fs[1..]) && asked == pings + Pings([fs[0]]) && Answers(ponged, asked)
    ensures var r := ReadFrames(env, fs, k, held, awaiting, pongs);
            if round.Again? then
              var later := ReadFrames(env, fs[1..], k + 1, round.held, round.awaiting, ponged);
              later.Reading? && !later.status.Closed? && r.used == later.used + 1 && r.pongs == later.pongs
            else r.used == 1 && r.pongs == ponged
  {
    RoundReadingAnswers(env, fs, k, held, awaiting, pongs, pings);
    round, ponged, asked := OnFrame(env, k, held, awaiting, fs[0]), AddPong(env, k, fs[0], pongs), pings + Pings([fs[0]]);
  }

  lemma NothingRead(env: Env, fs: seq<Frame>, k: nat, held: seq<byte>, awaiting: bool, pongs: seq<seq<byte>>)
    requires Bounded(fs)
    ensures var r := ReadFrames(env, fs, k, held, awaiting, pongs);
            r.Reading? && r.used == 0 ==> r.pongs == pongs
  {
  }

  /** What the first round contributes. */
  lemma RoundReadingAnswers(
    env: Env, fs: seq<Frame>, k: nat, held: seq<byte>, awaiting: bool, pongs: seq<seq<byte>>, pings: seq<seq<byte>>)
    requires Bounded(fs) && Answers(pongs, pings)
    requires var r := ReadFrames(env, fs, k, held, awaiting, pongs); r.Reading? && !r.status.Closed? && r.used > 0
    ensures fs != [] && env.poll(k).Ready? && Answers(AddPong(env, k, fs[0], pongs), pings + Pings([fs[0]]))
    ensures var r, round := ReadFrames(env, fs, k, held, awaiting, pongs), OnFrame(env, k, held, awaiting, fs[0]);
            if round.Again? then
              r == Counted(ReadFrames(env, fs[1..], k + 1, round.held, round.awaiting, AddPong(env, k, fs[0], pongs)))
            else r.used == 1 && r.pongs == AddPong(env, k, fs[0], pongs)
  {
    FramesRound(env, fs, k, held, awaiting, pongs);
    RoundAnswers(env, k, fs[0], pongs, pings);
  }

  lemma PrefixPings(fs: seq<Frame>, n: nat, pings: seq<seq<byte>>)
    requires 0 < n <= |fs|
    ensures pings + Pings(fs[..n]) == pings + Pings([fs[0]]) + Pings(fs[1..][..n - 1])
  {
    assert fs[..n] == [fs[0]] + fs[1..][..n - 1];
    PingsAppend([fs[0]], fs[1..][..n - 1]);
    ConcatAssoc(pings, Pings([fs[0]]), Pings(fs[1..][..n - 1]));
  }

  /** The remainder of a message never becomes a text, however often the loop tries. */
  lemma {:induction false} RemainderIsLost(envs: seq<Env>, ws: seq<Wire>, rest: seq<byte>)
    requires AllAcceptable(ws) && IsMessage(FramesOf(ws), true)
    ensures !UntilText(envs, WireStream(ws) + rest).status.Text?
    decreases |envs|
  {
    if envs != [] {
      FramesAreBounded(ws);
      var fs := FramesOf(ws);
      var r := ReadFrames(envs[0], fs, 0, [], false, []);
      OrphansAreFatal(envs[0], fs, 0, []);
      CallReads(envs[0], ws, rest);
      if r.status.Timeout? {
        TimeoutLeaves(envs[0], fs, 0, [], false, true, []);
        AfterFrames(ws, rest, r.used);
        FramesOfSuffix(ws, r.used);
        RemainderIsLost(envs[1..], ws[r.used..], rest);
      }
    }
  }

  /**
   Over the whole loop: a message is delivered, as the concatenation of its fragments and with
   the rest of the stream untouched, if and only if no timeout falls after its first data frame,
   nothing else fails and the text is at most 4 MiB. By then every ping was answered by one pong
   with its payload, in order, whichever call read it.
   */
  lemma {:induction false} LoopDelivers(envs: seq<Env>, ws: seq<Wire>, rest: seq<byte>)
    requires AllAcceptable(ws) && IsMessage(FramesOf(ws), false)
    ensures var o, fs := UntilText(envs, WireStream(ws) + rest), FramesOf(ws);
            && (o.status.Text? <==> Delivers(envs, fs))
            && (o.status.Text? ==> o.text == TextOf(fs) && o.rest == rest && Answers(o.pongs, Pings(fs)))
    decreases |envs|
  {
    if envs != [] {
      FramesAreBounded(ws);
      var s, fs := WireStream(ws) + rest, FramesOf(ws);
      var r := ReadFrames(envs[0], fs, 0, [], false, []);
      FirstCallDecides(envs, fs);
      CallReads(envs[0], ws, rest);
      CallAnswers(envs[0], fs);
      if r.status.Timeout? {
        AfterFrames(ws, rest, r.used);
        FramesOfSuffix(ws, r.used);
        var later := UntilText(envs[1..], WireStream(ws[r.used..]) + rest);
        if NoData(fs[..r.used]) {
          LoopDelivers(envs[1..], ws[r.used..], rest);
          TextAfterNoData(fs, r.used);
          LaterAnswers(r.pongs, later.pongs, fs, r.used);
        } else {
          RemainderIsLost(envs[1..], ws[r.used..], rest);
        }
      } else if r.status.Text? {
        assert ws[|ws|..] == [] && [] + rest == rest && fs[..|fs|] == fs;
      }
    }
  }

  /** On frames: what the first call makes of a message, and what that means for the loop. */
  lemma {:induction false} FirstCallDecides(envs: seq<Env>, fs: seq<Frame>)
    requires envs != [] && Bounded(fs) && IsMessage(fs, false)
    ensures var r := ReadFrames(envs[0], fs, 0, [], false, []);
            && r.Reading?
            && (r.status.Text? ==> r.text == TextOf(fs) && r.used == |fs|)
            && (!r.status.Timeout? ==> (Delivers(envs, fs) <==> r.status.Text?))
            && (r.status.Timeout? ==>
                  && r.used < |fs| && IsMessage(fs[r.used..], !NoData(fs[..r.used]))
                  && (Delivers(envs, fs) <==> NoData(fs[..r.used]) && Delivers(envs[1..], fs[r.used..])))
  {
    var r := ReadFrames(envs[0], fs, 0, [], false, []);
    ReadsMessage(envs[0], fs, 0, [], false, []);
    assert [] + TextOf(fs) == TextOf(fs);
    forall j | 0 <= j < |fs| && TimesOutAfter(envs[0], fs, 0, j) && NoData(fs[..j])
      ensures r.status.Timeout? && r.used == j
    {
      TimeoutBeforeData(envs[0], fs, 0, j, []);
    }
    if r.status.Timeout? { TimeoutLeaves(envs[0], fs, 0, [], false, false, []); }
  }

  lemma CallAnswers(env: Env, fs: seq<Frame>)
    requires Bounded(fs)
    ensures var r := ReadFrames(env, fs, 0, [], false, []);
            r.Reading? && !r.status.Closed? ==> Answers(r.pongs, Pings(fs[..r.used]))
  {
    ReadingAnswers(env, fs, 0, [], false, [], []);
    var r := ReadFrames(env, fs, 0, [], false, []);
    if r.Reading? { assert [] + Pings(fs[..r.used]) == Pings(fs[..r.used]) && (r.used == |fs| ==> fs[..r.used] == fs); }
  }

  lemma LaterAnswers(a: seq<seq<byte>>, b: seq<seq<byte>>, fs: seq<Frame>, n: nat)
    requires n <= |fs| && Answers(a, Pings(fs[..n]))
    ensures Answers(b, Pings(fs[n..])) ==> Answers(a + b, Pings(fs))
  {
    assert fs[..n] + fs[n..] == fs;
    PingsAppend(fs[..n], fs[n..]);
    if Answers(b, Pings(fs[n..])) { AnswersAppend(a, b, Pings(fs[..n]), Pings(fs[n..])); }
  }

  lemma {:induction false} TextAfterNoData(fs: seq<Frame>, n: nat)
    requires n <= |fs| && NoData(fs[..n])
    ensures TextOf(fs[n..]) == TextOf(fs)
    decreases n
  {
    if n == 0 {
      assert fs[0..] == fs;
    } else {
      NoDataFirst(fs, n - 1);
      TextAfterNoData(fs[1..], n - 1);
    }
  }
}
