/** What holds of every H.264 recording run: order and conservation of what is written. */
module RecorderLaws {
  import opened Bytes
  import opened Timestamps
  import opened H264
  import opened Recorder

  // ---------------------------------------------------------------------------
  // Reading the log
  // ---------------------------------------------------------------------------

  function Audios(log: seq<Output>): seq<AudioPacket> {
    if log == [] then []
    else
      var before, x := Audios(log[..|log| - 1]), log[|log| - 1];
      if x.Audio? then before + [x.packet] else before
  }

  function Videos(log: seq<Output>): (vs: seq<Output>)
    ensures forall i :: 0 <= i < |vs| ==> vs[i].Video?
  {
    if log == [] then []
    else
      var before, x := Videos(log[..|log| - 1]), log[|log| - 1];
      if x.Video? then before + [x] else before
  }

  lemma Snoc(log: seq<Output>, x: Output)
    ensures Audios(log + [x]) == if x.Audio? then Audios(log) + [x.packet] else Audios(log)
    ensures Videos(log + [x]) == if x.Video? then Videos(log) + [x] else Videos(log)
  {
    assert (log + [x])[..|log|] == log;
  }

  /** The clamped timestamp of a written video frame, before the repair. */
  function RawPts(cfg: Config, v: Output): nat
    requires v.Video?
  {
    Max(0, cfg.videoScale(v.ticks))
  }

  // ---------------------------------------------------------------------------
  // The invariant
  // ---------------------------------------------------------------------------

  /** The header comes first and only once; the first video frame is a key frame. */
  ghost predicate WellStarted(log: seq<Output>) {
    && log != [] && log[0].Header?
    && (forall i :: 0 < i < |log| ==> !log[i].Header?)
    && Videos(log) != [] && Videos(log)[0].key
  }

  /** The first m packets were buffered and written, the next `drops` lost, all later ones written. */
  ghost predicate AudioInOrder(written: seq<AudioPacket>, received: seq<AudioPacket>, drops: nat, m: nat) {
    && m <= MAX_PENDING_AUDIO && m + drops <= |received|
    && (drops > 0 ==> m == MAX_PENDING_AUDIO)
    && written == received[..m] + received[m + drops..]
  }

  ghost predicate AudioInv(r: Recording) {
    if r.deferred then
      AudioInOrder(r.pending, r.audioIn, r.drops, |r.pending|) && |r.pending| + r.drops == |r.audioIn|
    else
      r.pending == [] && exists m: nat :: AudioInOrder(Audios(r.log), r.audioIn, r.drops, m)
  }

  /** The i-th frame holds the matching buffer, with a timestamp repaired against the frame before. */
  ghost predicate FrameAt(cfg: Config, vs: seq<Output>, flushed: seq<seq<byte>>, i: nat) {
    && i < |vs| <= |flushed| && vs[i].Video?
    && vs[i].data == Avcc(flushed[|flushed| - |vs| + i])
    && (i > 0 ==> vs[i - 1].Video?)
    && vs[i].pts == RepairPts(if i == 0 then -1 else vs[i - 1].pts, RawPts(cfg, vs[i]))
  }

  /** Each timestamp is repaired against the one before; from the header on every flushed buffer is written. */
  ghost predicate FramesInOrder(cfg: Config, vs: seq<Output>, flushed: seq<seq<byte>>, lastPts: int) {
    && |vs| <= |flushed|
    && (forall i: nat :: i < |vs| ==> FrameAt(cfg, vs, flushed, i))
    && (vs == [] ==> lastPts == -1)
    && (vs != [] ==> vs[|vs| - 1].Video? && lastPts == vs[|vs| - 1].pts)
  }

  ghost predicate VideoInv(cfg: Config, r: Recording) {
    FramesInOrder(cfg, Videos(r.log), r.flushed, r.lastPts)
  }

  ghost predicate RunInv(cfg: Config, r: Recording) {
    && (if r.deferred then r.log == [] else WellStarted(r.log))
    && AudioInv(r)
    && VideoInv(cfg, r)
  }

  // ---------------------------------------------------------------------------
  // Every step keeps it
  // ---------------------------------------------------------------------------

  lemma WriteAudioAppends(cfg: Config, r: Recording, a: AudioPacket)
    ensures var w := WriteAudio(cfg, r, a);
            && w == r.(audio := w.audio, log := w.log)
            && |w.log| == |r.log| + 1 && w.log[..|r.log|] == r.log && w.log[|r.log|].Audio?
            && Audios(w.log) == Audios(r.log) + [a]
            && Videos(w.log) == Videos(r.log)
  {
    Snoc(r.log, WriteAudio(cfg, r, a).log[|r.log|]);
  }

  /** One frame is written: the units of the buffer, behind readable sizes, with the buffer's timestamp and flag. */
  lemma {:induction false} FrameIsWritten(cfg: Config, r: Recording)
    ensures var w := WriteVideo(cfg, r);
            && |w.log| == |r.log| + 1 && w.log[..|r.log|] == r.log && w.frame.bytes == []
            && var x := w.log[|r.log|];
               && x.Video? && x.timestamp == r.frame.ts && x.key == r.frame.key
               && x.pts == (if r.lastPts == -1 then RawPts(cfg, x) else Max(RawPts(cfg, x), r.lastPts + 1)) == w.lastPts
               && Carries(x.data, NalsFrom(r.frame.bytes, 0))
  {
    LengthPrefixedRoundTrip(NalsFrom(r.frame.bytes, 0));
  }

  /** `w` has written the audio packets `ps` after what `r` had written, and nothing else. */
  ghost predicate AudioAdded(r: Recording, w: Recording, ps: seq<AudioPacket>) {
    && w == r.(audio := w.audio, log := w.log)
    && |w.log| >= |r.log| && w.log[..|r.log|] == r.log
    && (forall i :: |r.log| <= i < |w.log| ==> w.log[i].Audio?)
    && Audios(w.log) == Audios(r.log) + ps
    && Videos(w.log) == Videos(r.log)
  }

  lemma {:induction false} WriteAudiosAppends(cfg: Config, r: Recording, ps: seq<AudioPacket>)
    ensures AudioAdded(r, WriteAudios(cfg, r, ps), ps)
  {
    if ps != [] {
      var n := |ps| - 1;
      var before := WriteAudios(cfg, r, ps[..n]);
      assert AudioAdded(r, before, ps[..n]) by { WriteAudiosAppends(cfg, r, ps[..n]); }
      assert ps == ps[..n] + [ps[n]];
      OneMoreAudio(cfg, r, before, ps[..n], ps[n]);
    }
  }

  lemma OneMoreAudio(cfg: Config, r: Recording, before: Recording, ps: seq<AudioPacket>, a: AudioPacket)
    requires AudioAdded(r, before, ps)
    ensures AudioAdded(r, WriteAudio(cfg, before, a), ps + [a])
  {
    WriteAudioAppends(cfg, before, a);
    var w := WriteAudio(cfg, before, a);
    assert w.log[..|r.log|] == w.log[..|before.log|][..|r.log|];
    forall i | |r.log| <= i < |w.log| ensures w.log[i].Audio? {
      if i < |before.log| { assert w.log[i] == before.log[i]; }
    }
    ConcatAssoc(Audios(r.log), ps, [a]);
  }

  lemma FramesSnoc(cfg: Config, vs: seq<Output>, flushed: seq<seq<byte>>, lastPts: int, x: Output, buffer: seq<byte>)
    requires FramesInOrder(cfg, vs, flushed, lastPts)
    requires x.Video? && x.data == Avcc(buffer) && x.pts == RepairPts(lastPts, RawPts(cfg, x))
    ensures FramesInOrder(cfg, vs + [x], flushed + [buffer], x.pts)
  {
    var us, bs := vs + [x], flushed + [buffer];
    forall i: nat | i < |us|
      ensures FrameAt(cfg, us, bs, i)
    {
      if i < |vs| { assert FrameAt(cfg, vs, flushed, i); }
    }
  }

  lemma WriteVideoKeeps(cfg: Config, r: Recording, flushed: seq<seq<byte>>)
    requires VideoInv(cfg, r.(flushed := flushed)) && r.flushed == flushed + [r.frame.bytes]
    ensures VideoInv(cfg, WriteVideo(cfg, r))
  {
    var x := WriteVideo(cfg, r).log[|r.log|];
    Snoc(r.log, x);
    FramesSnoc(cfg, Videos(r.log), flushed, r.lastPts, x, r.frame.bytes);
  }

  lemma {:induction false} StartKeeps(cfg: Config, r: Recording)
    requires RunInv(cfg, r) && r.deferred && |r.sps| >= 4
    ensures var s := Start(cfg, r);
            && !s.deferred && s == r.(deferred := false, audio := s.audio, log := s.log, pending := [])
            && s.log != [] && s.log[0].Header? && (forall i :: 0 < i < |s.log| ==> !s.log[i].Header?)
            && Videos(s.log) == [] && AudioInv(s) && VideoInv(cfg, s)
  {
    var header := Header(Extradata(r.sps, r.pps));
    var started := r.(deferred := false, log := r.log + [header]);
    Snoc(r.log, header);
    WriteAudiosAppends(cfg, started, r.pending);
    var w := WriteAudios(cfg, started, r.pending);
    assert w.log[0] == w.log[..1][0];
    assert AudioInOrder(Audios(w.log), r.audioIn, r.drops, |r.pending|);
  }

  lemma {:induction false} LateFlushKeeps(cfg: Config, r: Recording)
    requires RunInv(cfg, r) && !r.deferred
    ensures RunInv(cfg, WriteVideo(cfg, r.(flushed := r.flushed + [r.frame.bytes])))
  {
    var f := r.(flushed := r.flushed + [r.frame.bytes]);
    WriteVideoKeeps(cfg, f, r.flushed);
    Snoc(r.log, WriteVideo(cfg, f).log[|r.log|]);
  }

  lemma {:induction false} FirstFlushKeeps(cfg: Config, r: Recording)
    requires RunInv(cfg, r) && r.deferred && r.frame.key && |r.sps| >= 4
    ensures RunInv(cfg, WriteVideo(cfg, Start(cfg, r.(flushed := r.flushed + [r.frame.bytes]))))
  {
    var f := r.flushed + [r.frame.bytes];
    StartKeeps(cfg, r);
    StartIgnoresFlushed(cfg, r, f);
    var before := Start(cfg, r);
    WriteVideoKeeps(cfg, before.(flushed := f), r.flushed);
    FirstVideoKeeps(cfg, before.(flushed := f));
  }

  lemma FirstVideoKeeps(cfg: Config, s: Recording)
    requires !s.deferred && s.frame.key
    requires s.log != [] && s.log[0].Header? && (forall i :: 0 < i < |s.log| ==> !s.log[i].Header?)
    requires Videos(s.log) == [] && AudioInv(s)
    ensures WellStarted(WriteVideo(cfg, s).log) && AudioInv(WriteVideo(cfg, s))
  {
    var x := WriteVideo(cfg, s).log[|s.log|];
    Snoc(s.log, x);
    assert Videos(s.log + [x]) == [x];
  }

  lemma {:induction false} FlushKeeps(cfg: Config, r: Recording)
    requires RunInv(cfg, r)
    ensures RunInv(cfg, Flush(cfg, r))
  {
    if !r.deferred {
      LateFlushKeeps(cfg, r);
    } else if r.frame.key && CanWriteHeader(r) {
      FirstFlushKeeps(cfg, r);
    }
  }

  lemma {:induction false} WriteAudiosIgnoresFlushed(cfg: Config, r: Recording, ps: seq<AudioPacket>, flushed: seq<seq<byte>>)
    ensures WriteAudios(cfg, r.(flushed := flushed), ps) == WriteAudios(cfg, r, ps).(flushed := flushed)
  {
    if ps != [] { WriteAudiosIgnoresFlushed(cfg, r, ps[..|ps| - 1], flushed); }
  }

  lemma StartIgnoresFlushed(cfg: Config, r: Recording, flushed: seq<seq<byte>>)
    requires |r.sps| >= 4
    ensures Start(cfg, r.(flushed := flushed)) == Start(cfg, r).(flushed := flushed)
  {
    var started := r.(deferred := false, log := r.log + [Header(Extradata(r.sps, r.pps))]);
    WriteAudiosIgnoresFlushed(cfg, started, r.pending, flushed);
  }

  /** A recording in which only the parts that collecting changes differ. */
  function Collected(r: Recording, video: Track, frame: FrameBuffer, sps: Nal, pps: Nal): Recording {
    r.(video := video, frame := frame, sps := sps, pps := pps)
  }

  ghost predicate KeptByFlush(cfg: Config, inv: Recording -> bool) {
    forall r :: inv(r) ==> inv(Flush(cfg, r))
  }

  ghost predicate KeptByCollecting(inv: Recording -> bool) {
    forall r, v, f, s, p :: inv(r) ==> inv(Collected(r, v, f, s, p))
  }

  /** The same with the time keeping left alone. */
  ghost predicate KeptByBuffering(inv: Recording -> bool) {
    forall r, f, s, p :: inv(r) ==> inv(Collected(r, r.video, f, s, p))
  }

  ghost predicate OnlyCollects(r: Recording, a: Recording) {
    a == Collected(r, r.video, a.frame, a.sps, a.pps)
  }

  lemma AggregateCollectsMore(r: Recording, p: Packet, offset: nat, nalSize: nat)
    requires offset + 2 + nalSize <= |p.payload|
    requires nalSize == p.payload[offset] as int * 256 + p.payload[offset + 1]
    requires var r' := AddUnitAt(r, p, offset + 2, nalSize);
             OnlyCollects(r', Aggregate(r', p, offset + 2 + nalSize))
    ensures OnlyCollects(r, Aggregate(r, p, offset))
  {
    AggregateOne(r, p, offset, nalSize);
    assert OnlyCollects(r, AddUnitAt(r, p, offset + 2, nalSize));
  }

  lemma {:induction false} AggregateOnlyCollects(r: Recording, p: Packet, offset: nat)
    requires offset <= |p.payload|
    ensures OnlyCollects(r, Aggregate(r, p, offset))
    decreases |p.payload| - offset
  {
    var data := p.payload;
    if offset + 2 <= |data| {
      var nalSize: nat := data[offset] as int * 256 + data[offset + 1];
      var at := offset + 2;
      if at + nalSize <= |data| {
        AggregateOnlyCollects(AddUnitAt(r, p, at, nalSize), p, at + nalSize);
        AggregateCollectsMore(r, p, offset, nalSize);
      }
    }
  }

  lemma SingleKeeps(cfg: Config, inv: Recording -> bool, r: Recording, p: Packet)
    requires KeptByFlush(cfg, inv) && KeptByBuffering(inv) && inv(r) && p.payload != []
    ensures inv(SingleNal(cfg, r, p))
  {
    var nt := NalType(p.payload);
    var f := if r.frame.bytes == [] then FrameBuffer([], p.timestamp, nt == 5) else r.frame;
    assert inv(Collected(r, r.video, f.(bytes := f.bytes + (START_CODE + p.payload)), r.sps, r.pps));
    assert inv(Collected(r, r.video, r.frame, p.payload, r.pps));
    assert inv(Collected(r, r.video, r.frame, r.sps, p.payload));
  }

  lemma FragmentKeeps(cfg: Config, inv: Recording -> bool, r: Recording, p: Packet)
    requires KeptByFlush(cfg, inv) && KeptByBuffering(inv) && inv(r) && |p.payload| >= 2
    ensures inv(Fragment(cfg, r, p))
  {
    var header, f := p.payload[1], Flush(cfg, r);
    var started := StartFragmented(f, p.timestamp, p.payload[0], header);
    assert inv(f) && started == Collected(f, f.video, started.frame, f.sps, f.pps);
    var b := if header >= 0x80 then started else r;
    var bytes := b.frame.bytes + p.payload[2..];
    assert inv(b) && inv(Collected(b, b.video, b.frame.(bytes := bytes), b.sps, b.pps));
  }

  /** Packets of reserved types, empty ones and fragments without a header byte change nothing. */
  lemma {:induction false} OthersAreIgnored(cfg: Config, r: Recording, p: Packet)
    requires p.payload == [] || NalType(p.payload) == 0 || NalType(p.payload) in {25, 26, 27, 29, 30, 31}
             || (NalType(p.payload) == 28 && |p.payload| == 1)
    ensures Depacketize(cfg, r, p) == r
  {
  }

  lemma DepacketizeKeeps(cfg: Config, inv: Recording -> bool, r: Recording, p: Packet)
    requires KeptByFlush(cfg, inv) && KeptByBuffering(inv) && inv(r)
    ensures inv(Depacketize(cfg, r, p))
  {
    if p.payload != [] {
      var nt := NalType(p.payload);
      if 1 <= nt <= 23 {
        SingleKeeps(cfg, inv, r, p);
      } else if nt == 28 && |p.payload| >= 2 {
        FragmentKeeps(cfg, inv, r, p);
      } else if nt == 24 {
        AggregateOnlyCollects(r, p, 1);
        var a := Aggregate(r, p, 1);
        assert inv(Collected(r, r.video, a.frame, a.sps, a.pps));
      }
    }
  }

  /** Whatever flushing and collecting keep, a video packet keeps. */
  lemma TakeVideoKeeps(cfg: Config, inv: Recording -> bool, r: Recording, p: Packet)
    requires KeptByFlush(cfg, inv) && KeptByCollecting(inv) && inv(r)
    ensures inv(TakeVideo(cfg, r, p))
  {
    var b := Collected(r, Based(r.video, p.timestamp), r.frame, r.sps, r.pps);
    assert inv(b);
    forall r, f, s, p | inv(r) ensures inv(Collected(r, r.video, f, s, p)) {}
    DepacketizeKeeps(cfg, inv, b, p);
  }

  lemma RunInvIsKept(cfg: Config, inv: Recording -> bool)
    requires forall r :: inv(r) <==> RunInv(cfg, r)
    ensures KeptByFlush(cfg, inv) && KeptByCollecting(inv)
  {
    forall r | inv(r) ensures inv(Flush(cfg, r)) { FlushKeeps(cfg, r); }
    forall r, v, f, s, p | inv(r) ensures inv(Collected(r, v, f, s, p)) { CollectedKeeps(cfg, r, v, f, s, p); }
  }

  lemma CollectedKeeps(cfg: Config, r: Recording, v: Track, f: FrameBuffer, s: Nal, p: Nal)
    requires RunInv(cfg, r)
    ensures RunInv(cfg, Collected(r, v, f, s, p))
  {
  }

  lemma WrittenSnoc(written: seq<AudioPacket>, received: seq<AudioPacket>, drops: nat, m: nat, a: AudioPacket)
    requires AudioInOrder(written, received, drops, m)
    ensures AudioInOrder(written + [a], received + [a], drops, m)
  {
    assert (received + [a])[m + drops..] == received[m + drops..] + [a];
    ConcatAssoc(received[..m], received[m + drops..], [a]);
  }

  lemma PendingSnoc(pending: seq<AudioPacket>, received: seq<AudioPacket>, drops: nat, a: AudioPacket)
    requires AudioInOrder(pending, received, drops, |pending|) && |pending| + drops == |received|
    ensures |pending| < MAX_PENDING_AUDIO ==> AudioInOrder(pending + [a], received + [a], drops, |pending| + 1)
    ensures |pending| == MAX_PENDING_AUDIO ==> AudioInOrder(pending, received + [a], drops + 1, |pending|)
  {
    var m := |pending|;
    assert received[m + drops..] == [];
    assert pending == received[..m];
    if m < MAX_PENDING_AUDIO {
      assert (received + [a])[..m + 1] == pending + [a];
    } else {
      assert (received + [a])[..m] == pending;
    }
  }

  lemma {:induction false} TakeAudioKeeps(cfg: Config, r: Recording, p: Packet)
    requires RunInv(cfg, r)
    ensures RunInv(cfg, TakeAudio(cfg, r, p))
  {
    var a := AudioPacket(p.timestamp, p.payload);
    if r.deferred {
      PendingSnoc(r.pending, r.audioIn, r.drops, a);
    } else {
      LateAudioKeeps(cfg, r.(audio := Based(r.audio, p.timestamp)), a);
    }
  }

  lemma {:induction false} LateAudioKeeps(cfg: Config, r: Recording, a: AudioPacket)
    requires RunInv(cfg, r) && !r.deferred
    ensures RunInv(cfg, WriteAudio(cfg, r.(audioIn := r.audioIn + [a]), a))
  {
    var w := WriteAudio(cfg, r.(audioIn := r.audioIn + [a]), a);
    Snoc(r.log, w.log[|r.log|]);
    var m: nat :| AudioInOrder(Audios(r.log), r.audioIn, r.drops, m);
    WrittenSnoc(Audios(r.log), r.audioIn, r.drops, m, a);
    assert AudioInv(w);
  }

  /** Every packet keeps the invariant, so it holds of every recording. */
  lemma {:induction false} EveryRecordingIsSound(cfg: Config, packets: seq<Packet>)
    ensures RunInv(cfg, Record(cfg, packets))
  {
    if packets == [] {
      assert AudioInOrder([], [], 0, 0);
    } else {
      var n := |packets| - 1;
      EveryRecordingIsSound(cfg, packets[..n]);
      PacketKeeps(cfg, Record(cfg, packets[..n]), packets[n]);
    }
  }

  lemma {:induction false} PacketKeeps(cfg: Config, r: Recording, p: Packet)
    requires RunInv(cfg, r)
    ensures RunInv(cfg, WritePacket(cfg, r, p))
  {
    if p.payloadType == cfg.audioPT {
      TakeAudioKeeps(cfg, r, p);
    } else {
      var inv := x => RunInv(cfg, x);
      RunInvIsKept(cfg, inv);
      TakeVideoKeeps(cfg, inv, r, p);
    }
  }

  /**
   Nothing before the header, a frame flagged as key frame first, written audio is the first at most 500 buffered
   packets and then all later ones, and audio received = written + pending + dropped.
   */
  lemma RecordingLaws(cfg: Config, packets: seq<Packet>)
    ensures var r := Record(cfg, packets);
            && (r.log != [] ==> r.log[0].Header?)
            && (Videos(r.log) != [] ==> Videos(r.log)[0].key)
            && |r.audioIn| == |Audios(r.log)| + |r.pending| + r.drops
            && exists m: nat :: AudioInOrder(Audios(r.log) + r.pending, r.audioIn, r.drops, m)
  {
    EveryRecordingIsSound(cfg, packets);
    var r := Record(cfg, packets);
    if r.deferred {
      assert Audios(r.log) + r.pending == r.pending;
      assert AudioInOrder(Audios(r.log) + r.pending, r.audioIn, r.drops, |r.pending|);
    } else {
      assert Audios(r.log) + r.pending == Audios(r.log);
    }
  }

  /** All frame buffers, with the last one if anything is in it. */
  function FlushedWith(r: Recording): seq<seq<byte>> {
    if r.frame.bytes == [] then r.flushed else r.flushed + [r.frame.bytes]
  }

  /** The laws survive the end of the recording, and the trailer closes it exactly when it was started. */
  lemma FinalizedIsSound(cfg: Config, packets: seq<Packet>)
    requires Record(cfg, packets).open
    ensures var f := Finalize(cfg, Record(cfg, packets));
            && RunInv(cfg, f) && !f.open && f.frame.bytes == []
            && f.flushed == FlushedWith(Record(cfg, packets))
            && (f.deferred <==> f.log == [])
            && (!f.deferred ==> f.log[|f.log| - 1].Trailer?)
  {
    var r := Record(cfg, packets);
    assert RunInv(cfg, Flush(cfg, r)) by {
      EveryRecordingIsSound(cfg, packets);
      FlushKeeps(cfg, r);
    }
    FlushEmpties(cfg, r);
    ClosingKeeps(cfg, Flush(cfg, r));
  }

  lemma ClosingKeeps(cfg: Config, r: Recording)
    requires RunInv(cfg, r)
    ensures RunInv(cfg, r.(open := false, log := if r.deferred then r.log else r.log + [Trailer]))
  {
    Snoc(r.log, Trailer);
  }

  lemma FlushEmpties(cfg: Config, r: Recording)
    requires r.open
    ensures Flush(cfg, r).frame.bytes == [] && Flush(cfg, r).flushed == FlushedWith(r)
  {
    var s := r.(flushed := r.flushed + [r.frame.bytes]);
    if CanWriteHeader(s) {
      WriteAudiosAppends(cfg, s.(deferred := false, log := s.log + [Header(Extradata(s.sps, s.pps))]), s.pending);
    }
  }

  function RawAll(cfg: Config, vs: seq<Output>): (raw: seq<nat>)
    requires forall i :: 0 <= i < |vs| ==> vs[i].Video?
    ensures |raw| == |vs| && forall i :: 0 <= i < |vs| ==> raw[i] == RawPts(cfg, vs[i])
  {
    if vs == [] then [] else RawAll(cfg, vs[..|vs| - 1]) + [RawPts(cfg, vs[|vs| - 1])]
  }

  lemma {:induction false} RepairedIsEmitted(cfg: Config, vs: seq<Output>, flushed: seq<seq<byte>>, lastPts: int, i: nat)
    requires FramesInOrder(cfg, vs, flushed, lastPts) && i < |vs| && forall j :: 0 <= j < |vs| ==> vs[j].Video?
    ensures vs[i].pts == Envelope(RawAll(cfg, vs), i) >= 0
  {
    assert FrameAt(cfg, vs, flushed, i);
    if i > 0 { RepairedIsEmitted(cfg, vs, flushed, lastPts, i - 1); }
  }

  lemma FramesAreLeast(cfg: Config, vs: seq<Output>, flushed: seq<seq<byte>>, lastPts: int, i: nat)
    requires FramesInOrder(cfg, vs, flushed, lastPts) && i < |vs| && forall j :: 0 <= j < |vs| ==> vs[j].Video?
    ensures vs[i].pts == Emitted(RawAll(cfg, vs))[i]
    ensures i > 0 ==> vs[i - 1].pts < vs[i].pts
  {
    RepairedIsEmitted(cfg, vs, flushed, lastPts, i);
    EmittedIsEnvelope(RawAll(cfg, vs), i);
    if i > 0 { RepairedIsEmitted(cfg, vs, flushed, lastPts, i - 1); }
  }

  /**
   The presentation timestamps of the written video frames are the repair of their clamped ones:
   the least strictly increasing sequence above them.
   */
  lemma {:induction false} VideoTimestampsAreLeast(cfg: Config, packets: seq<Packet>, i: nat)
    requires i < |Videos(Record(cfg, packets).log)|
    ensures var vs := Videos(Record(cfg, packets).log);
            && vs[i].pts == Emitted(RawAll(cfg, vs))[i]
            && (i > 0 ==> vs[i - 1].pts < vs[i].pts)
  {
    EveryRecordingIsSound(cfg, packets);
    var r := Record(cfg, packets);
    FramesAreLeast(cfg, Videos(r.log), r.flushed, r.lastPts, i);
  }

  // ---------------------------------------------------------------------------
  // Audio times
  // ---------------------------------------------------------------------------

  /** Every audio packet in the log has the time that its ticks scale to, and not less than zero. */
  ghost predicate AudioScaled(cfg: Config, log: seq<Output>) {
    forall i :: 0 <= i < |log| && log[i].Audio? ==> log[i].pts == Max(0, cfg.audioScale(log[i].ticks))
  }

  lemma {:induction false} AudiosKeepScaled(cfg: Config, r: Recording, ps: seq<AudioPacket>)
    requires AudioScaled(cfg, r.log)
    ensures AudioScaled(cfg, WriteAudios(cfg, r, ps).log)
  {
    if ps != [] { AudiosKeepScaled(cfg, r, ps[..|ps| - 1]); }
  }

  lemma {:induction false} FlushKeepsScaled(cfg: Config, r: Recording)
    requires AudioScaled(cfg, r.log)
    ensures AudioScaled(cfg, Flush(cfg, r).log)
  {
    if r.deferred && r.frame.key && CanWriteHeader(r) {
      var f := r.(flushed := r.flushed + [r.frame.bytes]);
      AudiosKeepScaled(cfg, f.(deferred := false, log := f.log + [Header(Extradata(f.sps, f.pps))]), f.pending);
    }
  }

  /** In every recording each audio packet is written at max(0, scaled ticks). */
  lemma {:induction false} AudioTimesAreScaled(cfg: Config, packets: seq<Packet>)
    ensures AudioScaled(cfg, Record(cfg, packets).log)
  {
    if packets != [] {
      var n := |packets| - 1;
      AudioTimesAreScaled(cfg, packets[..n]);
      if packets[n].payloadType != cfg.audioPT {
        var inv := (x: Recording) => AudioScaled(cfg, x.log);
        forall x | inv(x) ensures inv(Flush(cfg, x)) { FlushKeepsScaled(cfg, x); }
        TakeVideoKeeps(cfg, inv, Record(cfg, packets[..n]), packets[n]);
      }
    }
  }

  lemma RecordSnoc(cfg: Config, ps: seq<Packet>, p: Packet)
    ensures Record(cfg, ps + [p]) == WritePacket(cfg, Record(cfg, ps), p)
  {
    assert (ps + [p])[..|ps|] == ps;
  }

  // ---------------------------------------------------------------------------
  // The header
  // ---------------------------------------------------------------------------

  /** SPS and PPS of an AVCDecoderConfigurationRecord that holds one of each. */
  function ParameterSetsOf(x: seq<byte>): (Nal, Nal) {
    if |x| < 8 then ([], [])
    else
      var spsEnd := 8 + (x[6] as int * 256 + x[7]);
      if spsEnd + 3 > |x| then ([], [])
      else
        var ppsEnd := spsEnd + 3 + (x[spsEnd + 1] as int * 256 + x[spsEnd + 2]);
        if ppsEnd > |x| then ([], []) else (x[8..spsEnd], x[spsEnd + 3..ppsEnd])
  }

  /** The header carries exactly the parameter sets collected so far. */
  lemma HeaderCarriesParameterSets(sps: Nal, pps: Nal)
    requires 4 <= |sps| < 0x1_0000 && |pps| < 0x1_0000
    ensures ParameterSetsOf(Extradata(sps, pps)) == (sps, pps)
    ensures var x := Extradata(sps, pps);
            && |x| == |sps| + |pps| + 11 && x[0] == 1 && x[1..4] == sps[1..4]
            && x[4] == 0xFF && x[5] == 0xE1 && x[8 + |sps|] == 1
  {
    var x, end := Extradata(sps, pps), 8 + |sps|;
    var head: seq<byte> := [1, sps[1], sps[2], sps[3], 0xFF, 0xE1, |sps| / 256 % 256, |sps| % 256];
    var tail: seq<byte> := [1, |pps| / 256 % 256, |pps| % 256];
    assert x == head + sps + (tail + pps);
    assert x[6] == head[6] && x[7] == head[7] && x[6] as int * 256 + x[7] == |sps|;
    assert x[end + 1] == tail[1] && x[end + 2] == tail[2] && x[end + 1] as int * 256 + x[end + 2] == |pps|;
    assert x[8..end] == sps && x[end + 3..end + 3 + |pps|] == pps;
  }
}
