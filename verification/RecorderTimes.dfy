/** What a recording does with time and parameter sets: the ticks it writes, and the header it begins with. */
module RecorderTimes {
  import opened Bytes
  import opened Timestamps
  import opened H264
  import opened Recorder
  import opened RecorderLaws

  // ---------------------------------------------------------------------------
  // Ticks
  // ---------------------------------------------------------------------------

  datatype Stamp = Stamp(timestamp: u32, ticks: nat)

  function StampOf(x: Output): Stamp
    requires x.Audio? || x.Video?
  {
    if x.Audio? then Stamp(x.packet.timestamp, x.ticks) else Stamp(x.timestamp, x.ticks)
  }

  /** RTP timestamp and ticks of what was written to one of the two streams, in order. */
  function Stamps(log: seq<Output>, video: bool): seq<Stamp> {
    if log == [] then []
    else
      var before, x := Stamps(log[..|log| - 1], video), log[|log| - 1];
      if (if video then x.Video? else x.Audio?) then before + [StampOf(x)] else before
  }

  lemma StampsSnoc(log: seq<Output>, x: Output, video: bool)
    ensures Stamps(log + [x], video) ==
            if (if video then x.Video? else x.Audio?) then Stamps(log, video) + [StampOf(x)] else Stamps(log, video)
  {
    assert (log + [x])[..|log|] == log;
  }

  /** The clock after unwrapping the timestamps of `ss`, from a fresh clock at `base`. */
  function ClockAfter(base: u32, ss: seq<Stamp>): Clock {
    if ss == [] then Clock(base, 0) else Advance(ClockAfter(base, ss[..|ss| - 1]), ss[|ss| - 1].timestamp)
  }

  ghost predicate TicksAt(base: u32, ss: seq<Stamp>, i: nat) {
    i < |ss| ==> ss[i].ticks == Elapsed(ClockAfter(base, ss[..i + 1]), base)
  }

  /** The track has unwrapped exactly the timestamps of `ss`. */
  ghost predicate TrackOk(t: Track, ss: seq<Stamp>) {
    && (forall i: nat :: i < |ss| ==> TicksAt(t.base, ss, i))
    && (if t.baseSet then t.clock == ClockAfter(t.base, ss) else ss == [] && t.clock.wraps == 0)
  }

  ghost predicate TimeInv(r: Recording) {
    && TrackOk(r.audio, Stamps(r.log, false)) && TrackOk(r.video, Stamps(r.log, true))
    && (r.pending != [] ==> r.audio.baseSet)
    && (r.frame.bytes != [] ==> r.video.baseSet)
  }

  lemma TickKeeps(t: Track, ss: seq<Stamp>, ts: u32)
    requires TrackOk(t, ss) && t.baseSet
    ensures var (t', ticks) := Tick(t, ts); TrackOk(t', ss + [Stamp(ts, ticks)]) && t'.baseSet
  {
    var (t', ticks) := Tick(t, ts);
    var more := ss + [Stamp(ts, ticks)];
    assert more[..|ss|] == ss;
    forall i: nat | i < |more| ensures TicksAt(t.base, more, i) {
      if i < |ss| {
        assert TicksAt(t.base, ss, i) && more[..i + 1] == ss[..i + 1];
      } else {
        assert more[..i + 1] == more;
      }
    }
  }

  lemma {:induction false} WriteAudioKeepsTime(cfg: Config, r: Recording, a: AudioPacket)
    requires TimeInv(r) && r.audio.baseSet
    ensures TimeInv(WriteAudio(cfg, r, a)) && WriteAudio(cfg, r, a).audio.baseSet
  {
    var x := WriteAudio(cfg, r, a).log[|r.log|];
    StampsSnoc(r.log, x, false);
    StampsSnoc(r.log, x, true);
    TickKeeps(r.audio, Stamps(r.log, false), a.timestamp);
  }

  lemma {:induction false} WriteAudiosKeepTime(cfg: Config, r: Recording, ps: seq<AudioPacket>)
    requires TimeInv(r) && (ps != [] ==> r.audio.baseSet)
    ensures TimeInv(WriteAudios(cfg, r, ps)) && (r.audio.baseSet ==> WriteAudios(cfg, r, ps).audio.baseSet)
  {
    if ps != [] {
      var n := |ps| - 1;
      WriteAudiosKeepTime(cfg, r, ps[..n]);
      WriteAudioKeepsTime(cfg, WriteAudios(cfg, r, ps[..n]), ps[n]);
    }
  }

  lemma {:induction false} WriteVideoKeepsTime(cfg: Config, r: Recording)
    requires TimeInv(r) && r.video.baseSet
    ensures TimeInv(WriteVideo(cfg, r)) && WriteVideo(cfg, r).video.baseSet
  {
    var x := WriteVideo(cfg, r).log[|r.log|];
    StampsSnoc(r.log, x, false);
    StampsSnoc(r.log, x, true);
    TickKeeps(r.video, Stamps(r.log, true), r.frame.ts);
  }

  lemma {:induction false} StartKeepsTime(cfg: Config, r: Recording)
    requires TimeInv(r) && |r.sps| >= 4
    ensures TimeInv(Start(cfg, r)) && Start(cfg, r).video == r.video
  {
    var header := Header(Extradata(r.sps, r.pps));
    var started := r.(deferred := false, log := r.log + [header]);
    StampsSnoc(r.log, header, false);
    StampsSnoc(r.log, header, true);
    WriteAudiosKeepTime(cfg, started, r.pending);
    WriteAudiosAppends(cfg, started, r.pending);
  }

  lemma {:induction false} FlushKeepsTime(cfg: Config, r: Recording)
    requires TimeInv(r) && r.video.baseSet
    ensures TimeInv(Flush(cfg, r)) && Flush(cfg, r).video.baseSet
  {
    if r.frame.bytes != [] && r.open {
      var f := r.(flushed := r.flushed + [r.frame.bytes]);
      if !r.deferred {
        WriteVideoKeepsTime(cfg, f);
      } else if r.frame.key && CanWriteHeader(r) && cfg.headerOk {
        StartKeepsTime(cfg, f);
        WriteVideoKeepsTime(cfg, Start(cfg, f));
      }
    }
  }

  lemma BasedKeeps(t: Track, ss: seq<Stamp>, ts: u32)
    requires TrackOk(t, ss)
    ensures TrackOk(Based(t, ts), ss) && Based(t, ts).baseSet
  {
  }

  lemma {:induction false} TakeVideoKeepsTime(cfg: Config, r: Recording, p: Packet)
    requires TimeInv(r)
    ensures TimeInv(TakeVideo(cfg, r, p))
  {
    var b := r.(video := Based(r.video, p.timestamp));
    BasedKeeps(r.video, Stamps(r.log, true), p.timestamp);
    var inv := (x: Recording) => TimeInv(x) && x.video.baseSet;
    forall x | inv(x) ensures inv(Flush(cfg, x)) { FlushKeepsTime(cfg, x); }
    forall x, f, s, q | inv(x) ensures inv(Collected(x, x.video, f, s, q)) {}
    assert inv(b);
    DepacketizeKeeps(cfg, inv, b, p);
  }

  lemma {:induction false} RecordingKeepsTime(cfg: Config, packets: seq<Packet>)
    ensures TimeInv(Record(cfg, packets))
  {
    if packets != [] {
      var n := |packets| - 1;
      RecordingKeepsTime(cfg, packets[..n]);
      var r, p := Record(cfg, packets[..n]), packets[n];
      if p.payloadType == cfg.audioPT {
        var a := AudioPacket(p.timestamp, p.payload);
        BasedKeeps(r.audio, Stamps(r.log, false), p.timestamp);
        var b := r.(audioIn := r.audioIn + [a], audio := Based(r.audio, p.timestamp));
        assert TimeInv(b);
        if !r.deferred { WriteAudioKeepsTime(cfg, b, a); }
      } else {
        TakeVideoKeepsTime(cfg, r, p);
      }
    }
  }

  lemma {:induction false} ClocksAgree(base: int, times: seq<int>, ss: seq<Stamp>)
    requires |times| == |ss| && forall j :: 0 <= j < |ss| ==> ss[j].timestamp == Low(times[j])
    ensures ClockAfter(Low(base), ss) == RunClock(base, times)
  {
    if ss != [] { ClocksAgree(base, times[..|ss| - 1], ss[..|ss| - 1]); }
  }

  /** The times are true for what was written: the low 32 bits of each are the timestamp. */
  ghost predicate TrueTimes(t: Track, ss: seq<Stamp>, base: int, times: seq<int>) {
    && |times| == |ss| && t.base == Low(base)
    && forall j :: 0 <= j < |ss| ==> ss[j].timestamp == Low(times[j])
  }

  /**
   Whatever the recording, the ticks written to a stream are the true distances from its first
   packet, for all true times less than half a cycle apart that do not drop below the base's cycle.
   */
  lemma {:induction false} WrittenTimesAreExact(cfg: Config, packets: seq<Packet>, video: bool, base: int, times: seq<int>, i: nat)
    requires var r := Record(cfg, packets);
             TrueTimes(if video then r.video else r.audio, Stamps(r.log, video), base, times)
    requires SmallSteps(base, times) && StaysInCycle(base, times)
    requires i < |times| && times[i] < CYCLE * (base / CYCLE) + U64
    ensures |Stamps(Record(cfg, packets).log, video)| == |times|
    ensures Stamps(Record(cfg, packets).log, video)[i].ticks == Max(0, times[i] - base)
  {
    var r := Record(cfg, packets);
    var t, ss := if video then r.video else r.audio, Stamps(r.log, video);
    RecordingKeepsTime(cfg, packets);
    assert TicksAt(t.base, ss, i);
    ClocksAgree(base, times[..i + 1], ss[..i + 1]);
    UnwrapIsExact(base, times, i + 1);
  }

  lemma {:induction false} AudioBaseIsFirst(cfg: Config, packets: seq<Packet>)
    ensures var r := Record(cfg, packets);
            r.audio.baseSet == (r.audioIn != []) && (r.audioIn != [] ==> r.audio.base == r.audioIn[0].timestamp)
  {
    if packets != [] {
      var n := |packets| - 1;
      AudioBaseIsFirst(cfg, packets[..n]);
      var r, p := Record(cfg, packets[..n]), packets[n];
      if p.payloadType != cfg.audioPT { VideoKeepsAudioBase(cfg, r, p); }
    }
  }

  lemma VideoKeepsAudioBase(cfg: Config, r: Recording, p: Packet)
    ensures var v := TakeVideo(cfg, r, p);
            v.audioIn == r.audioIn && v.audio.baseSet == r.audio.baseSet && v.audio.base == r.audio.base
  {
    var inv := (x: Recording) =>
      x.audioIn == r.audioIn && x.audio.baseSet == r.audio.baseSet && x.audio.base == r.audio.base;
    forall x | inv(x) ensures inv(Flush(cfg, x)) { FlushKeepsAudioBase(cfg, x); }
    TakeVideoKeeps(cfg, inv, r, p);
  }

  lemma FlushKeepsAudioBase(cfg: Config, r: Recording)
    ensures var f := Flush(cfg, r);
            f.audioIn == r.audioIn && f.audio.baseSet == r.audio.baseSet && f.audio.base == r.audio.base
  {
    if r.deferred && r.frame.key && CanWriteHeader(r) {
      var f := r.(flushed := r.flushed + [r.frame.bytes]);
      AudiosKeepBase(cfg, f.(deferred := false, log := f.log + [Header(Extradata(f.sps, f.pps))]), f.pending);
    }
  }

  lemma {:induction false} AudiosKeepBase(cfg: Config, r: Recording, ps: seq<AudioPacket>)
    ensures var w := WriteAudios(cfg, r, ps);
            w.audioIn == r.audioIn && w.audio.baseSet == r.audio.baseSet && w.audio.base == r.audio.base
  {
    if ps != [] { AudiosKeepBase(cfg, r, ps[..|ps| - 1]); }
  }

  /** Timestamps of the video packets. */
  function VideoStamps(cfg: Config, packets: seq<Packet>): seq<u32> {
    if packets == [] then []
    else
      var before, p := VideoStamps(cfg, packets[..|packets| - 1]), packets[|packets| - 1];
      if p.payloadType != cfg.audioPT && p.payloadType == cfg.videoPT then before + [p.timestamp] else before
  }

  lemma {:induction false} VideoBaseIsFirst(cfg: Config, packets: seq<Packet>)
    ensures var r, ts := Record(cfg, packets), VideoStamps(cfg, packets);
            r.video.baseSet == (ts != []) && (ts != [] ==> r.video.base == ts[0]) && (ts == [] ==> r.open)
  {
    if packets != [] {
      var n := |packets| - 1;
      VideoBaseIsFirst(cfg, packets[..n]);
      var r, p := Record(cfg, packets[..n]), packets[n];
      if r.open && p.payloadType != cfg.audioPT && p.payloadType == cfg.videoPT {
        VideoKeepsBase(cfg, r.(video := Based(r.video, p.timestamp)), p);
      }
    }
  }

  lemma VideoKeepsBase(cfg: Config, b: Recording, p: Packet)
    ensures var v := Depacketize(cfg, b, p).video; v.baseSet == b.video.baseSet && v.base == b.video.base
  {
    var inv := (x: Recording) => x.video.baseSet == b.video.baseSet && x.video.base == b.video.base;
    forall x | inv(x) ensures inv(Flush(cfg, x)) {
      if x.deferred && x.frame.key && CanWriteHeader(x) {
        var f := x.(flushed := x.flushed + [x.frame.bytes]);
        WriteAudiosAppends(cfg, f.(deferred := false, log := f.log + [Header(Extradata(f.sps, f.pps))]), f.pending);
      }
    }
    DepacketizeKeeps(cfg, inv, b, p);
  }

  // ---------------------------------------------------------------------------
  // The header
  // ---------------------------------------------------------------------------

  /** Not started and nothing written, or started with the parameter sets in force. */
  ghost predicate HeaderOk(r: Recording) {
    if r.deferred then r.log == []
    else CanWriteHeader(r) && r.log != [] && r.log[0] == Header(Extradata(r.sps, r.pps))
  }

  lemma FlushKeepsHeader(cfg: Config, r: Recording)
    requires HeaderOk(r)
    ensures HeaderOk(Flush(cfg, r))
  {
    if r.frame.bytes != [] && r.open {
      var f := r.(flushed := r.flushed + [r.frame.bytes]);
      if !r.deferred {
        WriteVideoKeepsHeader(cfg, f);
      } else if r.frame.key && CanWriteHeader(r) && cfg.headerOk {
        StartWritesHeader(cfg, f);
        WriteVideoKeepsHeader(cfg, Start(cfg, f));
      }
    }
  }

  lemma WriteVideoKeepsHeader(cfg: Config, r: Recording)
    requires HeaderOk(r) && !r.deferred
    ensures HeaderOk(WriteVideo(cfg, r)) && !WriteVideo(cfg, r).deferred
  {
    assert WriteVideo(cfg, r).log[0] == r.log[0];
  }

  lemma StartWritesHeader(cfg: Config, f: Recording)
    requires CanWriteHeader(f) && f.log == []
    ensures HeaderOk(Start(cfg, f)) && !Start(cfg, f).deferred
  {
    var header := Header(Extradata(f.sps, f.pps));
    var started := f.(deferred := false, log := f.log + [header]);
    assert started.log == [header];
    WriteAudiosAppends(cfg, started, f.pending);
    var w := WriteAudios(cfg, started, f.pending);
    assert w.log[..1] == [header] && w.log[0] == w.log[..1][0];
  }

  lemma FragmentKeepsHeader(cfg: Config, r: Recording, p: Packet)
    requires HeaderOk(r) && |p.payload| >= 2
    ensures HeaderOk(Fragment(cfg, r, p))
  {
    var header := p.payload[1];
    var b := if header >= 0x80 then StartFragmented(Flush(cfg, r), p.timestamp, p.payload[0], header) else r;
    FlushKeepsHeader(cfg, r);
    FlushKeepsHeader(cfg, b.(frame := b.frame.(bytes := b.frame.bytes + p.payload[2..])));
  }

  lemma SingleKeepsHeader(cfg: Config, r: Recording, p: Packet)
    requires HeaderOk(r) && r.deferred && p.payload != []
    ensures HeaderOk(SingleNal(cfg, r, p))
  {
    var f := if r.frame.bytes == [] then FrameBuffer([], p.timestamp, NalType(p.payload) == 5) else r.frame;
    FlushKeepsHeader(cfg, r.(frame := f.(bytes := f.bytes + (START_CODE + p.payload))));
  }

  /** The packet that starts the file writes the parameter sets in force after it. */
  lemma {:induction false} StartsWithCurrent(cfg: Config, r: Recording, p: Packet)
    requires HeaderOk(r) && r.deferred
    ensures HeaderOk(WritePacket(cfg, r, p))
  {
    if r.open && p.payloadType != cfg.audioPT && p.payloadType == cfg.videoPT && p.payload != [] {
      var b := r.(video := Based(r.video, p.timestamp));
      var nt := NalType(p.payload);
      if 1 <= nt <= 23 {
        SingleKeepsHeader(cfg, b, p);
      } else if nt == 28 && |p.payload| >= 2 {
        FragmentKeepsHeader(cfg, b, p);
      } else if nt == 24 {
        AggregateOnlyCollects(b, p, 1);
        FlushKeepsHeader(cfg, Aggregate(b, p, 1));
      }
    }
  }

  /** The last unit of the given type in a packet; `before` when the packet has none. */
  function LastIn(p: Packet, nt: nat, before: Nal): Nal {
    if p.payload == [] then before
    else if 1 <= NalType(p.payload) <= 23 then (if NalType(p.payload) == nt then p.payload else before)
    else if NalType(p.payload) == 24 then LastUnit(p, 1, nt, before)
    else before
  }

  /** The same among the units of an aggregation packet from `offset` on. */
  function LastUnit(p: Packet, offset: nat, nt: nat, before: Nal): Nal
    requires offset <= |p.payload|
    decreases |p.payload| - offset
  {
    var data := p.payload;
    if offset + 2 > |data| then before
    else
      var nalSize: nat := data[offset] as int * 256 + data[offset + 1];
      var at := offset + 2;
      if at + nalSize > |data| then before
      else
        var first: byte := if at < |data| then data[at] else p.beyond;
        LastUnit(p, at + nalSize, nt, if first % 32 == nt then data[at..at + nalSize] else before)
  }

  /** The last unit of the given type among the video packets, as single unit or aggregated; empty when there is none. */
  function LastReceived(cfg: Config, packets: seq<Packet>, nt: nat): Nal {
    if packets == [] then []
    else
      var before, p := LastReceived(cfg, packets[..|packets| - 1], nt), packets[|packets| - 1];
      if p.payloadType != cfg.audioPT && p.payloadType == cfg.videoPT then LastIn(p, nt, before) else before
  }

  ghost predicate HasSets(r: Recording, sps: Nal, pps: Nal) {
    r.sps == sps && r.pps == pps
  }

  lemma {:induction false} AggregateTakesSets(r: Recording, p: Packet, offset: nat)
    requires offset <= |p.payload|
    ensures HasSets(Aggregate(r, p, offset), LastUnit(p, offset, 7, r.sps), LastUnit(p, offset, 8, r.pps))
    decreases |p.payload| - offset
  {
    var data := p.payload;
    if offset + 2 <= |data| {
      var nalSize: nat := data[offset] as int * 256 + data[offset + 1];
      if offset + 2 + nalSize <= |data| {
        var added := AddUnitAt(r, p, offset + 2, nalSize);
        assert Aggregate(r, p, offset) == Aggregate(added, p, offset + 2 + nalSize) by { AggregateOne(r, p, offset, nalSize); }
        AggregateTakesSets(added, p, offset + 2 + nalSize);
      }
    }
  }

  lemma {:induction false} FlushKeepsSets(cfg: Config, r: Recording)
    ensures HasSets(Flush(cfg, r), r.sps, r.pps)
  {
    if r.deferred && r.frame.key && CanWriteHeader(r) {
      var f := r.(flushed := r.flushed + [r.frame.bytes]);
      WriteAudiosAppends(cfg, f.(deferred := false, log := f.log + [Header(Extradata(f.sps, f.pps))]), f.pending);
    }
  }

  lemma {:induction false} VideoTakesSets(cfg: Config, r: Recording, p: Packet)
    ensures HasSets(Depacketize(cfg, r, p), LastIn(p, 7, r.sps), LastIn(p, 8, r.pps))
  {
    if p.payload != [] {
      var nt := NalType(p.payload);
      if 1 <= nt <= 23 {
        var f := if r.frame.bytes == [] then FrameBuffer([], p.timestamp, nt == 5) else r.frame;
        FlushKeepsSets(cfg, r.(frame := f.(bytes := f.bytes + (START_CODE + p.payload))));
      } else if nt == 28 && |p.payload| >= 2 {
        var header := p.payload[1];
        var b := if header >= 0x80 then StartFragmented(Flush(cfg, r), p.timestamp, p.payload[0], header) else r;
        FlushKeepsSets(cfg, r);
        FlushKeepsSets(cfg, b.(frame := b.frame.(bytes := b.frame.bytes + p.payload[2..])));
      } else if nt == 24 {
        AggregateTakesSets(r, p, 1);
        FlushKeepsSets(cfg, Aggregate(r, p, 1));
      }
    }
  }

  /** As long as the recording is open, its parameter sets are the last ones received. */
  lemma {:induction false} SetsAreLatest(cfg: Config, packets: seq<Packet>)
    requires Record(cfg, packets).open
    ensures HasSets(Record(cfg, packets), LastReceived(cfg, packets, 7), LastReceived(cfg, packets, 8))
  {
    if packets != [] {
      var n := |packets| - 1;
      var r, p := Record(cfg, packets[..n]), packets[n];
      assert r.open;
      SetsAreLatest(cfg, packets[..n]);
      if p.payloadType != cfg.audioPT && p.payloadType == cfg.videoPT {
        VideoTakesSets(cfg, r.(video := Based(r.video, p.timestamp)), p);
      }
    }
  }

  /** A started recording is open. */
  lemma {:induction false} StartedIsOpen(cfg: Config, packets: seq<Packet>)
    ensures Record(cfg, packets).deferred || Record(cfg, packets).open
  {
    if packets != [] {
      var n := |packets| - 1;
      StartedIsOpen(cfg, packets[..n]);
      var r, p := Record(cfg, packets[..n]), packets[n];
      if p.payloadType != cfg.audioPT {
        var inv := (x: Recording) => x.deferred || x.open;
        forall x | inv(x) ensures inv(Flush(cfg, x)) { FlushKeepsOpen(cfg, x); }
        TakeVideoKeeps(cfg, inv, r, p);
      }
    }
  }

  lemma FlushKeepsOpen(cfg: Config, r: Recording)
    requires r.deferred || r.open
    ensures Flush(cfg, r).deferred || Flush(cfg, r).open
  {
    if r.open && r.deferred && r.frame.key && CanWriteHeader(r) {
      var f := r.(flushed := r.flushed + [r.frame.bytes]);
      WriteAudiosAppends(cfg, f.(deferred := false, log := f.log + [Header(Extradata(f.sps, f.pps))]), f.pending);
    }
  }

  lemma FlushGrows(cfg: Config, r: Recording)
    ensures r.log <= Flush(cfg, r).log && (!r.deferred ==> !Flush(cfg, r).deferred)
  {
    if r.deferred && r.frame.key && CanWriteHeader(r) {
      var f := r.(flushed := r.flushed + [r.frame.bytes]);
      var started := f.(deferred := false, log := f.log + [Header(Extradata(f.sps, f.pps))]);
      WriteAudiosAppends(cfg, started, f.pending);
      assert started.log[..|r.log|] == r.log;
    }
  }

  lemma {:induction false} LogGrows(cfg: Config, r: Recording, p: Packet)
    ensures r.log <= WritePacket(cfg, r, p).log && (!r.deferred ==> !WritePacket(cfg, r, p).deferred)
  {
    if p.payloadType == cfg.audioPT {
      WriteAudioAppends(cfg, r.(audioIn := r.audioIn + [AudioPacket(p.timestamp, p.payload)], audio := Based(r.audio, p.timestamp)), AudioPacket(p.timestamp, p.payload));
    } else {
      var inv := (x: Recording) => r.log <= x.log && (!r.deferred ==> !x.deferred);
      forall x | inv(x) ensures inv(Flush(cfg, x)) { FlushGrows(cfg, x); }
      TakeVideoKeeps(cfg, inv, r, p);
    }
  }

  /**
   A started recording begins with the header that its opening packet wrote, and that header
   carries the last SPS and the last PPS among the packets up to that one.
   */
  lemma {:induction false} HeaderIsLatest(cfg: Config, packets: seq<Packet>) returns (n: nat)
    requires !Record(cfg, packets).deferred
    ensures n < |packets| && Record(cfg, packets[..n]).deferred && !Record(cfg, packets[..n + 1]).deferred
    ensures var q, log := Record(cfg, packets[..n + 1]), Record(cfg, packets).log;
            && CanWriteHeader(q) && log != [] && log[0] == Header(Extradata(q.sps, q.pps))
            && HasSets(q, LastReceived(cfg, packets[..n + 1], 7), LastReceived(cfg, packets[..n + 1], 8))
            && (|q.sps| < 0x1_0000 && |q.pps| < 0x1_0000 ==> ParameterSetsOf(log[0].extradata) == (q.sps, q.pps))
  {
    var m := |packets| - 1;
    var before := packets[..m];
    if Record(cfg, before).deferred {
      n := m;
      assert packets[..m + 1] == packets;
      EveryRecordingIsSound(cfg, before);
      StartsWithCurrent(cfg, Record(cfg, before), packets[m]);
    } else {
      n := HeaderIsLatest(cfg, before);
      assert before[..n] == packets[..n] && before[..n + 1] == packets[..n + 1];
      LogGrows(cfg, Record(cfg, before), packets[m]);
    }
    var q := Record(cfg, packets[..n + 1]);
    StartedIsOpen(cfg, packets[..n + 1]);
    SetsAreLatest(cfg, packets[..n + 1]);
    if |q.sps| < 0x1_0000 && |q.pps| < 0x1_0000 { HeaderCarriesParameterSets(q.sps, q.pps); }
  }
}
