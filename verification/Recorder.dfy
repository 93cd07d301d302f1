/**
 The per-peer recorder on an H.264 recording: depacketizing, the header that waits for the first
 usable key frame, buffered audio, and the frames handed to the muxer. `Recording` is the state
 and `WritePacket` the specification of one packet; `PeerRecorder` is the object itself.
 */
module Recorder {
  import opened Bytes
  import opened Timestamps
  import opened H264

  const MAX_PENDING_AUDIO: nat := 500

  /** A parsed RTP packet. `beyond` is the byte that follows the payload in the receive buffer. */
  datatype Packet = Packet(payloadType: byte, timestamp: u32, marker: bool, payload: seq<byte>, beyond: byte)

  datatype AudioPacket = AudioPacket(timestamp: u32, data: seq<byte>)

  /** What the muxer is asked to write; `ticks` is the unwrapped time before rescaling. */
  datatype Output =
    | Header(extradata: seq<byte>)
    | Audio(ticks: nat, pts: int, packet: AudioPacket)
    | Video(timestamp: u32, ticks: nat, pts: int, data: seq<byte>, key: bool)
    | Trailer

  /** Payload types, the muxer's time-base conversions, and whether writing the header will succeed. */
  datatype Config = Config(
    audioPT: byte, videoPT: byte, audioScale: nat -> int, videoScale: nat -> int, headerOk: bool)

  /** Time keeping of one stream: its first timestamp and the unwrapping clock. */
  datatype Track = Track(base: u32, baseSet: bool, clock: Clock)

  /** The frame being collected. */
  datatype FrameBuffer = FrameBuffer(bytes: seq<byte>, ts: u32, key: bool)

  /**
   `open` is false once the muxer is gone. `log` is everything written, `flushed` every frame
   buffer handed to flushVideoFrame, and `audioIn` every audio packet that reached the muxer.
   */
  datatype Recording = Recording(
    open: bool, deferred: bool,
    pending: seq<AudioPacket>, drops: nat,
    audio: Track, video: Track, lastPts: int,
    frame: FrameBuffer, sps: Nal, pps: Nal,
    log: seq<Output>, flushed: seq<seq<byte>>, audioIn: seq<AudioPacket>)

  const UNSET := Track(0, false, Clock(0, 0))
  const FRESH := Recording(true, true, [], 0, UNSET, UNSET, -1, FrameBuffer([], 0, false), [], [], [], [], [])

  /** The track once its first packet has set the base. */
  function Based(t: Track, ts: u32): Track {
    if t.baseSet then t else Track(ts, true, Clock(ts, t.clock.wraps))
  }

  /** The track after a timestamp has been unwrapped, and the ticks that gives. */
  function Tick(t: Track, ts: u32): (Track, nat) {
    var clock := Advance(t.clock, ts);
    (t.(clock := clock), Elapsed(clock, t.base))
  }

  function Clamp(pts: int): nat {
    if pts < 0 then 0 else pts
  }

  // ---------------------------------------------------------------------------
  // Writing
  // ---------------------------------------------------------------------------

  /** AVCDecoderConfigurationRecord with one SPS and one PPS. */
  function Extradata(sps: Nal, pps: Nal): seq<byte>
    requires |sps| >= 4
  {
    [1, sps[1], sps[2], sps[3], 0xFF, 0xE1, |sps| / 256 % 256, |sps| % 256] + sps
    + ([1, |pps| / 256 % 256, |pps| % 256] + pps)
  }

  predicate CanWriteHeader(r: Recording) {
    |r.sps| >= 4 && r.pps != []
  }

  function WriteAudio(cfg: Config, r: Recording, p: AudioPacket): Recording {
    var (track, ticks) := Tick(r.audio, p.timestamp);
    r.(audio := track, log := r.log + [Audio(ticks, Clamp(cfg.audioScale(ticks)), p)])
  }

  function WriteAudios(cfg: Config, r: Recording, ps: seq<AudioPacket>): Recording {
    if ps == [] then r
    else WriteAudio(cfg, WriteAudios(cfg, r, ps[..|ps| - 1]), ps[|ps| - 1])
  }

  function WriteVideo(cfg: Config, r: Recording): Recording {
    var (track, ticks) := Tick(r.video, r.frame.ts);
    var pts := RepairPts(r.lastPts, Clamp(cfg.videoScale(ticks)));
    r.(video := track, lastPts := pts, frame := r.frame.(bytes := []),
       log := r.log + [Video(r.frame.ts, ticks, pts, Avcc(r.frame.bytes), r.frame.key)])
  }

  /** flushVideoFrame. */
  function Flush(cfg: Config, r: Recording): Recording {
    if r.frame.bytes == [] || !r.open then r
    else
      var f := r.(flushed := r.flushed + [r.frame.bytes]);
      if !r.deferred then WriteVideo(cfg, f)
      else if !r.frame.key || !CanWriteHeader(r) then f.(frame := r.frame.(bytes := []))
      else if !cfg.headerOk then f.(frame := r.frame.(bytes := []), open := false)
      else WriteVideo(cfg, Start(cfg, f))
  }

  /** The header, then the buffered audio. */
  function Start(cfg: Config, r: Recording): Recording
    requires |r.sps| >= 4
  {
    var started := r.(deferred := false, log := r.log + [Header(Extradata(r.sps, r.pps))]);
    WriteAudios(cfg, started, r.pending).(pending := [])
  }

  // ---------------------------------------------------------------------------
  // Depacketizing
  // ---------------------------------------------------------------------------

  function FlushIf(cfg: Config, r: Recording, now: bool): Recording {
    if now then Flush(cfg, r) else r
  }

  /** One unit of an aggregation packet; `nt` is its type. */
  function AddAggregated(r: Recording, ts: u32, nt: nat, nal: Nal): Recording {
    if nt == 7 then r.(sps := nal)
    else if nt == 8 then r.(pps := nal)
    else
      var f := r.frame;
      r.(frame := FrameBuffer(f.bytes + (START_CODE + nal), if f.bytes == [] then ts else f.ts, f.key || nt == 5))
  }

  function Aggregate(r: Recording, p: Packet, offset: nat): Recording
    requires offset <= |p.payload|
    decreases |p.payload| - offset
  {
    var data := p.payload;
    if offset + 2 > |data| then r
    else
      var nalSize: nat := data[offset] as int * 256 + data[offset + 1];
      var at := offset + 2;
      if at + nalSize > |data| then r
      else Aggregate(AddUnitAt(r, p, at, nalSize), p, at + nalSize)
  }

  /** The unit of `nalSize` bytes at `at`; the type of an empty last unit is read from the byte after the payload. */
  function AddUnitAt(r: Recording, p: Packet, at: nat, nalSize: nat): Recording
    requires at + nalSize <= |p.payload|
  {
    var first: byte := if at < |p.payload| then p.payload[at] else p.beyond;
    AddAggregated(r, p.timestamp, first % 32, p.payload[at..at + nalSize])
  }

  lemma AggregateDone(r: Recording, p: Packet, offset: nat)
    requires offset <= |p.payload|
    requires offset + 2 <= |p.payload| ==>
               offset + 2 + (p.payload[offset] as int * 256 + p.payload[offset + 1]) > |p.payload|
    ensures Aggregate(r, p, offset) == r
  {
  }

  lemma AggregateOne(r: Recording, p: Packet, offset: nat, nalSize: nat)
    requires offset + 2 + nalSize <= |p.payload|
    requires nalSize == p.payload[offset] as int * 256 + p.payload[offset + 1]
    ensures Aggregate(r, p, offset) == Aggregate(AddUnitAt(r, p, offset + 2, nalSize), p, offset + 2 + nalSize)
  {
  }

  function SingleNal(cfg: Config, r: Recording, p: Packet): Recording
    requires p.payload != []
  {
    var nt := NalType(p.payload);
    if nt == 7 then r.(sps := p.payload)
    else if nt == 8 then r.(pps := p.payload)
    else
      var f := if r.frame.bytes == [] then FrameBuffer([], p.timestamp, nt == 5) else r.frame;
      FlushIf(cfg, r.(frame := f.(bytes := f.bytes + (START_CODE + p.payload))), p.marker)
  }

  function Fragment(cfg: Config, r: Recording, p: Packet): Recording
    requires |p.payload| >= 2
  {
    var indicator, header := p.payload[0], p.payload[1];
    var begun := if header >= 0x80 then StartFragmented(Flush(cfg, r), p.timestamp, indicator, header) else r;
    var f := begun.frame;
    FlushIf(cfg, begun.(frame := f.(bytes := f.bytes + p.payload[2..])), header / 0x40 % 2 == 1 || p.marker)
  }

  function StartFragmented(r: Recording, ts: u32, indicator: byte, header: byte): Recording {
    var nalHeader: byte := indicator - indicator % 32 + header % 32;
    r.(frame := FrameBuffer(r.frame.bytes + (START_CODE + [nalHeader]), ts, header % 32 == 5))
  }

  /** depacketizeH264. */
  function Depacketize(cfg: Config, r: Recording, p: Packet): Recording {
    if p.payload == [] then r
    else
      var nt := NalType(p.payload);
      if 1 <= nt <= 23 then SingleNal(cfg, r, p)
      else if nt == 28 then
        if |p.payload| < 2 then r else Fragment(cfg, r, p)
      else if nt == 24 then FlushIf(cfg, Aggregate(r, p, 1), p.marker)
      else r
  }

  function TakeAudio(cfg: Config, r: Recording, p: Packet): Recording {
    var a := AudioPacket(p.timestamp, p.payload);
    var b := r.(audioIn := r.audioIn + [a], audio := Based(r.audio, p.timestamp));
    if !r.deferred then WriteAudio(cfg, b, a)
    else if |r.pending| < MAX_PENDING_AUDIO then b.(pending := r.pending + [a])
    else b.(drops := r.drops + 1)
  }

  function TakeVideo(cfg: Config, r: Recording, p: Packet): Recording {
    Depacketize(cfg, r.(video := Based(r.video, p.timestamp)), p)
  }

  /** writePacket. */
  function WritePacket(cfg: Config, r: Recording, p: Packet): Recording {
    if !r.open then r
    else if p.payloadType == cfg.audioPT then TakeAudio(cfg, r, p)
    else if p.payloadType == cfg.videoPT then TakeVideo(cfg, r, p)
    else r
  }

  /** finalizeMuxer. */
  function Finalize(cfg: Config, r: Recording): Recording {
    if !r.open then r
    else
      var f := Flush(cfg, r);
      f.(open := false, log := if f.deferred then f.log else f.log + [Trailer])
  }

  function Record(cfg: Config, packets: seq<Packet>): Recording {
    if packets == [] then FRESH
    else WritePacket(cfg, Record(cfg, packets[..|packets| - 1]), packets[|packets| - 1])
  }

  // ---------------------------------------------------------------------------
  // The object
  // ---------------------------------------------------------------------------

  class PeerRecorder {
    const cfg: Config
    var outputOpen: bool
    var headerDeferred: bool
    var pendingAudio: seq<AudioPacket>
    var pendingAudioDrops: nat
    var audio: Track
    var video: Track
    var videoLastPts: int
    var frame: FrameBuffer
    var h264Sps: Nal
    var h264Pps: Nal
    var log: seq<Output>
    ghost var flushed: seq<seq<byte>>
    ghost var audioIn: seq<AudioPacket>

    ghost function View(): Recording
      reads this
    {
      Recording(outputOpen, headerDeferred, pendingAudio, pendingAudioDrops, audio, video, videoLastPts,
                frame, h264Sps, h264Pps, log, flushed, audioIn)
    }

    constructor (cfg: Config)
      ensures this.cfg == cfg && View() == FRESH
    {
      this.cfg := cfg;
      outputOpen, headerDeferred := true, true;
      pendingAudio, pendingAudioDrops := [], 0;
      audio, video, videoLastPts, frame := UNSET, UNSET, -1, FrameBuffer([], 0, false);
      h264Sps, h264Pps, log, flushed, audioIn := [], [], [], [], [];
    }

    method WriteAudioPacket(ts: u32, data: seq<byte>)
      modifies this`audio, this`log
      ensures View() == WriteAudio(cfg, old(View()), AudioPacket(ts, data))
      ensures |log| == |old(log)| + 1 && log[..|old(log)|] == old(log)
      ensures var x := log[|old(log)|];
              x.Audio? && x.packet == AudioPacket(ts, data) && x.pts == Max(0, cfg.audioScale(x.ticks))
    {
      var ticks, lastTs, wrapCount := UnwrapTimestamp(ts, audio.base, audio.clock.last, audio.clock.wraps);
      audio := audio.(clock := Clock(lastTs, wrapCount));
      log := log + [Audio(ticks, Clamp(cfg.audioScale(ticks)), AudioPacket(ts, data))];
    }

    /** commitDeferredHeader with a healthy muxer, then the buffered audio. */
    method StartOutput()
      requires |h264Sps| >= 4
      modifies this`log, this`headerDeferred, this`audio, this`pendingAudio
      ensures View() == Start(cfg, old(View()))
    {
      log := log + [Header(Extradata(h264Sps, h264Pps))];
      headerDeferred := false;
      ghost var started := View();
      for i := 0 to |pendingAudio|
        invariant pendingAudio == old(pendingAudio)
        invariant View() == WriteAudios(cfg, started, pendingAudio[..i])
      {
        assert pendingAudio[..i + 1][..i] == pendingAudio[..i];
        WriteAudioPacket(pendingAudio[i].timestamp, pendingAudio[i].data);
      }
      assert pendingAudio[..|pendingAudio|] == pendingAudio;
      pendingAudio := [];
    }

    method WriteFrame()
      modifies this`video, this`videoLastPts, this`frame, this`log
      ensures View() == WriteVideo(cfg, old(View()))
    {
      var data := AnnexBToAvcc(frame.bytes);
      var ticks, lastTs, wrapCount := UnwrapTimestamp(frame.ts, video.base, video.clock.last, video.clock.wraps);
      var pts: int := Clamp(cfg.videoScale(ticks));
      if videoLastPts != -1 && pts <= videoLastPts {
        pts := videoLastPts + 1;
      }
      video, videoLastPts := video.(clock := Clock(lastTs, wrapCount)), pts;
      log, frame := log + [Video(frame.ts, ticks, pts, data, frame.key)], frame.(bytes := []);
    }

    method FlushVideoFrame()
      modifies this
      ensures View() == Flush(cfg, old(View()))
    {
      if frame.bytes == [] || !outputOpen { return; }
      flushed := flushed + [frame.bytes];
      if headerDeferred {
        if !frame.key || |h264Sps| < 4 || h264Pps == [] {
          frame := frame.(bytes := []);
          return;
        }
        if !cfg.headerOk {
          outputOpen, frame := false, frame.(bytes := []);
          return;
        }
        StartOutput();
      }
      WriteFrame();
    }

    method DepacketizeSingle(p: Packet)
      requires p.payload != []
      modifies this
      ensures View() == SingleNal(cfg, old(View()), p)
    {
      var nalType := p.payload[0] % 32;
      if nalType == 7 {
        h264Sps := p.payload;
      } else if nalType == 8 {
        h264Pps := p.payload;
      } else {
        if frame.bytes == [] {
          frame := FrameBuffer([], p.timestamp, nalType == 5);
        }
        frame := frame.(bytes := frame.bytes + (START_CODE + p.payload));
        if p.marker { FlushVideoFrame(); }
      }
    }

    method DepacketizeFragment(p: Packet)
      requires |p.payload| >= 2
      modifies this
      ensures View() == Fragment(cfg, old(View()), p)
    {
      var fuHeader := p.payload[1];
      if fuHeader >= 0x80 { BeginFragmented(p.timestamp, p.payload[0], fuHeader); }
      frame := frame.(bytes := frame.bytes + p.payload[2..]);
      if fuHeader / 0x40 % 2 == 1 || p.marker { FlushVideoFrame(); }
    }

    method BeginFragmented(ts: u32, fuIndicator: byte, fuHeader: byte)
      modifies this
      ensures View() == StartFragmented(Flush(cfg, old(View())), ts, fuIndicator, fuHeader)
    {
      if frame.bytes != [] { FlushVideoFrame(); }
      var nalHeader: byte := fuIndicator - fuIndicator % 32 + fuHeader % 32;
      frame := FrameBuffer(frame.bytes + (START_CODE + [nalHeader]), ts, fuHeader % 32 == 5);
    }

    method DepacketizeAggregate(p: Packet)
      requires p.payload != []
      modifies this
      ensures View() == FlushIf(cfg, Aggregate(old(View()), p, 1), p.marker)
    {
      CollectUnits(p);
      if p.marker && frame.bytes != [] { FlushVideoFrame(); }
    }

    method CollectUnits(p: Packet)
      requires p.payload != []
      modifies this`frame, this`h264Sps, this`h264Pps
      ensures View() == Aggregate(old(View()), p, 1)
    {
      var offset := 1;
      ghost var all := Aggregate(View(), p, 1);
      while offset + 2 <= |p.payload|
        invariant offset <= |p.payload|
        invariant all == Aggregate(View(), p, offset)
      {
        var nalSize := p.payload[offset] as int * 256 + p.payload[offset + 1];
        if offset + 2 + nalSize > |p.payload| {
          AggregateDone(View(), p, offset);
          return;
        }
        AggregateOne(View(), p, offset, nalSize);
        AddUnit(p, offset + 2, nalSize);
        offset := offset + 2 + nalSize;
      }
      AggregateDone(View(), p, offset);
    }

    method AddUnit(p: Packet, offset: nat, nalSize: nat)
      requires offset + nalSize <= |p.payload|
      modifies this`frame, this`h264Sps, this`h264Pps
      ensures View() == AddUnitAt(old(View()), p, offset, nalSize)
    {
      var first: byte := if offset < |p.payload| then p.payload[offset] else p.beyond;
      var nt := first % 32;
      if nt == 7 {
        h264Sps := p.payload[offset..offset + nalSize];
      } else if nt == 8 {
        h264Pps := p.payload[offset..offset + nalSize];
      } else {
        if nt == 5 { frame := frame.(key := true); }
        if frame.bytes == [] { frame := frame.(ts := p.timestamp); }
        frame := frame.(bytes := frame.bytes + (START_CODE + p.payload[offset..offset + nalSize]));
      }
    }

    method DepacketizeH264(p: Packet)
      modifies this
      ensures View() == Depacketize(cfg, old(View()), p)
    {
      if |p.payload| < 1 { return; }
      var nalType := p.payload[0] % 32;
      if 1 <= nalType <= 23 {
        DepacketizeSingle(p);
      } else if nalType == 28 {
        if |p.payload| < 2 { return; }
        DepacketizeFragment(p);
      } else if nalType == 24 {
        DepacketizeAggregate(p);
      }
    }

    method WriteRtpPacket(p: Packet)
      modifies this
      ensures View() == WritePacket(cfg, old(View()), p)
    {
      if !outputOpen { return; }
      if p.payloadType == cfg.audioPT {
        TakeAudioPacket(p);
      } else if p.payloadType == cfg.videoPT {
        if !video.baseSet {
          video := Track(p.timestamp, true, Clock(p.timestamp, video.clock.wraps));
        }
        DepacketizeH264(p);
      }
    }

    method TakeAudioPacket(p: Packet)
      modifies this`audioIn, this`audio, this`pendingAudio, this`pendingAudioDrops, this`log
      ensures View() == TakeAudio(cfg, old(View()), p)
    {
      audioIn := audioIn + [AudioPacket(p.timestamp, p.payload)];
      if !audio.baseSet {
        audio := Track(p.timestamp, true, Clock(p.timestamp, audio.clock.wraps));
      }
      if !headerDeferred {
        WriteAudioPacket(p.timestamp, p.payload);
      } else if |pendingAudio| < MAX_PENDING_AUDIO {
        pendingAudio := pendingAudio + [AudioPacket(p.timestamp, p.payload)];
      } else {
        pendingAudioDrops := pendingAudioDrops + 1;
      }
    }

    method FinalizeMuxer()
      modifies this
      ensures View() == Finalize(cfg, old(View()))
    {
      if !outputOpen { return; }
      FlushVideoFrame();
      if !headerDeferred { log := log + [Trailer]; }
      outputOpen := false;
    }
  }
}
