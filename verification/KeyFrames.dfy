/**
 What the key flag of the recorder is worth: when the frame that opens the file holds an IDR
 unit, and exactly when it need not.
 */
module KeyFrames {
  import opened Bytes
  import opened Timestamps
  import opened H264
  import opened Recorder
  import opened RecorderLaws

  predicate IsIdr(nal: Nal) {
    nal != [] && NalType(nal) == 5
  }

  /** A start code at position i, followed by the first byte of an IDR unit. */
  predicate IdrAt(b: seq<byte>, i: nat) {
    i + 4 < |b| && b[i..i + 4] == START_CODE && b[i + 4] % 32 == 5
  }

  ghost predicate HasIdr(b: seq<byte>) {
    exists i: nat :: IdrAt(b, i)
  }

  /** A buffer with an IDR unit; `first` asks for it at the very front. */
  ghost predicate Marked(first: bool, b: seq<byte>) {
    if first then IdrAt(b, 0) else HasIdr(b)
  }

  lemma MarkedPrefix(first: bool, b: seq<byte>, more: seq<byte>)
    requires Marked(first, b)
    ensures Marked(first, b + more)
  {
    var i: nat :| IdrAt(b, i) && (first ==> i == 0);
    assert (b + more)[i..i + 4] == b[i..i + 4];
    assert IdrAt(b + more, i);
  }

  lemma MarkedUnit(first: bool, b: seq<byte>, nal: Nal)
    requires IsIdr(nal) && (first ==> b == [])
    ensures Marked(first, b + (START_CODE + nal))
  {
    var c := b + (START_CODE + nal);
    assert c[|b|..|b| + 4] == START_CODE && c[|b| + 4] == nal[0];
    assert IdrAt(c, |b|);
  }

  // ---------------------------------------------------------------------------
  // The flag is true to the buffer
  // ---------------------------------------------------------------------------

  /** The key flag of the frame being collected is true to its units, and so was that of the first frame written. */
  ghost predicate KeyInv(first: bool, r: Recording) {
    && (r.frame.key && r.frame.bytes != [] ==> Marked(first, r.frame.bytes))
    && FirstIsMarked(first, Videos(r.log), r.flushed)
  }

  ghost predicate FirstIsMarked(first: bool, vs: seq<Output>, flushed: seq<seq<byte>>) {
    vs != [] ==> |vs| <= |flushed| && Marked(first, flushed[|flushed| - |vs|])
  }

  /** Between frames, with the flag still up from the frame before: no flush lowers it. */
  predicate FlagLeftUp(r: Recording) {
    r.frame.bytes == [] && r.frame.key
  }

  /** The byte from which the type of an aggregated unit is read: its own first byte, or what follows when it has none. */
  function TypeByte(p: Packet, at: nat): byte {
    if at < |p.payload| then p.payload[at] else p.beyond
  }

  /** From `offset` on, no empty unit of an aggregation packet is read as an IDR unit. */
  predicate TruthfulUnits(p: Packet, offset: nat)
    requires offset <= |p.payload|
    decreases |p.payload| - offset
  {
    var data := p.payload;
    offset + 2 <= |data| ==>
      var nalSize: nat := data[offset] as int * 256 + data[offset + 1];
      var at := offset + 2;
      at + nalSize <= |data| ==> (nalSize == 0 ==> TypeByte(p, at) % 32 != 5) && TruthfulUnits(p, at + nalSize)
  }

  predicate IsAggregate(p: Packet) {
    p.payload != [] && NalType(p.payload) == 24
  }

  /** A piece of a fragmented unit that does not start it. */
  predicate IsLaterPiece(p: Packet) {
    |p.payload| >= 2 && NalType(p.payload) == 28 && p.payload[1] < 0x80
  }

  /**
   A packet that cannot spoil the flag of a recording that is not started: no empty aggregated
   unit is read as an IDR unit; and while the flag is left up, an aggregation packet begins no
   frame or puts an IDR unit into it, and a later piece brings no byte. Once the recording is
   started, or for audio, any packet will do.
   */
  ghost predicate KeepsFlagTrue(cfg: Config, r: Recording, p: Packet) {
    !r.deferred || p.payloadType == cfg.audioPT ||
    ((IsAggregate(p) ==> TruthfulUnits(p, 1) && (FlagLeftUp(r) ==> EmptyOrIdr(Aggregate(r, p, 1).frame.bytes)))
     && (IsLaterPiece(p) && FlagLeftUp(r) ==> |p.payload| == 2))
  }

  ghost predicate EmptyOrIdr(b: seq<byte>) {
    b == [] || HasIdr(b)
  }

  lemma {:induction false} OpensFile(cfg: Config, g: Recording)
    requires cfg.headerOk && RunInv(cfg, g) && g.open && g.deferred && g.frame.key && g.frame.bytes != [] && CanWriteHeader(g)
    ensures var r := Flush(cfg, g);
            && !r.deferred && r.flushed == g.flushed + [g.frame.bytes]
            && |Videos(r.log)| == 1 && Videos(r.log)[0].key && Videos(r.log)[0].data == Avcc(g.frame.bytes)
  {
    StartKeeps(cfg, g);
    var f := g.(flushed := g.flushed + [g.frame.bytes]);
    StartIgnoresFlushed(cfg, g, f.flushed);
    var s := Start(cfg, f);
    Snoc(s.log, WriteVideo(cfg, s).log[|s.log|]);
  }

  lemma {:induction false} FlushKeepsKey(cfg: Config, first: bool, r: Recording)
    requires RunInv(cfg, r) && KeyInv(first, r) && r.open
    ensures KeyInv(first, Flush(cfg, r))
  {
    if r.frame.bytes != [] {
      var f := r.(flushed := r.flushed + [r.frame.bytes]);
      if !r.deferred {
        Snoc(r.log, WriteVideo(cfg, f).log[|r.log|]);
      } else if r.frame.key && CanWriteHeader(r) && cfg.headerOk {
        OpensFile(cfg, r);
        FlushEmpties(cfg, r);
      }
    }
  }

  /** A frame that is true to its flag, flushed or not. */
  lemma {:induction false} FrameKeepsKey(cfg: Config, first: bool, r: Recording, frame: FrameBuffer, sps: Nal, pps: Nal, now: bool)
    requires RunInv(cfg, r) && KeyInv(first, r) && r.open
    requires frame.key && frame.bytes != [] ==> Marked(first, frame.bytes)
    ensures KeyInv(first, FlushIf(cfg, Collected(r, r.video, frame, sps, pps), now))
  {
    var g := Collected(r, r.video, frame, sps, pps);
    assert RunInv(cfg, g) by { CollectedKeeps(cfg, r, r.video, frame, sps, pps); }
    FlushKeepsKey(cfg, first, g);
  }

  lemma {:induction false} SingleKeepsKey(cfg: Config, first: bool, r: Recording, p: Packet)
    requires RunInv(cfg, r) && KeyInv(first, r) && r.open && p.payload != []
    ensures KeyInv(first, SingleNal(cfg, r, p))
  {
    var nt := NalType(p.payload);
    if nt != 7 && nt != 8 {
      var f := if r.frame.bytes == [] then FrameBuffer([], p.timestamp, nt == 5) else r.frame;
      var g := f.(bytes := f.bytes + (START_CODE + p.payload));
      assert g.key ==> Marked(first, g.bytes) by {
        if g.key {
          if r.frame.bytes == [] {
            MarkedUnit(first, [], p.payload);
          } else {
            MarkedPrefix(first, r.frame.bytes, START_CODE + p.payload);
          }
        }
      }
      FrameKeepsKey(cfg, first, r, g, r.sps, r.pps, p.marker);
    }
  }

  lemma {:induction false} StartKeepsKey(cfg: Config, first: bool, r: Recording, ts: u32, indicator: byte, header: byte)
    requires RunInv(cfg, r) && KeyInv(first, r) && r.open
    ensures var b := StartFragmented(Flush(cfg, r), ts, indicator, header);
            RunInv(cfg, b) && KeyInv(first, b) && b.frame.bytes != []
  {
    var f := Flush(cfg, r);
    assert RunInv(cfg, f) && KeyInv(first, f) && f.frame.bytes == [] by {
      FlushKeeps(cfg, r);
      FlushKeepsKey(cfg, first, r);
      FlushEmpties(cfg, r);
    }
    FreshFragment(cfg, first, f, ts, indicator, header);
  }

  lemma {:induction false} FreshFragment(cfg: Config, first: bool, f: Recording, ts: u32, indicator: byte, header: byte)
    requires RunInv(cfg, f) && KeyInv(first, f) && f.frame.bytes == []
    ensures var b := StartFragmented(f, ts, indicator, header);
            RunInv(cfg, b) && KeyInv(first, b) && b.frame.bytes != []
  {
    var b := StartFragmented(f, ts, indicator, header);
    assert RunInv(cfg, b) by { CollectedKeeps(cfg, f, f.video, b.frame, f.sps, f.pps); }
    var nal: Nal := [indicator - indicator % 32 + header % 32];
    if header % 32 == 5 { MarkedUnit(first, [], nal); }
  }

  lemma {:induction false} FragmentKeepsKey(cfg: Config, first: bool, r: Recording, p: Packet)
    requires RunInv(cfg, r) && KeyInv(first, r) && r.open && |p.payload| >= 2
    requires p.payload[1] < 0x80 && FlagLeftUp(r) ==> |p.payload| == 2
    ensures KeyInv(first, Fragment(cfg, r, p))
  {
    var header, piece := p.payload[1], p.payload[2..];
    var end := header / 0x40 % 2 == 1 || p.marker;
    if header >= 0x80 {
      var b := StartFragmented(Flush(cfg, r), p.timestamp, p.payload[0], header);
      assert RunInv(cfg, b) && KeyInv(first, b) && b.frame.bytes != [] by {
        StartKeepsKey(cfg, first, r, p.timestamp, p.payload[0], header);
      }
      PieceKeepsKey(cfg, first, b, piece, end);
    } else {
      PieceKeepsKey(cfg, first, r, piece, end);
    }
  }

  lemma {:induction false} PieceKeepsKey(cfg: Config, first: bool, b: Recording, piece: seq<byte>, end: bool)
    requires RunInv(cfg, b) && KeyInv(first, b) && (FlagLeftUp(b) ==> piece == [])
    ensures KeyInv(first, FlushIf(cfg, b.(frame := b.frame.(bytes := b.frame.bytes + piece)), end))
  {
    var g := b.frame.(bytes := b.frame.bytes + piece);
    assert g.key && g.bytes != [] ==> Marked(first, g.bytes) by {
      if g.key && g.bytes != [] { MarkedPrefix(first, b.frame.bytes, piece); }
    }
    if b.open { FrameKeepsKey(cfg, first, b, g, b.sps, b.pps, end); }
  }

  /** Collecting truthful units keeps a true flag true. */
  lemma {:induction false} AggregateKeepsKey(r: Recording, p: Packet, offset: nat)
    requires offset <= |p.payload| && TruthfulUnits(p, offset) && (r.frame.key ==> HasIdr(r.frame.bytes))
    ensures var a := Aggregate(r, p, offset); a.frame.key ==> HasIdr(a.frame.bytes)
    decreases |p.payload| - offset
  {
    var data := p.payload;
    if offset + 2 <= |data| {
      var nalSize: nat := data[offset] as int * 256 + data[offset + 1];
      if offset + 2 + nalSize <= |data| {
        AggregateOne(r, p, offset, nalSize);
        UnitKeepsKey(r, p, offset + 2, nalSize);
        AggregateKeepsKey(AddUnitAt(r, p, offset + 2, nalSize), p, offset + 2 + nalSize);
      }
    }
  }

  lemma UnitKeepsKey(r: Recording, p: Packet, at: nat, nalSize: nat)
    requires at + nalSize <= |p.payload| && (nalSize == 0 ==> TypeByte(p, at) % 32 != 5)
    requires r.frame.key ==> HasIdr(r.frame.bytes)
    ensures var a := AddUnitAt(r, p, at, nalSize); a.frame.key ==> HasIdr(a.frame.bytes)
  {
    var nal := p.payload[at..at + nalSize];
    if IsIdr(nal) {
      MarkedUnit(false, r.frame.bytes, nal);
    } else {
      assert TypeByte(p, at) % 32 != 5 by { if nalSize > 0 { assert nal[0] == p.payload[at]; } }
      if r.frame.key { MarkedPrefix(false, r.frame.bytes, START_CODE + nal); }
    }
  }

  lemma {:induction false} AggregateIgnoresVideo(r: Recording, v: Track, p: Packet, offset: nat)
    requires offset <= |p.payload|
    ensures Aggregate(r.(video := v), p, offset) == Aggregate(r, p, offset).(video := v)
    decreases |p.payload| - offset
  {
    var data := p.payload;
    if offset + 2 <= |data| {
      var nalSize: nat := data[offset] as int * 256 + data[offset + 1];
      if offset + 2 + nalSize <= |data| {
        var end, added := offset + 2 + nalSize, AddUnitAt(r, p, offset + 2, nalSize);
        assert Aggregate(r, p, offset) == Aggregate(added, p, end) by { AggregateOne(r, p, offset, nalSize); }
        assert Aggregate(r.(video := v), p, offset) == Aggregate(added.(video := v), p, end) by {
          AggregateOne(r.(video := v), p, offset, nalSize);
          UnitIgnoresVideo(r, v, p, offset + 2, nalSize);
        }
        AggregateIgnoresVideo(added, v, p, end);
      }
    }
  }

  lemma UnitIgnoresVideo(r: Recording, v: Track, p: Packet, at: nat, nalSize: nat)
    requires at + nalSize <= |p.payload|
    ensures AddUnitAt(r.(video := v), p, at, nalSize) == AddUnitAt(r, p, at, nalSize).(video := v)
  {
  }

  lemma {:induction false} PacketKeepsKey(cfg: Config, first: bool, r: Recording, p: Packet)
    requires RunInv(cfg, r) && KeyInv(first, r) && r.deferred && KeepsFlagTrue(cfg, r, p)
    requires first ==> !IsAggregate(p)
    ensures KeyInv(first, WritePacket(cfg, r, p))
  {
    if r.open && p.payloadType != cfg.audioPT && p.payloadType == cfg.videoPT && p.payload != [] {
      var v := Based(r.video, p.timestamp);
      var b := Collected(r, v, r.frame, r.sps, r.pps);
      assert RunInv(cfg, b) by { CollectedKeeps(cfg, r, b.video, r.frame, r.sps, r.pps); }
      if IsAggregate(p) { AggregateIgnoresVideo(r, v, p, 1); }
      VideoKeepsKey(cfg, first, b, p);
    }
  }

  lemma {:induction false} VideoKeepsKey(cfg: Config, first: bool, b: Recording, p: Packet)
    requires RunInv(cfg, b) && KeyInv(first, b) && b.open && p.payload != []
    requires IsAggregate(p) ==>
               !first && TruthfulUnits(p, 1) && (FlagLeftUp(b) ==> EmptyOrIdr(Aggregate(b, p, 1).frame.bytes))
    requires IsLaterPiece(p) && FlagLeftUp(b) ==> |p.payload| == 2
    ensures KeyInv(first, Depacketize(cfg, b, p))
  {
    var nt := NalType(p.payload);
    if 1 <= nt <= 23 {
      SingleKeepsKey(cfg, first, b, p);
    } else if nt == 28 && |p.payload| >= 2 {
      FragmentKeepsKey(cfg, first, b, p);
    } else if nt == 24 {
      AggregatedKeepsKey(cfg, b, p);
    }
  }

  lemma {:induction false} AggregatedKeepsKey(cfg: Config, b: Recording, p: Packet)
    requires RunInv(cfg, b) && KeyInv(false, b) && b.open && p.payload != [] && TruthfulUnits(p, 1)
    requires FlagLeftUp(b) ==> EmptyOrIdr(Aggregate(b, p, 1).frame.bytes)
    ensures KeyInv(false, FlushIf(cfg, Aggregate(b, p, 1), p.marker))
  {
    var a := Aggregate(b, p, 1);
    assert a.frame.key && a.frame.bytes != [] ==> HasIdr(a.frame.bytes) by {
      if !FlagLeftUp(b) { AggregateKeepsKey(b, p, 1); }
    }
    assert a == Collected(b, b.video, a.frame, a.sps, a.pps) by { AggregateOnlyCollects(b, p, 1); }
    FrameKeepsKey(cfg, false, b, a.frame, a.sps, a.pps, p.marker);
  }

  /** Not started and with a true flag, or started with a marked frame. */
  ghost predicate OpeningInv(first: bool, r: Recording) {
    if r.deferred then KeyInv(first, r) else Videos(r.log) != [] && FirstIsMarked(first, Videos(r.log), r.flushed)
  }

  lemma {:induction false} StartedFlushKeeps(cfg: Config, first: bool, r: Recording)
    requires OpeningInv(first, r) && !r.deferred
    ensures OpeningInv(first, Flush(cfg, r)) && !Flush(cfg, r).deferred
  {
    if r.frame.bytes != [] && r.open {
      var f := r.(flushed := r.flushed + [r.frame.bytes]);
      Snoc(r.log, WriteVideo(cfg, f).log[|r.log|]);
    }
  }

  /** Once the file is started, no packet changes its first frame. */
  lemma {:induction false} StartedKeeps(cfg: Config, first: bool, r: Recording, p: Packet)
    requires OpeningInv(first, r) && !r.deferred
    ensures OpeningInv(first, WritePacket(cfg, r, p))
  {
    if p.payloadType == cfg.audioPT {
      var a := AudioPacket(p.timestamp, p.payload);
      WriteAudioAppends(cfg, r.(audioIn := r.audioIn + [a], audio := Based(r.audio, p.timestamp)), a);
    } else {
      var inv := (x: Recording) => OpeningInv(first, x) && !x.deferred;
      forall x | inv(x) ensures inv(Flush(cfg, x)) { StartedFlushKeeps(cfg, first, x); }
      TakeVideoKeeps(cfg, inv, r, p);
    }
  }

  /** Every packet until the recording is started keeps the flag true; `first` leaves aggregation packets out. */
  ghost predicate AllKeepFlagTrue(cfg: Config, first: bool, packets: seq<Packet>) {
    forall i :: 0 <= i < |packets| ==> KeepsFlagTrueAt(cfg, first, Record(cfg, packets[..i]), packets[i])
  }

  ghost predicate KeepsFlagTrueAt(cfg: Config, first: bool, r: Recording, p: Packet) {
    KeepsFlagTrue(cfg, r, p) && (first && r.deferred ==> !IsAggregate(p))
  }

  lemma {:induction false} FlagIsTrue(cfg: Config, first: bool, packets: seq<Packet>)
    requires AllKeepFlagTrue(cfg, first, packets)
    ensures OpeningInv(first, Record(cfg, packets))
  {
    if packets != [] {
      var n := |packets| - 1;
      var before := packets[..n];
      forall i | 0 <= i < n ensures KeepsFlagTrueAt(cfg, first, Record(cfg, before[..i]), before[i]) {
        assert before[..i] == packets[..i] && before[i] == packets[i];
      }
      FlagIsTrue(cfg, first, before);
      OpeningKept(cfg, first, before, packets[n]);
    }
  }

  lemma {:induction false} OpeningKept(cfg: Config, first: bool, before: seq<Packet>, p: Packet)
    requires OpeningInv(first, Record(cfg, before)) && KeepsFlagTrueAt(cfg, first, Record(cfg, before), p)
    ensures OpeningInv(first, WritePacket(cfg, Record(cfg, before), p))
  {
    var r := Record(cfg, before);
    if r.deferred {
      assert RunInv(cfg, r) by { EveryRecordingIsSound(cfg, before); }
      PacketKeepsKey(cfg, first, r, p);
      assert RunInv(cfg, WritePacket(cfg, r, p)) by { PacketKeeps(cfg, r, p); }
    } else {
      StartedKeeps(cfg, first, r, p);
    }
  }

  // ---------------------------------------------------------------------------
  // What is written
  // ---------------------------------------------------------------------------

  ghost predicate IdrAmong(nals: seq<Nal>) {
    exists j :: 0 <= j < |nals| && IsIdr(nals[j])
  }

  /** Frame data with an IDR unit; `first` asks for it at the front. */
  ghost predicate DataHasIdr(first: bool, data: seq<byte>) {
    exists nals: seq<Nal> :: data == LengthPrefixed(nals) && IdrAmong(nals) && (first ==> IsIdr(nals[0]))
  }

  /** Two start codes never overlap. */
  lemma NoOverlap(s: seq<byte>, at: nat, i: nat)
    requires at < i && StartCodeAt(s, at) > 0 && StartCodeAt(s, i) == 4
    ensures at + StartCodeAt(s, at) <= i
  {
  }

  lemma {:induction false} SkipStopsBy(s: seq<byte>, at: nat, i: nat)
    requires at <= i && i + 4 <= |s| && StartCodeAt(s, i) == 4 && StartCodeAt(s, i + 4) == 0
    ensures SkipStartCodes(s, at) <= i || SkipStartCodes(s, at) == i + 4
    decreases |s| - at
  {
    if at == i {
      assert SkipStartCodes(s, i) == SkipStartCodes(s, i + 4);
    } else if StartCodeAt(s, at) > 0 {
      NoOverlap(s, at, i);
      SkipStopsBy(s, at + StartCodeAt(s, at), i);
    }
  }

  /** The reader finds the unit behind every start code that another one does not follow. */
  lemma {:induction false} ReaderFindsUnitAt(s: seq<byte>, offset: nat, i: nat) returns (j: nat)
    requires offset <= i && i + 4 < |s| && StartCodeAt(s, i) == 4 && StartCodeAt(s, i + 4) == 0
    ensures j < |NalsFrom(s, offset)| && NalsFrom(s, offset)[j] != [] && NalsFrom(s, offset)[j][0] == s[i + 4]
    ensures i == 0 ==> j == 0
    decreases |s| - offset
  {
    var at := NextStart(s, offset);
    assert at <= i;
    SkipStopsBy(s, at, i);
    var nalStart := SkipStartCodes(s, at);
    var next := NextStart(s, nalStart);
    if nalStart == i + 4 {
      j := 0;
    } else {
      assert next <= i;
      j := ReaderFindsUnitAt(s, next, i);
      j := j + 1;
    }
  }

  lemma MarkedData(first: bool, b: seq<byte>)
    requires Marked(first, b)
    ensures DataHasIdr(first, Avcc(b))
  {
    var i: nat :| IdrAt(b, i) && (first ==> i == 0);
    assert b[i] == b[i..i + 4][0] && b[i + 1] == b[i..i + 4][1] && b[i + 2] == b[i..i + 4][2] && b[i + 3] == b[i..i + 4][3];
    var j := ReaderFindsUnitAt(b, 0, i);
    assert IsIdr(NalsFrom(b, 0)[j]);
  }

  lemma FirstWrittenIsMarked(cfg: Config, first: bool, r: Recording)
    requires RunInv(cfg, r) && OpeningInv(first, r) && Videos(r.log) != []
    ensures DataHasIdr(first, Videos(r.log)[0].data)
  {
    var vs := Videos(r.log);
    assert FrameAt(cfg, vs, r.flushed, 0);
    MarkedData(first, r.flushed[|r.flushed| - |vs|]);
  }

  /**
   When, until the file is started, no empty aggregated unit is read as an IDR unit, and no
   aggregation packet or later piece begins a frame without an IDR unit while the flag is left up:
   then the first frame written holds an IDR unit. Without any aggregation packet before the start
   it begins with one. What comes after the start is free.
   */
  lemma {:induction false} FirstFrameIsIdr(cfg: Config, packets: seq<Packet>)
    requires AllKeepFlagTrue(cfg, false, packets) && Videos(Record(cfg, packets).log) != []
    ensures DataHasIdr(false, Videos(Record(cfg, packets).log)[0].data)
    ensures AllKeepFlagTrue(cfg, true, packets) ==> DataHasIdr(true, Videos(Record(cfg, packets).log)[0].data)
  {
    var r := Record(cfg, packets);
    assert RunInv(cfg, r) by { EveryRecordingIsSound(cfg, packets); }
    assert OpeningInv(false, r) by { FlagIsTrue(cfg, false, packets); }
    FirstWrittenIsMarked(cfg, false, r);
    if AllKeepFlagTrue(cfg, true, packets) {
      FlagIsTrue(cfg, true, packets);
      FirstWrittenIsMarked(cfg, true, r);
    }
  }

  // ---------------------------------------------------------------------------
  // A flag left up is exactly the danger
  // ---------------------------------------------------------------------------

  /** A packet that carries no IDR unit and no empty one. */
  predicate WithoutIdr(p: Packet) {
    p.payload == [] ||
    var nt := NalType(p.payload);
    if nt == 28 then |p.payload| >= 2 ==> p.payload[1] % 32 != 5
    else if nt == 24 then UnitsWithoutIdr(p, 1)
    else nt != 5
  }

  predicate UnitsWithoutIdr(p: Packet, offset: nat)
    requires offset <= |p.payload|
    decreases |p.payload| - offset
  {
    var data := p.payload;
    offset + 2 <= |data| ==>
      var nalSize: nat := data[offset] as int * 256 + data[offset + 1];
      offset + 2 + nalSize <= |data| ==>
        nalSize > 0 && data[offset + 2] % 32 != 5 && UnitsWithoutIdr(p, offset + 2 + nalSize)
  }

  ghost predicate AllWithoutIdr(packets: seq<Packet>) {
    forall i :: 0 <= i < |packets| ==> WithoutIdr(packets[i])
  }

  /** Not started, and with the flag down. */
  predicate Down(r: Recording) {
    r.deferred && !r.frame.key
  }

  lemma {:induction false} AggregateStaysDown(r: Recording, p: Packet, offset: nat)
    requires offset <= |p.payload| && UnitsWithoutIdr(p, offset) && Down(r)
    ensures Down(Aggregate(r, p, offset))
    decreases |p.payload| - offset
  {
    var data := p.payload;
    if offset + 2 <= |data| {
      var nalSize: nat := data[offset] as int * 256 + data[offset + 1];
      if offset + 2 + nalSize <= |data| {
        AggregateOne(r, p, offset, nalSize);
        AggregateStaysDown(AddUnitAt(r, p, offset + 2, nalSize), p, offset + 2 + nalSize);
      }
    }
  }

  lemma PacketStaysDown(cfg: Config, r: Recording, p: Packet)
    requires Down(r) && WithoutIdr(p)
    ensures Down(WritePacket(cfg, r, p))
  {
    if r.open && p.payloadType != cfg.audioPT && p.payloadType == cfg.videoPT && IsAggregate(p) {
      AggregateStaysDown(r.(video := Based(r.video, p.timestamp)), p, 1);
    }
  }

  lemma {:induction false} StaysDown(cfg: Config, packets: seq<Packet>, more: seq<Packet>)
    requires Down(Record(cfg, packets)) && AllWithoutIdr(more)
    ensures Down(Record(cfg, packets + more))
  {
    if more == [] {
      assert packets + more == packets;
    } else {
      var n := |more| - 1;
      StaysDown(cfg, packets, more[..n]);
      assert packets + more == packets + more[..n] + [more[n]];
      RecordSnoc(cfg, packets + more[..n], more[n]);
      PacketStaysDown(cfg, Record(cfg, packets + more[..n]), more[n]);
    }
  }

  /** A flag that is up was raised by a video packet, which had set the base. */
  lemma {:induction false} FlagMeansBased(cfg: Config, packets: seq<Packet>)
    ensures Record(cfg, packets).frame.key ==> Record(cfg, packets).video.baseSet
  {
    if packets != [] {
      var n := |packets| - 1;
      FlagMeansBased(cfg, packets[..n]);
      var r, p := Record(cfg, packets[..n]), packets[n];
      if r.open && p.payloadType != cfg.audioPT && p.payloadType == cfg.videoPT {
        BaseStays(cfg, r, p);
      }
    }
  }

  lemma BaseStays(cfg: Config, r: Recording, p: Packet)
    ensures TakeVideo(cfg, r, p).video.baseSet
  {
    var inv := (x: Recording) => x.video.baseSet;
    forall x | inv(x) ensures inv(Flush(cfg, x)) { FlushKeepsBase(cfg, x); }
    DepacketizeKeeps(cfg, inv, r.(video := Based(r.video, p.timestamp)), p);
  }

  lemma FlushKeepsBase(cfg: Config, r: Recording)
    requires r.video.baseSet
    ensures Flush(cfg, r).video.baseSet
  {
    if r.deferred && r.frame.key && CanWriteHeader(r) {
      var f := r.(flushed := r.flushed + [r.frame.bytes]);
      WriteAudiosAppends(cfg, f.(deferred := false, log := f.log + [Header(Extradata(f.sps, f.pps))]), f.pending);
    }
  }

  const ANY_SPS: seq<byte> := [7, 0, 0, 0]
  const ANY_PPS: seq<byte> := [8]
  const SLICE_ALONE: seq<byte> := [24, 0, 1, 1]     // an aggregation packet with one non-IDR slice

  lemma ParameterSetTaken(cfg: Config, r: Recording, p: Packet)
    requires cfg.audioPT != cfg.videoPT == p.payloadType && r.open && r.video.baseSet
    requires p.payload != [] && (NalType(p.payload) == 7 || NalType(p.payload) == 8)
    ensures WritePacket(cfg, r, p) == if NalType(p.payload) == 7 then r.(sps := p.payload) else r.(pps := p.payload)
  {
  }

  lemma SliceAloneTaken(cfg: Config, r: Recording, p: Packet)
    requires cfg.audioPT != cfg.videoPT == p.payloadType && r.open && r.video.baseSet && r.frame.bytes == []
    requires p.marker && p.payload == SLICE_ALONE
    ensures WritePacket(cfg, r, p) == Flush(cfg, r.(frame := FrameBuffer(START_CODE + [1], p.timestamp, r.frame.key)))
  {
    assert NalType(p.payload) == 24;
    OnlyUnit(r, p);
  }

  lemma OnlyUnit(r: Recording, p: Packet)
    requires p.payload == SLICE_ALONE && r.frame.bytes == []
    ensures Aggregate(r, p, 1) == r.(frame := FrameBuffer(START_CODE + [1], p.timestamp, r.frame.key))
  {
    AggregateOne(r, p, 1, 1);
    var added := AddUnitAt(r, p, 3, 1);
    assert p.payload[3..4] == [1] && p.payload[3] % 32 == 1;
    assert [] + (START_CODE + [1]) == START_CODE + [1];
    assert added == r.(frame := FrameBuffer(START_CODE + [1], p.timestamp, r.frame.key));
    assert Aggregate(added, p, 4) == added;
  }

  lemma RecordThree(cfg: Config, packets: seq<Packet>, a: Packet, b: Packet, c: Packet)
    ensures Record(cfg, packets + [a, b, c]) ==
            WritePacket(cfg, WritePacket(cfg, WritePacket(cfg, Record(cfg, packets), a), b), c)
  {
    RecordSnoc(cfg, packets, a);
    RecordSnoc(cfg, packets + [a], b);
    RecordSnoc(cfg, packets + [a] + [b], c);
    assert packets + [a] + [b] + [c] == packets + [a, b, c];
  }

  /** From any reachable state with the flag left up, three packets without an IDR unit open the file. */
  lemma {:induction false} FlagLeftUpOpensFile(cfg: Config, packets: seq<Packet>, sps: Packet, pps: Packet, slice: Packet)
    requires cfg.headerOk && cfg.audioPT != cfg.videoPT == sps.payloadType == pps.payloadType == slice.payloadType
    requires var r := Record(cfg, packets); r.open && r.deferred && FlagLeftUp(r)
    requires sps.payload == ANY_SPS && pps.payload == ANY_PPS && slice.marker && slice.payload == SLICE_ALONE
    ensures var r := Record(cfg, packets + [sps, pps, slice]);
            && !r.deferred && r.flushed == Record(cfg, packets).flushed + [START_CODE + [1]]
            && |Videos(r.log)| == 1 && Videos(r.log)[0].key && Videos(r.log)[0].data == Avcc(START_CODE + [1])
  {
    var r := Record(cfg, packets);
    FlagMeansBased(cfg, packets);
    var a := r.(sps := sps.payload);
    var b := a.(pps := pps.payload);
    assert NalType(sps.payload) == 7 && NalType(pps.payload) == 8;
    ParameterSetTaken(cfg, r, sps);
    ParameterSetTaken(cfg, a, pps);
    SliceAloneTaken(cfg, b, slice);
    RecordThree(cfg, packets, sps, pps, slice);
    var g := b.(frame := FrameBuffer(START_CODE + [1], slice.timestamp, true));
    assert RunInv(cfg, g) by {
      EveryRecordingIsSound(cfg, packets);
      CollectedKeeps(cfg, r, r.video, g.frame, g.sps, g.pps);
    }
    OpensFile(cfg, g);
  }

  lemma DroppedIdr(cfg: Config, p: Packet)
    requires cfg.audioPT != cfg.videoPT == p.payloadType && p.marker && p.payload == [5]
    ensures var r := Record(cfg, [p]);
            r.open && r.deferred && FlagLeftUp(r) && r.flushed == [START_CODE + [5]]
  {
    RecordSnoc(cfg, [], p);
    assert [] + [p] == [p] && Record(cfg, []) == FRESH;
    LoneIdr(cfg, p);
  }

  lemma LoneIdr(cfg: Config, p: Packet)
    requires cfg.audioPT != cfg.videoPT == p.payloadType && p.marker && p.payload == [5]
    ensures var r := WritePacket(cfg, FRESH, p);
            r.open && r.deferred && FlagLeftUp(r) && r.flushed == [START_CODE + [5]]
  {
    assert NalType(p.payload) == 5;
    var b := FRESH.(video := Based(UNSET, p.timestamp), frame := FrameBuffer(START_CODE + [5], p.timestamp, true));
    assert [] + (START_CODE + [5]) == START_CODE + [5];
    assert WritePacket(cfg, FRESH, p) == Flush(cfg, b);
  }

  /**
   The flag can be left up: an IDR unit dropped for lack of parameter sets leaves it so, and then
   an aggregation packet without an IDR unit opens the file.
   */
  lemma {:induction false} StaleKeyFlagOpensFile(cfg: Config, idr: Packet, sps: Packet, pps: Packet, slice: Packet)
    requires cfg.headerOk && cfg.audioPT != cfg.videoPT
    requires idr.payloadType == sps.payloadType == pps.payloadType == slice.payloadType == cfg.videoPT
    requires idr.marker && idr.payload == [5] && sps.payload == ANY_SPS && pps.payload == ANY_PPS
    requires slice.marker && slice.payload == SLICE_ALONE
    ensures var r := Record(cfg, [idr] + [sps, pps, slice]);
            && |Videos(r.log)| == 1 && Videos(r.log)[0].key && Videos(r.log)[0].data == LengthPrefixed([[1]])
            && r.flushed == [START_CODE + [5]] + [START_CODE + [1]] && !IdrAmong([[1]])
  {
    DroppedIdr(cfg, idr);
    FlagLeftUpOpensFile(cfg, [idr], sps, pps, slice);
    SliceHasNoIdr();
  }

  /** An aggregation packet whose only unit is empty; the byte after the payload is read as its type. */
  lemma EmptyUnit(r: Recording, p: Packet)
    requires p.payload == [24, 0, 0] && p.beyond % 32 == 5 && r.frame.bytes != []
    ensures Aggregate(r, p, 1) == r.(frame := FrameBuffer(r.frame.bytes + START_CODE, r.frame.ts, true))
  {
    AggregateOne(r, p, 1, 0);
    var added := AddUnitAt(r, p, 3, 0);
    assert START_CODE + p.payload[3..3] == START_CODE;
    assert added == r.(frame := FrameBuffer(r.frame.bytes + START_CODE, r.frame.ts, true));
    assert Aggregate(added, p, 3) == added;
  }

  lemma SliceThenEmptyUnit(cfg: Config, r: Recording, slice: Packet, empty: Packet)
    requires cfg.audioPT != cfg.videoPT == slice.payloadType == empty.payloadType && r.open && r.video.baseSet
    requires r.frame.bytes == [] && slice.payload == [1] && !slice.marker
    requires empty.payload == [24, 0, 0] && empty.beyond % 32 == 5 && empty.marker
    ensures WritePacket(cfg, WritePacket(cfg, r, slice), empty) ==
            Flush(cfg, r.(frame := FrameBuffer(START_CODE + [1] + START_CODE, slice.timestamp, true)))
  {
    var b := r.(frame := FrameBuffer(START_CODE + [1], slice.timestamp, false));
    assert NalType(slice.payload) == 1 && [] + (START_CODE + [1]) == START_CODE + [1];
    assert WritePacket(cfg, r, slice) == b;
    assert NalType(empty.payload) == 24;
    EmptyUnit(b, empty);
  }

  /**
   An empty aggregated unit can raise the flag of a frame that a single-unit packet began, with no
   flag left up anywhere: the byte after the payload decides.
   */
  lemma {:induction false} EmptyUnitOpensFile(cfg: Config, sps: Packet, pps: Packet, slice: Packet, empty: Packet)
    requires cfg.headerOk && cfg.audioPT != cfg.videoPT
    requires sps.payloadType == pps.payloadType == slice.payloadType == empty.payloadType == cfg.videoPT
    requires sps.payload == ANY_SPS && pps.payload == ANY_PPS && slice.payload == [1] && !slice.marker
    requires empty.payload == [24, 0, 0] && empty.beyond % 32 == 5 && empty.marker
    ensures var r := Record(cfg, [sps, pps] + [slice] + [empty]);
            && |Videos(r.log)| == 1 && Videos(r.log)[0].key
            && r.flushed == [START_CODE + [1] + START_CODE] && !HasIdr(START_CODE + [1] + START_CODE)
  {
    var c := ParameterSetsOnly(cfg, sps, pps);
    RecordSnoc(cfg, [sps, pps], slice);
    RecordSnoc(cfg, [sps, pps] + [slice], empty);
    SliceThenEmptyUnit(cfg, c, slice, empty);
    var g := c.(frame := FrameBuffer(START_CODE + [1] + START_CODE, slice.timestamp, true));
    assert RunInv(cfg, g) by {
      EveryRecordingIsSound(cfg, [sps, pps]);
      CollectedKeeps(cfg, c, c.video, g.frame, c.sps, c.pps);
    }
    OpensFile(cfg, g);
    SliceAndStartCode();
  }

  lemma SliceAndStartCode()
    ensures !HasIdr(START_CODE + [1] + START_CODE)
  {
    var b := START_CODE + [1] + START_CODE;
    assert b == [0, 0, 0, 1, 1, 0, 0, 0, 1];
    forall i: nat ensures !IdrAt(b, i) {}
  }

  lemma ParameterSetsOnly(cfg: Config, sps: Packet, pps: Packet) returns (c: Recording)
    requires cfg.audioPT != cfg.videoPT == sps.payloadType == pps.payloadType
    requires sps.payload == ANY_SPS && pps.payload == ANY_PPS
    ensures c == Record(cfg, [sps, pps]) && c.open && c.deferred && c.video.baseSet
    ensures c.frame == FrameBuffer([], 0, false) && c.flushed == [] && c.sps == ANY_SPS && c.pps == ANY_PPS
  {
    assert NalType(sps.payload) == 7 && NalType(pps.payload) == 8;
    var a := FRESH.(video := Based(UNSET, sps.timestamp), sps := ANY_SPS);
    assert WritePacket(cfg, FRESH, sps) == a;
    ParameterSetTaken(cfg, a, pps);
    RecordTwo(cfg, sps, pps);
    c := Record(cfg, [sps, pps]);
  }

  lemma RecordTwo(cfg: Config, a: Packet, b: Packet)
    ensures Record(cfg, [a, b]) == WritePacket(cfg, WritePacket(cfg, FRESH, a), b)
  {
    RecordSnoc(cfg, [], a);
    RecordSnoc(cfg, [a], b);
    assert [] + [a] == [a] && [a] + [b] == [a, b];
  }

  lemma SliceHasNoIdr()
    ensures NalsFrom(START_CODE + [1], 0) == [[1]] && !IdrAmong([[1]])
  {
    var s := START_CODE + [1];
    assert StartCodeAt(s, 0) == 4 && StartCodeAt(s, 4) == 0 && StartCodeAt(s, 5) == 0;
    assert SkipStartCodes(s, 0) == 4;
    assert NextStart(s, 4) == 5;
    assert s[4..5] == [1];
    assert NalsFrom(s, 5) == [];
  }

  /**
   Between frames and before the file is started, packets without any IDR or empty unit can open
   it if and only if the flag is left up.
   */
  lemma {:induction false} OpensWithoutIdrIff(cfg: Config, packets: seq<Packet>)
    requires cfg.headerOk && cfg.audioPT != cfg.videoPT
    requires var r := Record(cfg, packets); r.open && r.deferred && r.frame.bytes == []
    ensures Record(cfg, packets).frame.key <==>
            exists more :: AllWithoutIdr(more) && !Record(cfg, packets + more).deferred
  {
    if Record(cfg, packets).frame.key {
      var sps := Packet(cfg.videoPT, 0, false, ANY_SPS, 0);
      var pps, slice := sps.(payload := ANY_PPS), sps.(payload := SLICE_ALONE, marker := true);
      FlagLeftUpOpensFile(cfg, packets, sps, pps, slice);
      ThreeWithoutIdr(sps, pps, slice);
      assert !Record(cfg, packets + [sps, pps, slice]).deferred;
    } else {
      forall more | AllWithoutIdr(more) ensures Record(cfg, packets + more).deferred {
        StaysDown(cfg, packets, more);
      }
    }
  }

  lemma ThreeWithoutIdr(sps: Packet, pps: Packet, slice: Packet)
    requires sps.payload == ANY_SPS && pps.payload == ANY_PPS && slice.payload == SLICE_ALONE
    ensures AllWithoutIdr([sps, pps, slice])
  {
    assert NalType(sps.payload) == 7 && NalType(pps.payload) == 8 && NalType(slice.payload) == 24;
    assert UnitsWithoutIdr(slice, 4);
    assert UnitsWithoutIdr(slice, 1);
  }
}
