/**
 The frame that opens the file, on loss-free streams of NAL units: which one it is, as a function
 of the units alone, and when it holds an IDR unit.
 */
module Openings {
  import opened Bytes
  import opened Options
  import opened Timestamps
  import opened H264
  import opened Recorder
  import opened RecorderLaws
  import opened KeyFrames
  import opened Depacketizing

  ghost predicate AllWellFormed(us: seq<Unit>) {
    forall i :: 0 <= i < |us| ==> WellFormed(us[i])
  }

  // ---------------------------------------------------------------------------
  // On units
  // ---------------------------------------------------------------------------

  /**
   The units collected, the key flag, and the group that has opened the file, if any has. `ts` is
   the timestamp of the unit that began the current group, and `marks` holds timestamp and flag of
   each group that was cut.
   */
  datatype Picture = Picture(c: Collection, flag: bool, opening: Option<seq<Nal>>, ts: u32, marks: seq<Mark>)

  const BLANK := Picture(Collection([], [], [], []), false, None, 0, [])

  /** A cut opens the file with what it cuts when the flag is up and both parameter sets are there. */
  predicate CutOpens(x: Picture) {
    x.opening.None? && x.flag && |x.c.sps| >= 4 && x.c.pps != []
  }

  function CutPicture(x: Picture, now: bool): Picture {
    if now && x.c.current != [] then
      Picture(Cut(x.c, true), x.flag, if CutOpens(x) then Some(x.c.current) else x.opening, x.ts,
              x.marks + [Mark(x.ts, x.flag)])
    else x
  }

  /** The timestamp of the current group when a unit sent at `ts` joins it. */
  function Begun(x: Picture, ts: u32): u32 {
    if x.c.current == [] then ts else x.ts
  }

  ghost function NextPicture(x: Picture, u: Unit): Picture
    requires WellFormed(u)
  {
    match u
    case Single(ts, nal, marker, _) =>
      if IsParameterSet(nal) then x.(c := Add(x.c, nal))
      else
        var flag := if x.c.current == [] then IsIdr(nal) else x.flag;
        CutPicture(x.(c := Add(x.c, nal), flag := flag, ts := Begun(x, ts)), marker)
    case StapA(ts, _, nals, marker, _) =>
      CutPicture(x.(c := AddAll(x.c, nals), flag := x.flag || IdrAmong(nals), ts := Begun(x, ts)), marker)
    case FuA(ts, nal, _, _, _) =>
      var y := CutPicture(x, true);
      CutPicture(y.(c := Add(y.c, nal), flag := IsIdr(nal), ts := ts), true)
  }

  ghost function PictureOf(us: seq<Unit>): Picture
    requires AllWellFormed(us)
  {
    if us == [] then BLANK else NextPicture(PictureOf(us[..|us| - 1]), us[|us| - 1])
  }

  // ---------------------------------------------------------------------------
  // The recorder does the same
  // ---------------------------------------------------------------------------

  /** The recorder's buffers, flag and first frame are those of the picture. */
  ghost predicate Shows(r: Recording, x: Picture) {
    Opened(r, x) && Stamped(r, x)
  }

  ghost predicate Opened(r: Recording, x: Picture) {
    && Holds(r, x.c) && r.frame.key == x.flag && OpensWith(r, x)
  }

  ghost predicate Stamped(r: Recording, x: Picture) {
    && (x.c.current != [] ==> r.frame.ts == x.ts) && Marked(MarksOf(Videos(r.log)), x)
  }

  /** The frames written carry the marks of the last groups. */
  ghost predicate Marked(written: seq<Mark>, x: Picture) {
    && |x.marks| == |x.c.groups| && |written| <= |x.marks|
    && written == x.marks[|x.marks| - |written|..]
  }

  /** The file is not started, or its first frame is the opening group. */
  ghost predicate OpensWith(r: Recording, x: Picture) {
    var written, groups := |Videos(r.log)|, x.c.groups;
    match x.opening
    case None => r.deferred && written == 0
    case Some(group) => !r.deferred && 0 < written <= |groups| && groups[|groups| - written] == group
  }

  lemma {:induction false} FlushOpened(cfg: Config, r: Recording, x: Picture, now: bool)
    requires cfg.headerOk && Opened(r, x)
    ensures Opened(FlushIf(cfg, r, now), CutPicture(x, now))
  {
    assert Holds(FlushIf(cfg, r, now), Cut(x.c, now)) by { FlushCuts(cfg, r, x.c, now); }
    FlushFrame(cfg, r);
    if now { FlushOpensWith(cfg, r, x); }
  }

  lemma {:induction false} FlushMarks(cfg: Config, r: Recording, x: Picture)
    requires cfg.headerOk && Shows(r, x)
    ensures Marked(MarksOf(Videos(Flush(cfg, r).log)), CutPicture(x, true))
  {
    AnnexBEmpty(x.c.current);
    if x.c.current != [] {
      FlushCounts(cfg, r);
      var written := MarksOf(Videos(r.log));
      MarkedSnoc(written, x, Mark(x.ts, x.flag));
      if Flush(cfg, r).deferred { assert written == []; }
    }
  }

  lemma {:induction false} FlushShows(cfg: Config, r: Recording, x: Picture, now: bool)
    requires cfg.headerOk && Shows(r, x)
    ensures Shows(FlushIf(cfg, r, now), CutPicture(x, now))
  {
    FlushOpened(cfg, r, x, now);
    if now { FlushMarks(cfg, r, x); }
  }

  lemma {:induction false} MarkedSnoc(written: seq<Mark>, x: Picture, mark: Mark)
    requires Marked(written, x)
    ensures var y := x.(marks := x.marks + [mark], c := Cut(x.c, true));
            x.c.current != [] ==> Marked(written + [mark], y) && (written == [] ==> Marked([], y))
  {
    var more, n := x.marks + [mark], |x.marks| - |written|;
    assert more[n..] == x.marks[n..] + [mark];
  }

  lemma {:induction false} FlushOpensWith(cfg: Config, r: Recording, x: Picture)
    requires cfg.headerOk && Opened(r, x)
    ensures OpensWith(Flush(cfg, r), CutPicture(x, true))
  {
    AnnexBEmpty(x.c.current);
    if x.c.current != [] {
      FlushNumbers(cfg, r);
      var groups, more := x.c.groups, Cut(x.c, true).groups;
      assert more == groups + [x.c.current];
      assert forall i :: 0 <= i < |groups| ==> more[i] == groups[i];
    }
  }

  /** Collecting does not touch what was written. */
  lemma OpeningStays(r: Recording, x: Picture, g: Recording, y: Picture)
    requires OpensWith(r, x) && g.log == r.log && g.deferred == r.deferred
    requires y.c.groups == x.c.groups && y.opening == x.opening
    ensures OpensWith(g, y)
  {
  }

  lemma {:induction false} SingleShows(cfg: Config, r: Recording, x: Picture, p: Packet)
    requires cfg.headerOk && Shows(r, x) && IsNal(p.payload)
    ensures Shows(Depacketize(cfg, r, p), NextPicture(x, Single(p.timestamp, p.payload, p.marker, p.beyond)))
  {
    if IsParameterSet(p.payload) {
      SetShows(r, x, p.payload);
    } else {
      var f := if r.frame.bytes == [] then FrameBuffer([], p.timestamp, NalType(p.payload) == 5) else r.frame;
      var g := r.(frame := f.(bytes := f.bytes + (START_CODE + p.payload)));
      var y := x.(c := Add(x.c, p.payload), flag := if x.c.current == [] then IsIdr(p.payload) else x.flag, ts := Begun(x, p.timestamp));
      assert Shows(g, y) by { JoinShows(r, x, p, g, y); }
      assert Depacketize(cfg, r, p) == FlushIf(cfg, g, p.marker);
      FlushShows(cfg, g, y, p.marker);
    }
  }

  lemma {:induction false} SetShows(r: Recording, x: Picture, nal: Nal)
    requires Shows(r, x) && nal != [] && IsParameterSet(nal)
    ensures Shows(if NalType(nal) == 7 then r.(sps := nal) else r.(pps := nal), x.(c := Add(x.c, nal)))
  {
    var g, y := if NalType(nal) == 7 then r.(sps := nal) else r.(pps := nal), x.(c := Add(x.c, nal));
    OpeningStays(r, x, g, y);
    StampStays(r, x, g, y);
  }

  lemma {:induction false} JoinShows(r: Recording, x: Picture, p: Packet, g: Recording, y: Picture)
    requires Shows(r, x) && IsNal(p.payload) && !IsParameterSet(p.payload)
    requires var f := if r.frame.bytes == [] then FrameBuffer([], p.timestamp, NalType(p.payload) == 5) else r.frame;
             g == r.(frame := f.(bytes := f.bytes + (START_CODE + p.payload)))
    requires y == x.(c := Add(x.c, p.payload), flag := if x.c.current == [] then IsIdr(p.payload) else x.flag, ts := Begun(x, p.timestamp))
    ensures Shows(g, y)
  {
    assert r.frame.bytes == [] <==> x.c.current == [] by { AnnexBEmpty(x.c.current); }
    assert Holds(g, y.c) by { AnnexBSnoc(x.c.current, p.payload); }
    OpeningStays(r, x, g, y);
    StampStays(r, x, g, y);
  }

  /** Collecting does not touch the marks of what was written. */
  lemma {:induction false} StampStays(r: Recording, x: Picture, g: Recording, y: Picture)
    requires Stamped(r, x) && g.log == r.log && y.c.groups == x.c.groups && y.marks == x.marks
    requires y.c.current != [] ==> g.frame.ts == y.ts
    ensures Stamped(g, y)
  {
  }

  lemma IdrFirst(nals: seq<Nal>)
    requires nals != []
    ensures IdrAmong(nals) <==> IsIdr(nals[0]) || IdrAmong(nals[1..])
  {
    if IdrAmong(nals) {
      var j :| 0 <= j < |nals| && IsIdr(nals[j]);
      if j > 0 { assert IsIdr(nals[1..][j - 1]); }
    }
    if j :| 0 <= j < |nals[1..]| && IsIdr(nals[1..][j]) {
      assert IsIdr(nals[j + 1]);
    }
  }

  /** The flag after an aggregation packet. */
  lemma {:induction false} AggregateFlag(r: Recording, p: Packet, offset: nat, nals: seq<Nal>)
    requires offset <= |p.payload| && Lists(p.payload, offset, nals)
    ensures Aggregate(r, p, offset).frame.key == (r.frame.key || IdrAmong(nals))
    decreases |nals|
  {
    if nals != [] {
      var nal := nals[0];
      AggregateFlag(AddAggregated(r, p.timestamp, NalType(nal), nal), p, offset + 2 + |nal|, nals[1..]);
      FlagStep(r, p, offset, nal, nals);
    }
  }

  lemma {:induction false} FlagStep(r: Recording, p: Packet, offset: nat, nal: Nal, nals: seq<Nal>)
    requires nals != [] && nal == nals[0] && UnitAt(p.payload, offset, nal)
    requires var added := AddAggregated(r, p.timestamp, NalType(nal), nal);
             Aggregate(added, p, offset + 2 + |nal|).frame.key == (added.frame.key || IdrAmong(nals[1..]))
    ensures Aggregate(r, p, offset).frame.key == (r.frame.key || IdrAmong(nals))
  {
    TakesUnit(r, p, offset, nal);
    AddedFlag(r, p.timestamp, nal);
    IdrFirst(nals);
  }

  ghost predicate StampKept(f: FrameBuffer, a: FrameBuffer, ts: u32) {
    && (f.bytes != [] ==> a.bytes != [] && a.ts == f.ts)
    && (f.bytes == [] && a.bytes != [] ==> a.ts == ts)
  }

  /** A packet that finds a frame begun leaves its timestamp; one that begins a frame gives it its own. */
  lemma {:induction false} AggregateStamp(r: Recording, p: Packet, offset: nat)
    requires offset <= |p.payload|
    ensures StampKept(r.frame, Aggregate(r, p, offset).frame, p.timestamp)
    decreases |p.payload| - offset
  {
    var data := p.payload;
    if offset + 2 <= |data| {
      var nalSize: nat := data[offset] as int * 256 + data[offset + 1];
      if offset + 2 + nalSize <= |data| {
        var added := AddUnitAt(r, p, offset + 2, nalSize);
        assert Aggregate(r, p, offset) == Aggregate(added, p, offset + 2 + nalSize) by { AggregateOne(r, p, offset, nalSize); }
        assert StampKept(r.frame, added.frame, p.timestamp);
        AggregateStamp(added, p, offset + 2 + nalSize);
      }
    }
  }

  predicate IsPiece(p: Packet) {
    |p.payload| >= 2 && NalType(p.payload) == 28
  }

  /** The first piece of a fragmented unit begins a frame, whatever came before. */
  predicate IsFirstPiece(p: Packet) {
    IsPiece(p) && p.payload[1] >= 0x80
  }

  /**
   Whatever the packets: a frame has the timestamp of the packet that began it, except that a later
   piece whose first piece was lost begins a frame under the timestamp left over from the one before.
   */
  lemma {:induction false} FrameStampStep(cfg: Config, r: Recording, p: Packet)
    ensures var f := Depacketize(cfg, r, p).frame;
            f.bytes != [] ==>
              f.ts == if IsFirstPiece(p) || (r.frame.bytes == [] && !IsPiece(p)) then p.timestamp else r.frame.ts
  {
    if p.payload != [] {
      var nt := NalType(p.payload);
      if 1 <= nt <= 23 {
        SingleStampStep(cfg, r, p);
      } else if nt == 28 && |p.payload| >= 2 {
        PieceStampStep(cfg, r, p);
      } else if nt == 24 {
        AggregateStamp(r, p, 1);
        FlushKeepsStamp(cfg, Aggregate(r, p, 1), p.marker);
      }
    }
  }

  /** So a later piece that comes first begins a frame at time zero, whatever its own timestamp. */
  lemma {:induction false} LatePieceKeepsOldStamp(cfg: Config, p: Packet)
    requires cfg.audioPT != cfg.videoPT == p.payloadType && !p.marker
    requires IsPiece(p) && p.payload[1] < 0x40 && |p.payload| > 2
    ensures Record(cfg, [p]).frame.bytes == p.payload[2..] != [] && Record(cfg, [p]).frame.ts == 0
  {
    RecordSnoc(cfg, [], p);
    assert [] + [p] == [p];
    var r := FRESH.(video := Based(FRESH.video, p.timestamp));
    assert r.frame.bytes + p.payload[2..] == p.payload[2..];
    assert Depacketize(cfg, r, p) == Fragment(cfg, r, p);
  }

  lemma {:induction false} FlushKeepsStamp(cfg: Config, r: Recording, now: bool)
    ensures FlushIf(cfg, r, now).frame.ts == r.frame.ts
    ensures FlushIf(cfg, r, now).frame.bytes != [] ==> r.frame.bytes != []
  {
    FlushFrame(cfg, r);
  }

  lemma {:induction false} SingleStampStep(cfg: Config, r: Recording, p: Packet)
    requires p.payload != []
    ensures var f := SingleNal(cfg, r, p).frame;
            f.bytes != [] ==> f.ts == if r.frame.bytes == [] then p.timestamp else r.frame.ts
  {
    var f := if r.frame.bytes == [] then FrameBuffer([], p.timestamp, NalType(p.payload) == 5) else r.frame;
    FlushKeepsStamp(cfg, r.(frame := f.(bytes := f.bytes + (START_CODE + p.payload))), p.marker);
  }

  lemma {:induction false} PieceStampStep(cfg: Config, r: Recording, p: Packet)
    requires |p.payload| >= 2
    ensures Fragment(cfg, r, p).frame.ts == if p.payload[1] >= 0x80 then p.timestamp else r.frame.ts
  {
    var header := p.payload[1];
    var b := if header >= 0x80 then StartFragmented(Flush(cfg, r), p.timestamp, p.payload[0], header) else r;
    FlushKeepsStamp(cfg, b.(frame := b.frame.(bytes := b.frame.bytes + p.payload[2..])), header / 0x40 % 2 == 1 || p.marker);
  }

  lemma AddedFlag(r: Recording, ts: u32, nal: Nal)
    requires nal != []
    ensures AddAggregated(r, ts, NalType(nal), nal).frame.key == (r.frame.key || IsIdr(nal))
  {
  }

  lemma {:induction false} StapShows(cfg: Config, r: Recording, x: Picture, p: Packet, header: byte, nals: seq<Nal>)
    requires cfg.headerOk && Shows(r, x) && WellFormed(StapA(p.timestamp, header, nals, p.marker, p.beyond))
    requires p.payload == [header] + Aggregation(nals)
    ensures Shows(Depacketize(cfg, r, p), NextPicture(x, StapA(p.timestamp, header, nals, p.marker, p.beyond)))
  {
    assert Lists(p.payload, 1, nals) by {
      assert p.payload[1..] == Aggregation(nals);
      AggregationLists(p.payload, 1, nals);
    }
    var a := Aggregate(r, p, 1);
    var y := x.(c := AddAll(x.c, nals), flag := x.flag || IdrAmong(nals), ts := Begun(x, p.timestamp));
    assert Opened(a, y) by { AggregateOpened(r, x, p, nals, y); }
    assert Stamped(a, y) by { AggregateStamped(r, x, p, nals, y); }
    FlushShows(cfg, a, y, p.marker);
  }

  lemma {:induction false} AggregateOpened(r: Recording, x: Picture, p: Packet, nals: seq<Nal>, y: Picture)
    requires Opened(r, x) && p.payload != [] && NonEmpty(nals) && Lists(p.payload, 1, nals)
    requires y == x.(c := AddAll(x.c, nals), flag := x.flag || IdrAmong(nals), ts := y.ts)
    ensures Opened(Aggregate(r, p, 1), y)
  {
    var a := Aggregate(r, p, 1);
    assert Holds(a, y.c) by { AggregateRefines(r, x.c, p, 1, nals); }
    assert OpensWith(a, y) by {
      AggregateCollects(r, x.c, p, 1, nals);
      AggregateOnlyCollects(r, p, 1);
      OpeningStays(r, x, a, y);
    }
    assert a.frame.key == y.flag by { AggregateFlag(r, p, 1, nals); }
  }

  lemma {:induction false} AggregateStamped(r: Recording, x: Picture, p: Packet, nals: seq<Nal>, y: Picture)
    requires Shows(r, x) && p.payload != [] && NonEmpty(nals) && Lists(p.payload, 1, nals)
    requires y == x.(c := AddAll(x.c, nals), flag := y.flag, ts := Begun(x, p.timestamp))
    ensures Stamped(Aggregate(r, p, 1), y)
  {
    var a := Aggregate(r, p, 1);
    assert y.c.current != [] ==> a.frame.ts == y.ts by {
      AggregateCollects(r, x.c, p, 1, nals);
      AggregateStamp(r, p, 1);
      AnnexBEmpty(x.c.current);
      AnnexBEmpty(y.c.current);
    }
    AggregateOnlyCollects(r, p, 1);
    AddAllIsAppend(x.c, nals);
    StampStays(r, x, a, y);
  }

  lemma {:induction false} FragmentsShow(cfg: Config, r: Recording, x: Picture, u: Unit)
    requires cfg.headerOk && u.FuA? && WellFormed(u) && Shows(r, x)
    ensures Shows(Flush(cfg, Partial(cfg, r, u, |u.pieces|)), NextPicture(x, u))
  {
    var g, y := Partial(cfg, r, u, |u.pieces|), CutPicture(x, true);
    var z := y.(c := Add(y.c, u.nal), flag := IsIdr(u.nal), ts := u.ts);
    assert Opened(g, z) by {
      FragmentsRefine(cfg, r, x.c, u);
      FlushOpensWith(cfg, r, x);
      OpeningStays(Flush(cfg, r), y, g, z);
    }
    assert Stamped(g, z) by { FlushMarks(cfg, r, x); }
    FlushShows(cfg, g, z, true);
  }

  lemma {:induction false} UnitShows(cfg: Config, r: Recording, x: Picture, u: Unit)
    requires cfg.headerOk && WellFormed(u) && Shows(r, x)
    ensures Shows(Feed(cfg, r, Packets(cfg.videoPT, u)), NextPicture(x, u))
  {
    match u
    case Single(ts, nal, marker, beyond) =>
      var p := Packet(cfg.videoPT, ts, marker, nal, beyond);
      FeedSnoc(cfg, r, [], p);
      assert [] + [p] == [p];
      SingleShows(cfg, r, x, p);
    case StapA(ts, header, nals, marker, beyond) =>
      var p := Packet(cfg.videoPT, ts, marker, [header] + Aggregation(nals), beyond);
      FeedSnoc(cfg, r, [], p);
      assert [] + [p] == [p];
      StapShows(cfg, r, x, p, header, nals);
    case FuA(_, _, pieces, _, _) =>
      FragmentsFed(cfg, r, u, |pieces|);
      FragmentsShow(cfg, r, x, u);
  }

  lemma {:induction false} StreamShows(cfg: Config, us: seq<Unit>)
    requires cfg.headerOk && AllWellFormed(us)
    ensures Shows(Feed(cfg, FRESH, Packetize(cfg.videoPT, us)), PictureOf(us))
  {
    if us != [] {
      var n := |us| - 1;
      StreamShows(cfg, us[..n]);
      var before := Packetize(cfg.videoPT, us[..n]);
      FeedAppend(cfg, FRESH, before, Packets(cfg.videoPT, us[n]));
      UnitShows(cfg, Feed(cfg, FRESH, before), PictureOf(us[..n]), us[n]);
    }
  }

  lemma {:induction false} PictureCollects(us: seq<Unit>)
    requires AllWellFormed(us)
    ensures PictureOf(us).c == Collect(us)
  {
    if us != [] {
      PictureCollects(us[..|us| - 1]);
      UnitCollects(PictureOf(us[..|us| - 1]), us[|us| - 1]);
    }
  }

  lemma {:induction false} UnitCollects(x: Picture, u: Unit)
    requires WellFormed(u)
    ensures NextPicture(x, u).c == CollectUnit(x.c, u)
  {
  }

  lemma ShownAlike(r: Recording, s: Recording, x: Picture)
    requires SamePicture(r, s) && Shows(s, x)
    ensures Shows(r, x)
  {
  }

  /**
   For every loss-free, in-order packetization, with audio anywhere in between: whether the file is
   started, and with which group of units, is the function of the units above.
   */
  lemma {:induction false} OpeningIsExact(cfg: Config, packets: seq<Packet>, us: seq<Unit>)
    requires cfg.headerOk && AllWellFormed(us)
    requires VideoPart(cfg, packets) == Packetize(cfg.videoPT, us)
    ensures Shows(Record(cfg, packets), PictureOf(us)) && PictureOf(us).c == Collect(us)
  {
    var s := Feed(cfg, FRESH, Packetize(cfg.videoPT, us));
    assert Shows(s, PictureOf(us)) by { StreamShows(cfg, us); }
    assert SamePicture(Record(cfg, packets), s) by { AudioDoesNotDisturb(cfg, packets); }
    ShownAlike(Record(cfg, packets), s, PictureOf(us));
    PictureCollects(us);
  }

  // ---------------------------------------------------------------------------
  // Timestamps and flags of all frames
  // ---------------------------------------------------------------------------

  /** For every unit that is neither SPS nor PPS, the timestamp it was sent with. */
  function MediaStamps(us: seq<Unit>): seq<u32>
    requires AllWellFormed(us)
  {
    if us == [] then []
    else
      var u := us[|us| - 1];
      UnitAddsMedia(Collect([]), u);
      MediaStamps(us[..|us| - 1]) + seq(|Media(NalsOf(u))|, _ => u.ts)
  }

  /** Group j was cut with the timestamp of its first unit. */
  ghost predicate StampOfFirst(x: Picture, stamps: seq<u32>, j: nat) {
    j < |x.c.groups| <= |x.marks| ==>
      |Flatten(x.c.groups[..j])| < |stamps| && x.marks[j].ts == stamps[|Flatten(x.c.groups[..j])|]
  }

  ghost predicate StampsOk(x: Picture, stamps: seq<u32>) {
    && |stamps| == |AllUnits(x.c)| && |x.marks| == |x.c.groups|
    && (forall j: nat :: StampOfFirst(x, stamps, j))
    && (x.c.current != [] ==> x.ts == stamps[|Flatten(x.c.groups)|])
  }

  lemma {:induction false} CutKeepsStamps(x: Picture, stamps: seq<u32>, now: bool)
    requires StampsOk(x, stamps)
    ensures StampsOk(CutPicture(x, now), stamps)
  {
    if now && x.c.current != [] {
      var y, groups := CutPicture(x, true), x.c.groups;
      CutKeepsUnits(x.c, true);
      forall j: nat ensures StampOfFirst(y, stamps, j) {
        assert StampOfFirst(x, stamps, j);
        if j <= |groups| { assert y.c.groups[..j] == groups[..j]; }
        assert groups[..|groups|] == groups;
      }
    }
  }

  lemma {:induction false} JoinKeepsStamps(x: Picture, stamps: seq<u32>, c: Collection, flag: bool, ts: u32, media: seq<Nal>)
    requires StampsOk(x, stamps) && c.groups == x.c.groups && c.current == x.c.current + media
    ensures StampsOk(x.(c := c, flag := flag, ts := Begun(x, ts)), stamps + seq(|media|, _ => ts))
  {
    var y, more := x.(c := c, flag := flag, ts := Begun(x, ts)), stamps + seq(|media|, _ => ts);
    forall j: nat ensures StampOfFirst(y, more, j) { assert StampOfFirst(x, stamps, j); }
  }

  lemma {:induction false} UnitKeepsStamps(x: Picture, u: Unit, stamps: seq<u32>)
    requires WellFormed(u) && StampsOk(x, stamps)
    ensures NonEmpty(NalsOf(u)) && StampsOk(NextPicture(x, u), stamps + seq(|Media(NalsOf(u))|, _ => u.ts))
  {
    UnitAddsMedia(x.c, u);
    var media, more := Media(NalsOf(u)), stamps + seq(|Media(NalsOf(u))|, _ => u.ts);
    match u
    case Single(ts, nal, marker, _) =>
      if IsParameterSet(nal) {
        MediaOfOne(nal);
        assert more == stamps;
        SetKeepsStamps(x, Add(x.c, nal), stamps);
      } else {
        MediaOfOne(nal);
        var flag := if x.c.current == [] then IsIdr(nal) else x.flag;
        JoinKeepsStamps(x, stamps, Add(x.c, nal), flag, ts, media);
        CutKeepsStamps(x.(c := Add(x.c, nal), flag := flag, ts := Begun(x, ts)), more, marker);
      }
    case StapA(ts, _, nals, marker, _) =>
      AddAllIsAppend(x.c, nals);
      JoinKeepsStamps(x, stamps, AddAll(x.c, nals), x.flag || IdrAmong(nals), ts, media);
      CutKeepsStamps(x.(c := AddAll(x.c, nals), flag := x.flag || IdrAmong(nals), ts := Begun(x, ts)), more, marker);
    case FuA(ts, nal, _, _, _) =>
      MediaOfOne(nal);
      var y := CutPicture(x, true);
      CutKeepsStamps(x, stamps, true);
      JoinKeepsStamps(y, stamps, Add(y.c, nal), IsIdr(nal), ts, media);
      CutKeepsStamps(y.(c := Add(y.c, nal), flag := IsIdr(nal), ts := ts), more, true);
  }

  lemma {:induction false} MediaOfOne(nal: Nal)
    requires nal != []
    ensures NonEmpty([nal]) && Media([nal]) == if IsParameterSet(nal) then [] else [nal]
  {
    assert [nal][1..] == [];
  }

  lemma {:induction false} SetKeepsStamps(x: Picture, c: Collection, stamps: seq<u32>)
    requires StampsOk(x, stamps) && c.groups == x.c.groups && c.current == x.c.current
    ensures StampsOk(x.(c := c), stamps)
  {
    forall j: nat ensures StampOfFirst(x.(c := c), stamps, j) { assert StampOfFirst(x, stamps, j); }
  }

  lemma {:induction false} StreamKeepsStamps(us: seq<Unit>)
    requires AllWellFormed(us)
    ensures StampsOk(PictureOf(us), MediaStamps(us))
  {
    if us != [] {
      StreamKeepsStamps(us[..|us| - 1]);
      UnitKeepsStamps(PictureOf(us[..|us| - 1]), us[|us| - 1], MediaStamps(us[..|us| - 1]));
    }
  }

  /**
   For every loss-free, in-order packetization, with audio anywhere in between: frame i, which holds
   group k, was written with the timestamp that the first unit of the group was sent with, and with
   the flag that the units give to the group.
   */
  lemma {:induction false} FrameMarksAreExact(cfg: Config, packets: seq<Packet>, us: seq<Unit>, i: nat, k: nat)
    requires cfg.headerOk && AllWellFormed(us)
    requires VideoPart(cfg, packets) == Packetize(cfg.videoPT, us)
    requires i < |Videos(Record(cfg, packets).log)| <= |Collect(us).groups|
    requires k == |Collect(us).groups| - |Videos(Record(cfg, packets).log)| + i
    ensures var v, first := Videos(Record(cfg, packets).log)[i], |Flatten(Collect(us).groups[..k])|;
            && first < |MediaStamps(us)| && v.timestamp == MediaStamps(us)[first]
            && k < |PictureOf(us).marks| && v.key == PictureOf(us).marks[k].key
  {
    var r, x := Record(cfg, packets), PictureOf(us);
    assert Shows(r, x) && x.c == Collect(us) by { OpeningIsExact(cfg, packets, us); }
    assert StampOfFirst(x, MediaStamps(us), k) by { StreamKeepsStamps(us); }
    assert MarksOf(Videos(r.log))[i] == x.marks[k] by { MarkOf(MarksOf(Videos(r.log)), x, i); }
  }

  lemma {:induction false} MarkOf(written: seq<Mark>, x: Picture, i: nat)
    requires Marked(written, x) && i < |written|
    ensures |written| <= |x.marks| == |x.c.groups| && written[i] == x.marks[|x.marks| - |written| + i]
  {
  }

  // ---------------------------------------------------------------------------
  // When the opening group holds an IDR unit
  // ---------------------------------------------------------------------------

  /** An aggregation packet that begins a frame without an IDR unit while the flag is left up, before the file is started. */
  ghost predicate Borrows(x: Picture, u: Unit)
    requires WellFormed(u)
  {
    u.StapA? && x.opening.None? && x.c.current == [] && x.flag && Media(u.nals) != [] && !IdrAmong(u.nals)
  }

  ghost predicate NeverBorrows(us: seq<Unit>)
    requires AllWellFormed(us)
  {
    forall i :: 0 <= i < |us| ==> !Borrows(PictureOf(us[..i]), us[i])
  }

  /** Until the file is started the flag is true to the units of a frame; then the opening group holds an IDR unit. */
  ghost predicate TrueTo(x: Picture) {
    match x.opening
    case None => x.flag && x.c.current != [] ==> IdrAmong(x.c.current)
    case Some(group) => IdrAmong(group)
  }

  lemma IdrStays(nals: seq<Nal>, more: seq<Nal>)
    requires IdrAmong(nals) || IdrAmong(more)
    ensures IdrAmong(nals + more)
  {
    var all := nals + more;
    if IdrAmong(nals) {
      var j :| 0 <= j < |nals| && IsIdr(nals[j]);
      assert IsIdr(all[j]);
    } else {
      var j :| 0 <= j < |more| && IsIdr(more[j]);
      assert IsIdr(all[|nals| + j]);
    }
  }

  lemma {:induction false} MediaKeepsIdr(nals: seq<Nal>)
    requires NonEmpty(nals)
    ensures IdrAmong(nals) ==> IdrAmong(Media(nals))
  {
    if nals != [] {
      IdrFirst(nals);
      MediaKeepsIdr(nals[1..]);
      if !IsParameterSet(nals[0]) && IdrAmong(nals) {
        if IsIdr(nals[0]) { assert IsIdr([nals[0]][0]); }
        IdrStays([nals[0]], Media(nals[1..]));
      }
    }
  }

  lemma {:induction false} AddAllIsAppend(c: Collection, nals: seq<Nal>)
    requires NonEmpty(nals)
    ensures AddAll(c, nals).current == c.current + Media(nals) && AddAll(c, nals).groups == c.groups
    decreases |nals|
  {
    if nals != [] {
      AddAllIsAppend(Add(c, nals[0]), nals[1..]);
      if !IsParameterSet(nals[0]) { ConcatAssoc(c.current, [nals[0]], Media(nals[1..])); }
    }
  }

  lemma CutKeepsTrue(x: Picture, now: bool)
    requires TrueTo(x)
    ensures TrueTo(CutPicture(x, now))
  {
  }

  lemma {:induction false} StapKeepsTrue(x: Picture, nals: seq<Nal>, ts: u32)
    requires TrueTo(x) && NonEmpty(nals)
    requires x.opening.None? && x.c.current == [] && x.flag ==> Media(nals) == [] || IdrAmong(nals)
    ensures TrueTo(x.(c := AddAll(x.c, nals), flag := x.flag || IdrAmong(nals), ts := ts))
  {
    AddAllIsAppend(x.c, nals);
    MediaKeepsIdr(nals);
    if x.opening.None? && (IdrAmong(x.c.current) || IdrAmong(Media(nals))) { IdrStays(x.c.current, Media(nals)); }
  }

  lemma {:induction false} UnitKeepsTrue(x: Picture, u: Unit)
    requires TrueTo(x) && WellFormed(u) && !Borrows(x, u)
    ensures TrueTo(NextPicture(x, u))
  {
    match u
    case Single(_, nal, marker, _) =>
      if IsIdr(nal) { assert IsIdr([nal][0]); }
      if IdrAmong(x.c.current) || IdrAmong([nal]) { IdrStays(x.c.current, [nal]); }
    case StapA(_, _, nals, marker, _) =>
      StapKeepsTrue(x, nals, Begun(x, u.ts));
    case FuA(_, nal, _, _, _) =>
      if IsIdr(nal) {
        assert IsIdr([nal][0]);
        IdrStays([], [nal]);
      }
  }

  lemma {:induction false} NoBorrowingKeepsTrue(us: seq<Unit>)
    requires AllWellFormed(us) && NeverBorrows(us)
    ensures TrueTo(PictureOf(us))
  {
    if us != [] {
      var n := |us| - 1;
      var fewer := us[..n];
      assert NeverBorrows(fewer) by {
        forall i | 0 <= i < n ensures !Borrows(PictureOf(fewer[..i]), fewer[i]) {
          assert fewer[..i] == us[..i] && fewer[i] == us[i];
        }
      }
      assert TrueTo(PictureOf(fewer)) by { NoBorrowingKeepsTrue(fewer); }
      assert !Borrows(PictureOf(fewer), us[n]);
      UnitKeepsTrue(PictureOf(fewer), us[n]);
    }
  }

  /**
   For every such packetization in which, until the file is started, no aggregation packet begins a
   frame without an IDR unit while the flag is left up: the first frame written is a group of units
   that holds an IDR unit. Nothing is asked of what follows the start.
   */
  lemma {:induction false} StreamOpensOnIdr(cfg: Config, packets: seq<Packet>, us: seq<Unit>)
    requires cfg.headerOk && AllWellFormed(us) && NeverBorrows(us)
    requires VideoPart(cfg, packets) == Packetize(cfg.videoPT, us)
    ensures Record(cfg, packets).deferred || FirstGroupHasIdr(Record(cfg, packets), Collect(us).groups)
  {
    assert Shows(Record(cfg, packets), PictureOf(us)) && PictureOf(us).c == Collect(us) by {
      OpeningIsExact(cfg, packets, us);
    }
    assert TrueTo(PictureOf(us)) by { NoBorrowingKeepsTrue(us); }
    TrueOpening(Record(cfg, packets), PictureOf(us));
  }

  /** The group behind the first frame written. */
  ghost predicate FirstGroupHasIdr(r: Recording, groups: seq<seq<Nal>>) {
    0 < |Videos(r.log)| <= |groups| && IdrAmong(groups[|groups| - |Videos(r.log)|])
  }

  lemma TrueOpening(r: Recording, x: Picture)
    requires OpensWith(r, x) && TrueTo(x)
    ensures r.deferred || FirstGroupHasIdr(r, x.c.groups)
  {
  }
}
