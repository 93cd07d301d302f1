/**
 Packetization of NAL units as sections 5.6, 5.7.1 and 5.8 of RFC 6184 prescribe, and the proof
 that the recorder undoes it.
 */
module Depacketizing {
  import opened Bytes
  import opened Timestamps
  import opened H264
  import opened Recorder
  import opened RecorderLaws

  // ---------------------------------------------------------------------------
  // The sender
  // ---------------------------------------------------------------------------

  /**
   One step of a packetizer: a unit alone, several units in one packet, or one unit in pieces.
   `beyond` is what the receive buffer happens to hold after the payload of each packet.
   */
  datatype Unit =
    | Single(ts: u32, nal: Nal, marker: bool, beyond: byte)
    | StapA(ts: u32, header: byte, nals: seq<Nal>, marker: bool, beyond: byte)
    | FuA(ts: u32, nal: Nal, pieces: seq<seq<byte>>, marker: bool, beyonds: seq<byte>)

  predicate IsNal(nal: Nal) {
    nal != [] && 1 <= NalType(nal) <= 23
  }

  predicate IsParameterSet(nal: Nal)
    requires nal != []
  {
    NalType(nal) == 7 || NalType(nal) == 8
  }

  predicate NonEmpty(nals: seq<Nal>) {
    forall i :: 0 <= i < |nals| ==> nals[i] != []
  }

  /** Units that fit the 16-bit sizes of an aggregation packet. */
  predicate Sendable(nals: seq<Nal>) {
    NonEmpty(nals) && forall i :: 0 <= i < |nals| ==> IsNal(nals[i]) && |nals[i]| < 0x1_0000
  }

  predicate WellFormed(u: Unit) {
    match u
    case Single(_, nal, _, _) => IsNal(nal)
    case StapA(_, header, nals, _, _) =>
      header % 32 == 24 && Sendable(nals)
    case FuA(_, nal, pieces, _, beyonds) =>
      IsNal(nal) && !IsParameterSet(nal) && pieces != [] && Flatten(pieces) == nal[1..] && |beyonds| == |pieces|
  }

  function NalsOf(u: Unit): seq<Nal> {
    match u
    case Single(_, nal, _, _) => [nal]
    case StapA(_, _, nals, _, _) => nals
    case FuA(_, nal, _, _, _) => [nal]
  }

  function Aggregation(nals: seq<Nal>): seq<byte>
    requires Sendable(nals)
  {
    if nals == [] then []
    else [|nals[0]| / 256, |nals[0]| % 256] + nals[0] + Aggregation(nals[1..])
  }

  /** The i-th fragment: indicator, header with start and end bits, piece. */
  function FragmentPayload(nal: Nal, pieces: seq<seq<byte>>, i: nat): seq<byte>
    requires nal != [] && i < |pieces|
  {
    var start, end := if i == 0 then 0x80 else 0, if i == |pieces| - 1 then 0x40 else 0;
    [nal[0] - nal[0] % 32 + 28, start + end + nal[0] % 32] + pieces[i]
  }

  /** The packets of one unit, in order; the marker is only ever on the last one. */
  function Packets(videoPT: byte, u: Unit): seq<Packet>
    requires WellFormed(u)
  {
    match u
    case Single(ts, nal, marker, beyond) => [Packet(videoPT, ts, marker, nal, beyond)]
    case StapA(ts, header, nals, marker, beyond) => [Packet(videoPT, ts, marker, [header] + Aggregation(nals), beyond)]
    case FuA(_, _, pieces, _, _) => Fragments(videoPT, u, |pieces|)
  }

  function FragmentPacket(videoPT: byte, u: Unit, i: nat): Packet
    requires u.FuA? && WellFormed(u) && i < |u.pieces|
  {
    Packet(videoPT, u.ts, u.marker && i + 1 == |u.pieces|, FragmentPayload(u.nal, u.pieces, i), u.beyonds[i])
  }

  /** The packets of the first n pieces. */
  function Fragments(videoPT: byte, u: Unit, n: nat): seq<Packet>
    requires u.FuA? && WellFormed(u) && n <= |u.pieces|
  {
    if n == 0 then [] else Fragments(videoPT, u, n - 1) + [FragmentPacket(videoPT, u, n - 1)]
  }

  function Packetize(videoPT: byte, us: seq<Unit>): seq<Packet>
    requires forall i :: 0 <= i < |us| ==> WellFormed(us[i])
  {
    if us == [] then [] else Packetize(videoPT, us[..|us| - 1]) + Packets(videoPT, us[|us| - 1])
  }

  function AllNals(us: seq<Unit>): seq<Nal> {
    if us == [] then [] else AllNals(us[..|us| - 1]) + NalsOf(us[|us| - 1])
  }

  // ---------------------------------------------------------------------------
  // The receiver on NAL units
  // ---------------------------------------------------------------------------

  /** Whole units: those flushed together, those collected since, and the current parameter sets. */
  datatype Collection = Collection(groups: seq<seq<Nal>>, current: seq<Nal>, sps: Nal, pps: Nal)

  function Cut(c: Collection, now: bool): Collection {
    if now && c.current != [] then c.(groups := c.groups + [c.current], current := []) else c
  }

  function Add(c: Collection, nal: Nal): Collection
    requires nal != []
  {
    if NalType(nal) == 7 then c.(sps := nal)
    else if NalType(nal) == 8 then c.(pps := nal)
    else c.(current := c.current + [nal])
  }

  function AddAll(c: Collection, nals: seq<Nal>): Collection
    requires NonEmpty(nals)
    decreases nals
  {
    if nals == [] then c else AddAll(Add(c, nals[0]), nals[1..])
  }

  function CollectUnit(c: Collection, u: Unit): Collection
    requires WellFormed(u)
  {
    match u
    case Single(_, nal, marker, _) => if IsParameterSet(nal) then Add(c, nal) else Cut(Add(c, nal), marker)
    case StapA(_, _, nals, marker, _) => Cut(AddAll(c, nals), marker)
    case FuA(_, nal, _, _, _) => Cut(Add(Cut(c, true), nal), true)
  }

  function Collect(us: seq<Unit>): Collection
    requires forall i :: 0 <= i < |us| ==> WellFormed(us[i])
  {
    if us == [] then Collection([], [], [], []) else CollectUnit(Collect(us[..|us| - 1]), us[|us| - 1])
  }

  /** The units without SPS and PPS. */
  function Media(nals: seq<Nal>): seq<Nal>
    requires NonEmpty(nals)
  {
    if nals == [] then []
    else if IsParameterSet(nals[0]) then Media(nals[1..])
    else [nals[0]] + Media(nals[1..])
  }

  // ---------------------------------------------------------------------------
  // The recorder refines it
  // ---------------------------------------------------------------------------

  /** The recorder's buffers are the Annex B form of the collected units. */
  ghost predicate Holds(r: Recording, c: Collection) {
    && r.open
    && r.frame.bytes == AnnexB(c.current)
    && |r.flushed| == |c.groups|
    && (forall i :: 0 <= i < |c.groups| ==> r.flushed[i] == AnnexB(c.groups[i]))
    && r.sps == c.sps && r.pps == c.pps
  }

  lemma FlushEffect(cfg: Config, r: Recording)
    requires cfg.headerOk && r.open
    ensures var f := Flush(cfg, r);
            && f.open && f.frame.bytes == [] && f.sps == r.sps && f.pps == r.pps
            && f.flushed == if r.frame.bytes == [] then r.flushed else r.flushed + [r.frame.bytes]
  {
    if r.frame.bytes != [] && r.deferred && r.frame.key && CanWriteHeader(r) {
      var s := r.(flushed := r.flushed + [r.frame.bytes]);
      WriteAudiosAppends(cfg, s.(deferred := false, log := s.log + [Header(Extradata(s.sps, s.pps))]), s.pending);
    }
  }

  lemma FlushCuts(cfg: Config, r: Recording, c: Collection, now: bool)
    requires cfg.headerOk && Holds(r, c)
    ensures Holds(FlushIf(cfg, r, now), Cut(c, now))
  {
    FlushEffect(cfg, r);
    AnnexBEmpty(c.current);
  }

  lemma SingleRefines(cfg: Config, r: Recording, c: Collection, p: Packet)
    requires cfg.headerOk && Holds(r, c) && IsNal(p.payload)
    ensures Holds(Depacketize(cfg, r, p), CollectUnit(c, Single(p.timestamp, p.payload, p.marker, p.beyond)))
  {
    if !IsParameterSet(p.payload) {
      var nt := NalType(p.payload);
      var f := if r.frame.bytes == [] then FrameBuffer([], p.timestamp, nt == 5) else r.frame;
      AnnexBSnoc(c.current, p.payload);
      FlushCuts(cfg, r.(frame := f.(bytes := f.bytes + (START_CODE + p.payload))), Add(c, p.payload), p.marker);
    }
  }

  lemma AggregationFront(data: seq<byte>, offset: nat, nals: seq<Nal>)
    requires offset <= |data| && Sendable(nals) && nals != [] && data[offset..] == Aggregation(nals)
    ensures var nal, at := nals[0], offset + 2;
            && at + |nal| <= |data| && data[at] == nal[0]
            && data[offset] as int * 256 + data[offset + 1] == |nal|
            && data[at..at + |nal|] == nal
            && data[at + |nal|..] == Aggregation(nals[1..])
  {
    var nal, at, rest := nals[0], offset + 2, data[offset..];
    assert rest == [|nal| / 256, |nal| % 256] + nal + Aggregation(nals[1..]);
    assert data[offset] == rest[0] && data[offset + 1] == rest[1];
    assert data[at..at + |nal|] == rest[2..2 + |nal|] == nal;
    assert data[at + |nal|..] == rest[2 + |nal|..] == Aggregation(nals[1..]);
    assert data[at] == rest[2];
  }

  /** From `offset` on, `data` lists the units with their sizes. */
  ghost predicate Lists(data: seq<byte>, offset: nat, nals: seq<Nal>)
    decreases |nals|
  {
    if nals == [] then offset == |data| else UnitAt(data, offset, nals[0]) && Lists(data, offset + 2 + |nals[0]|, nals[1..])
  }

  ghost predicate UnitAt(data: seq<byte>, offset: nat, nal: Nal) {
    && nal != [] && offset + 2 + |nal| <= |data| && data[offset] as int * 256 + data[offset + 1] == |nal|
    && data[offset + 2] == nal[0] && data[offset + 2..offset + 2 + |nal|] == nal
  }

  lemma {:induction false} AggregationLists(data: seq<byte>, offset: nat, nals: seq<Nal>)
    requires offset <= |data| && Sendable(nals) && data[offset..] == Aggregation(nals)
    ensures Lists(data, offset, nals)
    decreases |nals|
  {
    if nals != [] {
      AggregationFront(data, offset, nals);
      AggregationLists(data, offset + 2 + |nals[0]|, nals[1..]);
    }
  }

  lemma TakesUnit(r: Recording, p: Packet, offset: nat, nal: Nal)
    requires UnitAt(p.payload, offset, nal)
    ensures Aggregate(r, p, offset) == Aggregate(AddAggregated(r, p.timestamp, NalType(nal), nal), p, offset + 2 + |nal|)
  {
    AggregateOne(r, p, offset, |nal|);
    assert AddUnitAt(r, p, offset + 2, |nal|) == AddAggregated(r, p.timestamp, NalType(nal), nal);
  }

  /** The part of the correspondence that collecting changes. */
  ghost predicate HoldsNow(r: Recording, c: Collection) {
    r.frame.bytes == AnnexB(c.current) && r.sps == c.sps && r.pps == c.pps
  }

  lemma {:induction false} AggregateCollects(r: Recording, c: Collection, p: Packet, offset: nat, nals: seq<Nal>)
    requires HoldsNow(r, c) && NonEmpty(nals) && offset <= |p.payload| && Lists(p.payload, offset, nals)
    ensures HoldsNow(Aggregate(r, p, offset), AddAll(c, nals)) && AddAll(c, nals).groups == c.groups
    decreases |nals|
  {
    if nals != [] {
      TakesUnit(r, p, offset, nals[0]);
      AnnexBSnoc(c.current, nals[0]);
      var added := AddAggregated(r, p.timestamp, NalType(nals[0]), nals[0]);
      AggregateCollects(added, Add(c, nals[0]), p, offset + 2 + |nals[0]|, nals[1..]);
    }
  }

  lemma AggregateRefines(r: Recording, c: Collection, p: Packet, offset: nat, nals: seq<Nal>)
    requires Holds(r, c) && NonEmpty(nals) && offset <= |p.payload| && Lists(p.payload, offset, nals)
    ensures Holds(Aggregate(r, p, offset), AddAll(c, nals))
  {
    AggregateCollects(r, c, p, offset, nals);
    AggregateOnlyCollects(r, p, offset);
  }

  lemma StapRefines(cfg: Config, r: Recording, c: Collection, p: Packet, header: byte, nals: seq<Nal>)
    requires cfg.headerOk && Holds(r, c) && WellFormed(StapA(p.timestamp, header, nals, p.marker, p.beyond))
    requires p.payload == [header] + Aggregation(nals)
    ensures Holds(Depacketize(cfg, r, p), CollectUnit(c, StapA(p.timestamp, header, nals, p.marker, p.beyond)))
  {
    assert Lists(p.payload, 1, nals) by {
      assert p.payload[1..] == Aggregation(nals);
      AggregationLists(p.payload, 1, nals);
    }
    AggregateRefines(r, c, p, 1, nals);
    FlushCuts(cfg, Aggregate(r, p, 1), AddAll(c, nals), p.marker);
  }

  /** The recorder once n pieces of a fragmented unit are in, before the flush that ends it. */
  function Partial(cfg: Config, r: Recording, u: Unit, n: nat): Recording
    requires u.FuA? && WellFormed(u) && n <= |u.pieces|
  {
    var f := Flush(cfg, r);
    var begun := f.frame.bytes + (START_CODE + [u.nal[0]]);
    f.(frame := FrameBuffer(begun + Flatten(u.pieces[..n]), u.ts, NalType(u.nal) == 5))
  }

  lemma FragmentFields(nal: Nal, pieces: seq<seq<byte>>, n: nat)
    requires nal != [] && n < |pieces|
    ensures var data := FragmentPayload(nal, pieces, n);
            && |data| >= 2 && data[0] % 32 == 28 && data[0] - data[0] % 32 + data[1] % 32 == nal[0]
            && data[1] % 32 == NalType(nal)
            && (data[1] >= 0x80 <==> n == 0)
            && (data[1] / 0x40 % 2 == 1 <==> n == |pieces| - 1)
            && data[2..] == pieces[n]
  {
  }

  lemma PieceAdds(cfg: Config, r: Recording, u: Unit, n: nat)
    requires u.FuA? && WellFormed(u) && n < |u.pieces|
    ensures var b := Partial(cfg, r, u, n);
            b.(frame := b.frame.(bytes := b.frame.bytes + u.pieces[n])) == Partial(cfg, r, u, n + 1)
  {
    assert u.pieces[..n + 1] == u.pieces[..n] + [u.pieces[n]];
    FlattenSnoc(u.pieces[..n], u.pieces[n]);
    ConcatAssoc(Flush(cfg, r).frame.bytes + (START_CODE + [u.nal[0]]), Flatten(u.pieces[..n]), u.pieces[n]);
  }

  /** What the recorder makes of the fragment after the first n. */
  lemma {:induction false} FragmentStep(cfg: Config, r: Recording, u: Unit, n: nat)
    requires u.FuA? && WellFormed(u) && n < |u.pieces|
    ensures Depacketize(cfg, if n == 0 then r else Partial(cfg, r, u, n), FragmentPacket(cfg.videoPT, u, n)) ==
            FlushIf(cfg, Partial(cfg, r, u, n + 1), n + 1 == |u.pieces|)
  {
    var p, b := FragmentPacket(cfg.videoPT, u, n), Partial(cfg, r, u, n);
    FragmentFields(u.nal, u.pieces, n);
    if n == 0 {
      assert u.pieces[..0] == [];
      assert StartFragmented(Flush(cfg, r), p.timestamp, p.payload[0], p.payload[1]) == b;
    }
    PieceAdds(cfg, r, u, n);
  }

  // ---------------------------------------------------------------------------
  // Whole streams
  // ---------------------------------------------------------------------------

  /** The video packets alone. */
  function Feed(cfg: Config, r: Recording, ps: seq<Packet>): Recording {
    if ps == [] then r else Depacketize(cfg, Feed(cfg, r, ps[..|ps| - 1]), ps[|ps| - 1])
  }

  lemma {:induction false} FeedAppend(cfg: Config, r: Recording, a: seq<Packet>, b: seq<Packet>)
    ensures Feed(cfg, r, a + b) == Feed(cfg, Feed(cfg, r, a), b)
  {
    if b == [] {
      assert a + b == a;
    } else {
      var n := |b| - 1;
      FeedAppend(cfg, r, a, b[..n]);
      assert (a + b)[..|a + b| - 1] == a + b[..n];
    }
  }

  lemma FeedSnoc(cfg: Config, r: Recording, ps: seq<Packet>, p: Packet)
    ensures Feed(cfg, r, ps + [p]) == Depacketize(cfg, Feed(cfg, r, ps), p)
  {
    assert (ps + [p])[..|ps|] == ps;
  }

  /** All fragments of a unit together. */
  lemma {:induction false} FragmentsFed(cfg: Config, r: Recording, u: Unit, n: nat)
    requires u.FuA? && WellFormed(u) && 0 < n <= |u.pieces|
    ensures Feed(cfg, r, Fragments(cfg.videoPT, u, n)) == FlushIf(cfg, Partial(cfg, r, u, n), n == |u.pieces|)
  {
    var before, p := Fragments(cfg.videoPT, u, n - 1), FragmentPacket(cfg.videoPT, u, n - 1);
    FeedSnoc(cfg, r, before, p);
    FragmentStep(cfg, r, u, n - 1);
    if n > 1 { FragmentsFed(cfg, r, u, n - 1); }
  }

  /** With all pieces in, the unit is whole. */
  lemma {:induction false} FragmentsRefine(cfg: Config, r: Recording, c: Collection, u: Unit)
    requires cfg.headerOk && u.FuA? && WellFormed(u) && Holds(r, c)
    ensures Holds(Partial(cfg, r, u, |u.pieces|), Add(Cut(c, true), u.nal))
  {
    FlushCuts(cfg, r, c, true);
    var f, cut := Flush(cfg, r), Cut(c, true);
    assert f.frame.bytes == [] && cut.current == [];
    assert u.pieces[..|u.pieces|] == u.pieces && [u.nal[0]] + u.nal[1..] == u.nal;
    ConcatAssoc(START_CODE, [u.nal[0]], u.nal[1..]);
    assert [] + (START_CODE + [u.nal[0]]) == START_CODE + [u.nal[0]];
    AnnexBSnoc([], u.nal);
  }

  lemma {:induction false} UnitRefines(cfg: Config, r: Recording, c: Collection, u: Unit)
    requires cfg.headerOk && WellFormed(u) && Holds(r, c)
    ensures Holds(Feed(cfg, r, Packets(cfg.videoPT, u)), CollectUnit(c, u))
  {
    match u
    case Single(ts, nal, marker, beyond) =>
      var p := Packet(cfg.videoPT, ts, marker, nal, beyond);
      FeedSnoc(cfg, r, [], p);
      assert [] + [p] == [p];
      SingleRefines(cfg, r, c, p);
    case StapA(ts, header, nals, marker, beyond) =>
      var p := Packet(cfg.videoPT, ts, marker, [header] + Aggregation(nals), beyond);
      FeedSnoc(cfg, r, [], p);
      assert [] + [p] == [p];
      StapRefines(cfg, r, c, p, header, nals);
    case FuA(_, _, pieces, _, _) =>
      FragmentsFed(cfg, r, u, |pieces|);
      FragmentsRefine(cfg, r, c, u);
      FlushCuts(cfg, Partial(cfg, r, u, |pieces|), Add(Cut(c, true), u.nal), true);
  }

  lemma {:induction false} StreamRefines(cfg: Config, us: seq<Unit>)
    requires cfg.headerOk && forall i :: 0 <= i < |us| ==> WellFormed(us[i])
    ensures Holds(Feed(cfg, FRESH, Packetize(cfg.videoPT, us)), Collect(us))
  {
    if us != [] {
      var n := |us| - 1;
      StreamRefines(cfg, us[..n]);
      var before := Packetize(cfg.videoPT, us[..n]);
      FeedAppend(cfg, FRESH, before, Packets(cfg.videoPT, us[n]));
      UnitRefines(cfg, Feed(cfg, FRESH, before), Collect(us[..n]), us[n]);
    }
  }

  // ---------------------------------------------------------------------------
  // Nothing lost, nothing invented
  // ---------------------------------------------------------------------------

  function AllUnits(c: Collection): seq<Nal> {
    Flatten(c.groups) + c.current
  }

  lemma CutKeepsUnits(c: Collection, now: bool)
    ensures AllUnits(Cut(c, now)) == AllUnits(c)
  {
    FlattenSnoc(c.groups, c.current);
  }

  lemma {:induction false} AddAllAddsMedia(c: Collection, nals: seq<Nal>)
    requires NonEmpty(nals)
    ensures AllUnits(AddAll(c, nals)) == AllUnits(c) + Media(nals)
    decreases nals
  {
    if nals != [] {
      AddAllAddsMedia(Add(c, nals[0]), nals[1..]);
      if !IsParameterSet(nals[0]) {
        ConcatAssoc(Flatten(c.groups), c.current, [nals[0]]);
        ConcatAssoc(AllUnits(c), [nals[0]], Media(nals[1..]));
      }
    }
  }

  lemma {:induction false} MediaAppend(a: seq<Nal>, b: seq<Nal>)
    requires NonEmpty(a)
    requires NonEmpty(b)
    ensures Media(a + b) == Media(a) + Media(b)
  {
    if a == [] {
      assert a + b == b;
    } else {
      assert (a + b)[1..] == a[1..] + b;
      MediaAppend(a[1..], b);
    }
  }

  lemma UnitAddsMedia(c: Collection, u: Unit)
    requires WellFormed(u)
    ensures NonEmpty(NalsOf(u))
    ensures AllUnits(CollectUnit(c, u)) == AllUnits(c) + Media(NalsOf(u))
  {
    match u
    case Single(_, nal, marker, _) =>
      AddAllAddsMedia(c, [nal]);
      assert AddAll(c, [nal]) == Add(c, nal);
      CutKeepsUnits(Add(c, nal), marker);
    case StapA(_, _, nals, marker, _) =>
      AddAllAddsMedia(c, nals);
      CutKeepsUnits(AddAll(c, nals), marker);
    case FuA(_, nal, _, _, _) =>
      var cut := Cut(c, true);
      CutKeepsUnits(c, true);
      AddAllAddsMedia(cut, [nal]);
      assert AddAll(cut, [nal]) == Add(cut, nal);
      CutKeepsUnits(Add(cut, nal), true);
  }

  lemma {:induction false} CollectKeepsAllMedia(us: seq<Unit>)
    requires forall i :: 0 <= i < |us| ==> WellFormed(us[i])
    ensures NonEmpty(AllNals(us))
    ensures AllUnits(Collect(us)) == Media(AllNals(us))
  {
    if us != [] {
      var n := |us| - 1;
      CollectKeepsAllMedia(us[..n]);
      UnitAddsMedia(Collect(us[..n]), us[n]);
      MediaAppend(AllNals(us[..n]), NalsOf(us[n]));
    }
  }

  lemma {:induction false} FlattenAnnexB(groups: seq<seq<Nal>>, buffers: seq<seq<byte>>)
    requires |buffers| == |groups| && forall i :: 0 <= i < |groups| ==> buffers[i] == AnnexB(groups[i])
    ensures Flatten(buffers) == AnnexB(Flatten(groups))
  {
    if groups != [] {
      FlattenAnnexB(groups[1..], buffers[1..]);
      AnnexBAppend(groups[0], Flatten(groups[1..]));
    }
  }

  // ---------------------------------------------------------------------------
  // Audio in between
  // ---------------------------------------------------------------------------

  function VideoPart(cfg: Config, ps: seq<Packet>): seq<Packet> {
    if ps == [] then []
    else
      var before, p := VideoPart(cfg, ps[..|ps| - 1]), ps[|ps| - 1];
      if p.payloadType != cfg.audioPT && p.payloadType == cfg.videoPT then before + [p] else before
  }

  /** RTP timestamp and key flag of a written frame. */
  datatype Mark = Mark(ts: u32, key: bool)

  function MarksOf(vs: seq<Output>): (ms: seq<Mark>)
    requires forall i :: 0 <= i < |vs| ==> vs[i].Video?
    ensures |ms| == |vs| && forall i :: 0 <= i < |vs| ==> ms[i] == Mark(vs[i].timestamp, vs[i].key)
  {
    if vs == [] then [] else MarksOf(vs[..|vs| - 1]) + [Mark(vs[|vs| - 1].timestamp, vs[|vs| - 1].key)]
  }

  /** The same frame and parameter sets are being collected. */
  ghost predicate SameBuffers(r: Recording, s: Recording) {
    r.frame == s.frame && r.sps == s.sps && r.pps == s.pps
  }

  /** The same frames have been written. */
  ghost predicate SameWritten(r: Recording, s: Recording) {
    && r.open && s.open && r.flushed == s.flushed && r.deferred == s.deferred
    && MarksOf(Videos(r.log)) == MarksOf(Videos(s.log))
  }

  /** Two recordings with the same picture side. */
  ghost predicate SamePicture(r: Recording, s: Recording) {
    SameBuffers(r, s) && SameWritten(r, s)
  }

  lemma {:induction false} CollectingKeepsWritten(r: Recording, s: Recording, r': Recording, s': Recording)
    requires SameWritten(r, s) && OnlyCollects(r, r') && OnlyCollects(s, s')
    ensures SameWritten(r', s')
  {
    assert r'.log == r.log && s'.log == s.log;
  }

  /** Whether a flush starts the file, and what frames are written by then. */
  lemma {:induction false} FlushCounts(cfg: Config, r: Recording)
    requires cfg.headerOk && r.open && r.frame.bytes != []
    ensures var f := Flush(cfg, r);
            && (f.deferred <==> r.deferred && !(r.frame.key && CanWriteHeader(r)))
            && MarksOf(Videos(f.log)) ==
               if f.deferred then MarksOf(Videos(r.log)) else MarksOf(Videos(r.log)) + [Mark(r.frame.ts, r.frame.key)]
  {
    var f := r.(flushed := r.flushed + [r.frame.bytes]);
    if !r.deferred {
      Snoc(r.log, WriteVideo(cfg, f).log[|r.log|]);
    } else if r.frame.key && CanWriteHeader(r) {
      var header := Header(Extradata(f.sps, f.pps));
      Snoc(f.log, header);
      WriteAudiosAppends(cfg, f.(deferred := false, log := f.log + [header]), f.pending);
      var s := Start(cfg, f);
      Snoc(s.log, WriteVideo(cfg, s).log[|s.log|]);
    }
  }

  lemma {:induction false} FlushNumbers(cfg: Config, r: Recording)
    requires cfg.headerOk && r.open && r.frame.bytes != []
    ensures var f := Flush(cfg, r);
            && (f.deferred <==> r.deferred && !(r.frame.key && CanWriteHeader(r)))
            && |Videos(f.log)| == if f.deferred then |Videos(r.log)| else |Videos(r.log)| + 1
  {
    FlushCounts(cfg, r);
    var f := Flush(cfg, r);
    assert |MarksOf(Videos(f.log))| == |Videos(f.log)| && |MarksOf(Videos(r.log))| == |Videos(r.log)|;
  }

  lemma {:induction false} FlushKeepsSame(cfg: Config, r: Recording, s: Recording, now: bool)
    requires cfg.headerOk && SamePicture(r, s)
    ensures SamePicture(FlushIf(cfg, r, now), FlushIf(cfg, s, now))
  {
    FlushEffect(cfg, r);
    FlushEffect(cfg, s);
    FlushFrame(cfg, r);
    FlushFrame(cfg, s);
    if r.frame.bytes != [] {
      FlushCounts(cfg, r);
      FlushCounts(cfg, s);
    }
  }

  lemma FlushFrame(cfg: Config, r: Recording)
    ensures Flush(cfg, r).frame == r.frame || Flush(cfg, r).frame == r.frame.(bytes := [])
  {
    if r.frame.bytes != [] && r.open && r.deferred && r.frame.key && CanWriteHeader(r) && cfg.headerOk {
      var s := r.(flushed := r.flushed + [r.frame.bytes]);
      WriteAudiosAppends(cfg, s.(deferred := false, log := s.log + [Header(Extradata(s.sps, s.pps))]), s.pending);
    }
  }

  lemma {:induction false} AggregateKeepsSame(r: Recording, s: Recording, p: Packet, offset: nat)
    requires SamePicture(r, s) && offset <= |p.payload|
    ensures SamePicture(Aggregate(r, p, offset), Aggregate(s, p, offset))
  {
    assert SameBuffers(Aggregate(r, p, offset), Aggregate(s, p, offset)) by { AggregateKeepsBuffers(r, s, p, offset); }
    AggregateOnlyCollects(r, p, offset);
    AggregateOnlyCollects(s, p, offset);
    CollectingKeepsWritten(r, s, Aggregate(r, p, offset), Aggregate(s, p, offset));
  }

  lemma {:induction false} AggregateKeepsBuffers(r: Recording, s: Recording, p: Packet, offset: nat)
    requires SameBuffers(r, s) && offset <= |p.payload|
    ensures SameBuffers(Aggregate(r, p, offset), Aggregate(s, p, offset))
    decreases |p.payload| - offset
  {
    var data := p.payload;
    if offset + 2 <= |data| {
      var nalSize: nat := data[offset] as int * 256 + data[offset + 1];
      var at := offset + 2;
      if at + nalSize <= |data| {
        AggregateKeepsBuffers(AddUnitAt(r, p, at, nalSize), AddUnitAt(s, p, at, nalSize), p, at + nalSize);
      }
    }
  }

  lemma {:induction false} SingleKeepsSame(cfg: Config, r: Recording, s: Recording, p: Packet)
    requires cfg.headerOk && SamePicture(r, s) && p.payload != []
    ensures SamePicture(SingleNal(cfg, r, p), SingleNal(cfg, s, p))
  {
    var f := if r.frame.bytes == [] then FrameBuffer([], p.timestamp, NalType(p.payload) == 5) else r.frame;
    var g := f.(bytes := f.bytes + (START_CODE + p.payload));
    var r', s' := r.(frame := g), s.(frame := g);
    assert SamePicture(r', s') by { CollectingKeepsWritten(r, s, r', s'); }
    assert SamePicture(FlushIf(cfg, r', p.marker), FlushIf(cfg, s', p.marker)) by { FlushKeepsSame(cfg, r', s', p.marker); }
    var nt := NalType(p.payload);
    if nt == 7 {
      CollectingKeepsWritten(r, s, r.(sps := p.payload), s.(sps := p.payload));
    } else if nt == 8 {
      CollectingKeepsWritten(r, s, r.(pps := p.payload), s.(pps := p.payload));
    }
  }

  lemma {:induction false} FragmentKeepsSame(cfg: Config, r: Recording, s: Recording, p: Packet)
    requires cfg.headerOk && SamePicture(r, s) && |p.payload| >= 2
    ensures SamePicture(Fragment(cfg, r, p), Fragment(cfg, s, p))
  {
    var header := p.payload[1];
    var b := if header >= 0x80 then StartFragmented(Flush(cfg, r), p.timestamp, p.payload[0], header) else r;
    var d := if header >= 0x80 then StartFragmented(Flush(cfg, s), p.timestamp, p.payload[0], header) else s;
    assert SamePicture(b, d) by { FlushKeepsSame(cfg, r, s, true); }
    var g := b.frame.(bytes := b.frame.bytes + p.payload[2..]);
    assert SamePicture(b.(frame := g), d.(frame := g)) by { CollectingKeepsWritten(b, d, b.(frame := g), d.(frame := g)); }
    FlushKeepsSame(cfg, b.(frame := g), d.(frame := g), header / 0x40 % 2 == 1 || p.marker);
  }

  lemma {:induction false} DepacketizeKeepsSame(cfg: Config, r: Recording, s: Recording, p: Packet)
    requires cfg.headerOk && SamePicture(r, s)
    ensures SamePicture(Depacketize(cfg, r, p), Depacketize(cfg, s, p))
  {
    if p.payload != [] {
      var nt := NalType(p.payload);
      if 1 <= nt <= 23 {
        SingleKeepsSame(cfg, r, s, p);
      } else if nt == 28 && |p.payload| >= 2 {
        FragmentKeepsSame(cfg, r, s, p);
      } else if nt == 24 {
        AggregateKeepsSame(r, s, p, 1);
        FlushKeepsSame(cfg, Aggregate(r, p, 1), Aggregate(s, p, 1), p.marker);
      }
    }
  }

  lemma {:induction false} AudioDoesNotDisturb(cfg: Config, ps: seq<Packet>)
    requires cfg.headerOk
    ensures SamePicture(Record(cfg, ps), Feed(cfg, FRESH, VideoPart(cfg, ps)))
  {
    if ps != [] {
      var n := |ps| - 1;
      AudioDoesNotDisturb(cfg, ps[..n]);
      var r, p, before := Record(cfg, ps[..n]), ps[n], VideoPart(cfg, ps[..n]);
      if p.payloadType != cfg.audioPT && p.payloadType == cfg.videoPT {
        FeedSnoc(cfg, FRESH, before, p);
        DepacketizeKeepsSame(cfg, r.(video := Based(r.video, p.timestamp)), Feed(cfg, FRESH, before), p);
      } else if p.payloadType == cfg.audioPT && !r.deferred {
        var a := AudioPacket(p.timestamp, p.payload);
        WriteAudioAppends(cfg, r.(audioIn := r.audioIn + [a], audio := Based(r.audio, p.timestamp)), a);
      }
    }
  }

  lemma {:induction false} RecordHolds(cfg: Config, packets: seq<Packet>, us: seq<Unit>)
    requires cfg.headerOk && forall i :: 0 <= i < |us| ==> WellFormed(us[i])
    requires VideoPart(cfg, packets) == Packetize(cfg.videoPT, us)
    ensures Holds(Record(cfg, packets), Collect(us))
  {
    StreamRefines(cfg, us);
    AudioDoesNotDisturb(cfg, packets);
  }

  /**
   For every loss-free, in-order packetization of a NAL list, with audio packets anywhere in
   between: each flushed buffer is the Annex B form of whole units, and the flushed buffers
   followed by the residual one are the Annex B form of the list without SPS and PPS.
   */
  lemma {:induction false} DepacketizingIsExact(cfg: Config, packets: seq<Packet>, us: seq<Unit>)
    requires cfg.headerOk
    requires forall i :: 0 <= i < |us| ==> WellFormed(us[i])
    requires VideoPart(cfg, packets) == Packetize(cfg.videoPT, us)
    ensures NonEmpty(AllNals(us))
    ensures Holds(Record(cfg, packets), Collect(us))
    ensures AllUnits(Collect(us)) == Media(AllNals(us))
    ensures var r := Record(cfg, packets);
            Flatten(r.flushed) + r.frame.bytes == AnnexB(Media(AllNals(us)))
  {
    RecordHolds(cfg, packets, us);
    CollectKeepsAllMedia(us);
    var c := Collect(us);
    FlattenAnnexB(c.groups, Record(cfg, packets).flushed);
    AnnexBAppend(Flatten(c.groups), c.current);
  }

  /** The i-th written frame is the i-th of the last groups in length-prefixed form, and reads back as that group. */
  ghost predicate FrameHoldsGroup(r: Recording, c: Collection, i: nat) {
    var vs, groups := Videos(r.log), c.groups;
    i < |vs| <= |groups| && HoldsUnits(vs[i].data, groups[|groups| - |vs| + i])
  }

  ghost predicate HoldsUnits(data: seq<byte>, nals: seq<Nal>) {
    data == LengthPrefixed(nals) && Carries(data, nals)
  }

  /**
   End to end: when no unit hides a start code, the n-th video frame written is the
   length-prefixed form of a group of whole units, in stream order.
   */
  lemma {:induction false} WrittenFramesAreWholeUnits(cfg: Config, packets: seq<Packet>, us: seq<Unit>, i: nat)
    requires cfg.headerOk
    requires forall j :: 0 <= j < |us| ==> WellFormed(us[j])
    requires VideoPart(cfg, packets) == Packetize(cfg.videoPT, us)
    requires AllClean(AllNals(us))
    requires i < |Videos(Record(cfg, packets).log)|
    ensures FrameHoldsGroup(Record(cfg, packets), Collect(us), i)
  {
    var r, c := Record(cfg, packets), Collect(us);
    assert Holds(r, c) by { RecordHolds(cfg, packets, us); }
    assert RunInv(cfg, r) by { EveryRecordingIsSound(cfg, packets); }
    GroupsAreClean(us);
    FramesOfGroups(cfg, r, c, i, |c.groups| - |Videos(r.log)| + i);
  }

  lemma {:induction false} MediaIsClean(nals: seq<Nal>)
    requires NonEmpty(nals) && AllClean(nals)
    ensures AllClean(Media(nals))
  {
    if nals != [] { MediaIsClean(nals[1..]); }
  }

  lemma {:induction false} PartsAreClean(groups: seq<seq<Nal>>, rest: seq<Nal>, j: nat)
    requires j < |groups| && AllClean(Flatten(groups) + rest)
    ensures AllClean(groups[j])
  {
    var all := Flatten(groups) + rest;
    var tail := Flatten(groups[1..]) + rest;
    assert all == groups[0] + tail;
    if j == 0 {
      assert forall i :: 0 <= i < |groups[0]| ==> groups[0][i] == all[i];
    } else {
      assert forall i :: 0 <= i < |tail| ==> tail[i] == all[|groups[0]| + i];
      PartsAreClean(groups[1..], rest, j - 1);
    }
  }

  lemma GroupsAreClean(us: seq<Unit>)
    requires (forall i :: 0 <= i < |us| ==> WellFormed(us[i])) && AllClean(AllNals(us))
    ensures forall j :: 0 <= j < |Collect(us).groups| ==> AllClean(Collect(us).groups[j])
  {
    CollectKeepsAllMedia(us);
    MediaIsClean(AllNals(us));
    var c := Collect(us);
    forall j | 0 <= j < |c.groups| ensures AllClean(c.groups[j]) { PartsAreClean(c.groups, c.current, j); }
  }

  lemma {:induction false} GroupIsCarried(group: seq<Nal>)
    requires AllClean(group)
    ensures HoldsUnits(Avcc(AnnexB(group)), group)
  {
    AnnexBRoundTrip(group);
    LengthPrefixedRoundTrip(group);
  }

  lemma {:induction false} FrameOfGroup(cfg: Config, vs: seq<Output>, flushed: seq<seq<byte>>, i: nat, group: seq<Nal>)
    requires FrameAt(cfg, vs, flushed, i) && flushed[|flushed| - |vs| + i] == AnnexB(group) && AllClean(group)
    ensures HoldsUnits(vs[i].data, group)
  {
    GroupIsCarried(group);
  }

  lemma {:induction false} FramesOfGroups(cfg: Config, r: Recording, c: Collection, i: nat, k: nat)
    requires FramesInOrder(cfg, Videos(r.log), r.flushed, r.lastPts) && i < |Videos(r.log)|
    requires |r.flushed| == |c.groups| && k == |c.groups| - |Videos(r.log)| + i
    requires r.flushed[k] == AnnexB(c.groups[k]) && AllClean(c.groups[k])
    ensures FrameHoldsGroup(r, c, i)
  {
    assert FrameAt(cfg, Videos(r.log), r.flushed, i);
    FrameOfGroup(cfg, Videos(r.log), r.flushed, i, c.groups[k]);
  }
}
