/**
 H.264 byte formats of the recorder: the Annex B form with start codes, the length-prefixed form
 written to the muxer, and the conversion between them.
 */
module H264 {
  import opened Bytes
  import opened Options

  type Nal = seq<byte>

  const START_CODE: seq<byte> := [0, 0, 0, 1]

  /** The five low bits of the first byte. */
  function NalType(nal: Nal): nat
    requires nal != []
  {
    nal[0] % 32
  }

  function AnnexB(nals: seq<Nal>): seq<byte> {
    if nals == [] then [] else START_CODE + nals[0] + AnnexB(nals[1..])
  }

  lemma {:induction false} AnnexBAppend(a: seq<Nal>, b: seq<Nal>)
    ensures AnnexB(a + b) == AnnexB(a) + AnnexB(b)
  {
    if a == [] {
      assert a + b == b;
    } else {
      assert (a + b)[1..] == a[1..] + b;
      AnnexBAppend(a[1..], b);
      ConcatAssoc(START_CODE + a[0], AnnexB(a[1..]), AnnexB(b));
    }
  }

  lemma AnnexBSnoc(nals: seq<Nal>, nal: Nal)
    ensures AnnexB(nals + [nal]) == AnnexB(nals) + (START_CODE + nal)
  {
    AnnexBAppend(nals, [nal]);
    assert AnnexB([nal]) == START_CODE + nal + AnnexB([]);
  }

  lemma AnnexBEmpty(nals: seq<Nal>)
    ensures AnnexB(nals) == [] <==> nals == []
  {
  }

  // ---------------------------------------------------------------------------
  // Annex B to length-prefixed
  // ---------------------------------------------------------------------------

  function Be32(n: nat): seq<byte> {
    [n / 0x100_0000 % 256, n / 0x1_0000 % 256, n / 0x100 % 256, n % 256]
  }

  function LengthPrefixed(nals: seq<Nal>): seq<byte> {
    if nals == [] then [] else Be32(|nals[0]|) + nals[0] + LengthPrefixed(nals[1..])
  }

  /** Four bytes as a number, most significant first. */
  function PrefixValue(s: seq<byte>): nat
    requires |s| >= 4
  {
    s[0] as int * 0x100_0000 + s[1] as int * 0x1_0000 + s[2] as int * 0x100 + s[3]
  }

  /** Whoever reads the file: four bytes, most significant first, as a size, then that many bytes, to the end. */
  function ReadPrefixed(s: seq<byte>): Option<seq<Nal>> {
    if s == [] then Some([])
    else if |s| < 4 then None
    else
      var size := PrefixValue(s);
      if 4 + size > |s| then None
      else
        match ReadPrefixed(s[4 + size..])
        case None => None
        case Some(rest) => Some([s[4..4 + size]] + rest)
  }

  /** Units whose size fits into four bytes. */
  ghost predicate AllShort(nals: seq<Nal>) {
    forall i :: 0 <= i < |nals| ==> |nals[i]| < 0x1_0000_0000
  }

  /** The prefix is the size modulo 2^32. */
  lemma {:induction false} Be32Value(n: nat)
    ensures PrefixValue(Be32(n)) == n % 0x1_0000_0000
  {
    assert n / 0x1_0000 == n / 0x100 / 0x100;
    assert n / 0x100_0000 == n / 0x1_0000 / 0x100;
    assert n / 0x1_0000_0000 == n / 0x100_0000 / 0x100;
  }

  lemma {:induction false} PrefixOf(nal: Nal, rest: seq<byte>)
    ensures PrefixValue(Be32(|nal|) + nal + rest) == |nal| % 0x1_0000_0000
  {
    var s, b := Be32(|nal|) + nal + rest, Be32(|nal|);
    Be32Value(|nal|);
    assert s[0] == b[0] && s[1] == b[1] && s[2] == b[2] && s[3] == b[3];
  }

  lemma {:induction false} ReadsShort(nal: Nal, rest: seq<byte>, nals: seq<Nal>)
    requires |nal| < 0x1_0000_0000
    ensures ReadPrefixed(Be32(|nal|) + nal + rest) == Some([nal] + nals) <==> ReadPrefixed(rest) == Some(nals)
  {
    var s := Be32(|nal|) + nal + rest;
    PrefixOf(nal, rest);
    assert s[4..4 + |nal|] == nal && s[4 + |nal|..] == rest;
    ReadStep(s, nal, rest);
    if ReadPrefixed(rest).Some? { ConsCancels(nal, ReadPrefixed(rest).value, nals); }
  }

  lemma {:induction false} ReadStep(s: seq<byte>, nal: Nal, rest: seq<byte>)
    requires |s| >= 4 && PrefixValue(s) == |nal| && 4 + |nal| <= |s|
    requires s[4..4 + |nal|] == nal && s[4 + |nal|..] == rest
    ensures ReadPrefixed(s) == if ReadPrefixed(rest).None? then None else Some([nal] + ReadPrefixed(rest).value)
  {
  }

  lemma {:induction false} ConsCancels(nal: Nal, a: seq<Nal>, b: seq<Nal>)
    ensures [nal] + a == [nal] + b <==> a == b
  {
    assert ([nal] + a)[1..] == a && ([nal] + b)[1..] == b;
  }

  lemma {:induction false} MissesLong(nal: Nal, rest: seq<byte>, nals: seq<Nal>)
    requires |nal| >= 0x1_0000_0000
    ensures ReadPrefixed(Be32(|nal|) + nal + rest) != Some([nal] + nals)
  {
    var s := Be32(|nal|) + nal + rest;
    PrefixOf(nal, rest);
    var r := ReadPrefixed(s);
    assert r.Some? ==> |r.value[0]| == |nal| % 0x1_0000_0000 < |nal|;
  }

  /** The bytes read back as the units, unless one of them is too long for its prefix. */
  ghost predicate Carries(data: seq<byte>, nals: seq<Nal>) {
    ReadPrefixed(data) == Some(nals) <==> AllShort(nals)
  }

  /** The units can be read back from the length-prefixed form exactly when each is shorter than 2^32 bytes. */
  lemma {:induction false} LengthPrefixedRoundTrip(nals: seq<Nal>)
    ensures Carries(LengthPrefixed(nals), nals)
  {
    if nals != [] {
      var nal, more := nals[0], nals[1..];
      assert nals == [nal] + more;
      LengthPrefixedRoundTrip(more);
      if |nal| < 0x1_0000_0000 {
        ReadsShort(nal, LengthPrefixed(more), more);
        assert AllShort(nals) <==> AllShort(more);
      } else {
        MissesLong(nal, LengthPrefixed(more), more);
      }
    }
  }

  /** Size of the start code at position i: 3, 4, or 0 when there is none. */
  function StartCodeAt(s: seq<byte>, i: nat): nat {
    if i + 3 <= |s| && s[i] == 0 && s[i + 1] == 0 && s[i + 2] == 1 then 3
    else if i + 4 <= |s| && s[i] == 0 && s[i + 1] == 0 && s[i + 2] == 0 && s[i + 3] == 1 then 4
    else 0
  }

  /** The first start code at or after `from`, or the end. */
  function NextStart(s: seq<byte>, from: nat): (at: nat)
    requires from <= |s|
    ensures from <= at <= |s|
    ensures at < |s| ==> StartCodeAt(s, at) > 0
    ensures forall k :: from <= k < at ==> StartCodeAt(s, k) == 0
    decreases |s| - from
  {
    if from == |s| || StartCodeAt(s, from) > 0 then from else NextStart(s, from + 1)
  }

  /** The first position at or after `at` that no run of start codes covers. */
  function SkipStartCodes(s: seq<byte>, at: nat): (r: nat)
    requires at <= |s|
    ensures at <= r <= |s| && StartCodeAt(s, r) == 0
    decreases |s| - at
  {
    var n := StartCodeAt(s, at);
    if n == 0 then at else SkipStartCodes(s, at + n)
  }

  /** The NAL units that the Annex B reader finds from `offset` on. */
  function NalsFrom(s: seq<byte>, offset: nat): seq<Nal>
    requires offset <= |s|
    decreases |s| - offset
  {
    var nalStart := SkipStartCodes(s, NextStart(s, offset));
    if nalStart == |s| then []
    else
      var next := NextStart(s, nalStart);
      [s[nalStart..next]] + NalsFrom(s, next)
  }

  /** What the recorder hands to the muxer for a frame buffer. */
  function Avcc(s: seq<byte>): seq<byte> {
    LengthPrefixed(NalsFrom(s, 0))
  }

  method FindStartCode(s: seq<byte>, from: nat) returns (at: nat, size: nat)
    requires from <= |s|
    ensures at == NextStart(s, from) && size == StartCodeAt(s, at)
  {
    for i := from to |s|
      invariant NextStart(s, from) == NextStart(s, i)
    {
      if i + 3 <= |s| && s[i] == 0 && s[i + 1] == 0 && s[i + 2] == 1 { return i, 3; }
      if i + 4 <= |s| && s[i] == 0 && s[i + 1] == 0 && s[i + 2] == 0 && s[i + 3] == 1 { return i, 4; }
    }
    at, size := |s|, 0;
  }

  /** AnnexBReader::Next from `offset`: the unit found, if any, and the new offset. */
  method NextNal(s: seq<byte>, offset: nat) returns (found: bool, nal: Nal, newOffset: nat)
    requires offset <= |s|
    ensures offset <= newOffset <= |s|
    ensures !found ==> NalsFrom(s, offset) == []
    ensures found ==> offset < newOffset && NalsFrom(s, offset) == [nal] + NalsFrom(s, newOffset)
  {
    found, nal, newOffset := false, [], offset;
    if newOffset == |s| { return; }
    var start, size := FindStartCode(s, newOffset);
    if start == |s| { return false, [], |s|; }
    var nalStart := start + size;
    while nalStart < |s|
      invariant start <= nalStart <= |s|
      invariant SkipStartCodes(s, nalStart) == SkipStartCodes(s, NextStart(s, offset))
    {
      var extra, extraSize := FindStartCode(s, nalStart);
      if extra != nalStart { break; }
      nalStart := extra + extraSize;
    }
    if nalStart >= |s| { return false, [], |s|; }
    var next, _ := FindStartCode(s, nalStart);
    return true, s[nalStart..next], next;
  }

  method AnnexBToAvcc(annexB: seq<byte>) returns (avcc: seq<byte>)
    ensures avcc == Avcc(annexB)
    ensures Carries(avcc, NalsFrom(annexB, 0))
    ensures |annexB| < 0x1_0000_0000 ==> AllShort(NalsFrom(annexB, 0))
  {
    LengthPrefixedRoundTrip(NalsFrom(annexB, 0));
    UnitsAreShorter(annexB, 0);
    avcc := [];
    var offset := 0;
    while true
      invariant offset <= |annexB|
      invariant avcc + LengthPrefixed(NalsFrom(annexB, offset)) == Avcc(annexB)
      decreases |annexB| - offset
    {
      var found, nal, next := NextNal(annexB, offset);
      if !found { return; }
      ghost var rest := NalsFrom(annexB, next);
      assert ([nal] + rest)[1..] == rest;
      ConcatAssoc(avcc, Be32(|nal|) + nal, LengthPrefixed(rest));
      avcc := avcc + (Be32(|nal|) + nal);
      offset := next;
    }
  }

  /** No unit found is longer than the bytes it was found in. */
  lemma {:induction false} UnitsAreShorter(s: seq<byte>, offset: nat)
    requires offset <= |s|
    ensures forall i :: 0 <= i < |NalsFrom(s, offset)| ==> |NalsFrom(s, offset)[i]| <= |s|
    decreases |s| - offset
  {
    var nalStart := SkipStartCodes(s, NextStart(s, offset));
    if nalStart < |s| { UnitsAreShorter(s, NextStart(s, nalStart)); }
  }

  predicate PlainAt(nal: Nal, i: nat) {
    i + 2 < |nal| ==> !(nal[i] == 0 && nal[i + 1] == 0 && nal[i + 2] == 1)
  }

  /** No start code inside: what emulation prevention guarantees of an encoder's output. */
  ghost predicate Clean(nal: Nal) {
    nal != [] && forall i: nat :: i < |nal| ==> PlainAt(nal, i)
  }

  ghost predicate AllClean(nals: seq<Nal>) {
    forall i :: 0 <= i < |nals| ==> Clean(nals[i])
  }

  /** Scanning from the first byte of a clean NAL stops where the next one begins. */
  lemma ScanStopsAtNext(s: seq<byte>, at: nat, nal: Nal, rest: seq<Nal>, k: nat)
    requires at + |nal| <= |s| && s[at..at + |nal|] == nal && s[at + |nal|..] == AnnexB(rest)
    requires Clean(nal)
    ensures at <= k < at + |nal| ==> StartCodeAt(s, k) == 0
    ensures rest != [] ==> StartCodeAt(s, at + |nal|) == 4
  {
    var end := at + |nal|;
    if rest != [] {
      var tail := AnnexB(rest);
      assert tail[0] == 0 && tail[1] == 0 && tail[2] == 0 && tail[3] == 1;
      forall j | 0 <= j < |tail| ensures s[end + j] == tail[j] { assert s[end..][j] == s[end + j]; }
    } else {
      assert |s| == end;
    }
    if at <= k < end {
      forall j | at <= j < end ensures s[j] == nal[j - at] { assert s[at..end][j - at] == s[j]; }
      assert PlainAt(nal, k - at);
      if k + 1 < end { assert PlainAt(nal, k + 1 - at); }
    }
  }

  lemma NextStartIs(s: seq<byte>, from: nat, end: nat)
    requires from <= end <= |s| && (end < |s| ==> StartCodeAt(s, end) > 0)
    requires forall k: nat :: from <= k < end ==> StartCodeAt(s, k) == 0
    ensures NextStart(s, from) == end
  {
    assert NextStart(s, from) >= end;
  }

  /** A start code at `at`, then `nal`, then the Annex B form of `rest`. */
  ghost predicate NalAt(s: seq<byte>, at: nat, nal: Nal, rest: seq<Nal>) {
    && at + 4 + |nal| <= |s| && StartCodeAt(s, at) == 4
    && s[at + 4..at + 4 + |nal|] == nal && s[at + 4 + |nal|..] == AnnexB(rest)
  }

  lemma FirstFrom(s: seq<byte>, offset: nat, end: nat, nal: Nal, more: seq<Nal>)
    requires offset + 4 < |s| && StartCodeAt(s, offset) == 4 && StartCodeAt(s, offset + 4) == 0
    requires NextStart(s, offset + 4) == end && s[offset + 4..end] == nal && NalsFrom(s, end) == more
    ensures NalsFrom(s, offset) == [nal] + more
  {
    assert SkipStartCodes(s, offset) == offset + 4;
  }

  lemma NalExtent(s: seq<byte>, at: nat, nal: Nal, rest: seq<Nal>)
    requires at + |nal| <= |s| && s[at..at + |nal|] == nal && s[at + |nal|..] == AnnexB(rest)
    requires Clean(nal)
    ensures StartCodeAt(s, at) == 0 && NextStart(s, at) == at + |nal|
  {
    forall k: nat | at <= k < at + |nal|
      ensures StartCodeAt(s, k) == 0
    {
      ScanStopsAtNext(s, at, nal, rest, k);
    }
    ScanStopsAtNext(s, at, nal, rest, at);
    AnnexBEmpty(rest);
    NextStartIs(s, at, at + |nal|);
  }

  lemma NothingAtEnd(s: seq<byte>)
    ensures NalsFrom(s, |s|) == []
  {
  }

  ghost predicate HoldsClean(s: seq<byte>, offset: nat, nals: seq<Nal>) {
    offset <= |s| && s[offset..] == AnnexB(nals) && AllClean(nals)
  }

  lemma HoldsRest(s: seq<byte>, offset: nat, nals: seq<Nal>)
    requires HoldsClean(s, offset, nals) && nals != []
    ensures HoldsClean(s, offset + 4 + |nals[0]|, nals[1..]) && NalAt(s, offset, nals[0], nals[1..])
  {
    FrontOfAnnexB(s, offset, nals);
  }

  /** A start code at `at`, then exactly `nal` up to the next start code or the end. */
  ghost predicate LinkAt(s: seq<byte>, at: nat, nal: Nal) {
    && at + 4 < |s| && at + 4 + |nal| <= |s| && s[at + 4..at + 4 + |nal|] == nal
    && StartCodeAt(s, at) == 4 && StartCodeAt(s, at + 4) == 0 && NextStart(s, at + 4) == at + 4 + |nal|
  }

  ghost predicate Chain(s: seq<byte>, at: nat, nals: seq<Nal>)
    decreases |nals|
  {
    if nals == [] then at == |s| else LinkAt(s, at, nals[0]) && Chain(s, at + 4 + |nals[0]|, nals[1..])
  }

  lemma {:induction false} FirstLink(s: seq<byte>, at: nat, nals: seq<Nal>)
    requires HoldsClean(s, at, nals) && nals != []
    ensures LinkAt(s, at, nals[0]) && HoldsClean(s, at + 4 + |nals[0]|, nals[1..])
  {
    HoldsRest(s, at, nals);
    NalExtent(s, at + 4, nals[0], nals[1..]);
  }

  /** A property of positions and units that forces links makes a chain. */
  lemma {:induction false} ChainBy(s: seq<byte>, ok: (nat, seq<Nal>) -> bool, at: nat, nals: seq<Nal>)
    requires ok(at, nals)
    requires forall a: nat, ns: seq<Nal> :: ok(a, ns) && ns == [] ==> a == |s|
    requires forall a: nat, ns: seq<Nal> :: ok(a, ns) && ns != [] ==> LinkAt(s, a, ns[0]) && ok(a + 4 + |ns[0]|, ns[1..])
    ensures Chain(s, at, nals)
    decreases |nals|
  {
    if nals != [] { ChainBy(s, ok, at + 4 + |nals[0]|, nals[1..]); }
  }

  lemma {:induction false} CleanNalsChain(s: seq<byte>, at: nat, nals: seq<Nal>)
    requires HoldsClean(s, at, nals)
    ensures Chain(s, at, nals)
  {
    var ok := (a: nat, ns: seq<Nal>) => HoldsClean(s, a, ns);
    forall a: nat, ns: seq<Nal> | ok(a, ns) && ns != [] ensures LinkAt(s, a, ns[0]) && ok(a + 4 + |ns[0]|, ns[1..]) {
      FirstLink(s, a, ns);
    }
    ChainBy(s, ok, at, nals);
  }

  lemma {:induction false} ChainIsRead(s: seq<byte>, at: nat, nals: seq<Nal>)
    requires at <= |s| && Chain(s, at, nals)
    ensures NalsFrom(s, at) == nals
    decreases |nals|
  {
    if nals == [] {
      NothingAtEnd(s);
    } else {
      var end := at + 4 + |nals[0]|;
      ChainIsRead(s, end, nals[1..]);
      FirstFrom(s, at, end, nals[0], nals[1..]);
    }
  }

  lemma {:induction false} ReaderYieldsCleanNals(s: seq<byte>, offset: nat)
    requires offset <= |s|
    ensures AllClean(NalsFrom(s, offset))
    decreases |s| - offset
  {
    var nalStart := SkipStartCodes(s, NextStart(s, offset));
    if nalStart < |s| {
      var next := NextStart(s, nalStart);
      var nal := s[nalStart..next];
      forall i: nat | i < |nal| ensures PlainAt(nal, i) {
        assert StartCodeAt(s, nalStart + i) == 0;
      }
      ReaderYieldsCleanNals(s, next);
    }
  }

  /** Reading back the Annex B form returns the same units exactly when no unit hides a start code. */
  lemma AnnexBRoundTrip(nals: seq<Nal>)
    ensures NalsFrom(AnnexB(nals), 0) == nals <==> AllClean(nals)
  {
    var s := AnnexB(nals);
    assert s[0..] == s;
    ReaderYieldsCleanNals(s, 0);
    if AllClean(nals) {
      CleanNalsChain(s, 0, nals);
      ChainIsRead(s, 0, nals);
    }
  }

  lemma FrontOfAnnexB(s: seq<byte>, at: nat, nals: seq<Nal>)
    requires at <= |s| && nals != [] && s[at..] == AnnexB(nals)
    ensures NalAt(s, at, nals[0], nals[1..])
  {
    var t, n := s[at..], |nals[0]|;
    assert t == START_CODE + nals[0] + AnnexB(nals[1..]);
    assert t[0] == 0 && t[1] == 0 && t[2] == 0 && t[3] == 1;
    assert s[at] == t[0] && s[at + 1] == t[1] && s[at + 2] == t[2] && s[at + 3] == t[3];
    assert s[at + 4..at + 4 + n] == t[4..4 + n] == nals[0];
    assert s[at + 4 + n..] == t[4 + n..] == AnnexB(nals[1..]);
  }
}
