/** Choosing a node for a new room when nothing is known about the client's location. */
module NodeSelection {
  import opened NodeValues

  datatype Candidate = Candidate(address: string, rooms: nat)

  // ---------------------------------------------------------------------------
  // The order
  // ---------------------------------------------------------------------------

  /** Lexicographic order on texts. */
  predicate TextLess(a: string, b: string) {
    b != "" && (a == "" || a[0] < b[0] || (a[0] == b[0] && TextLess(a[1..], b[1..])))
  }

  /** The texts agree before position k, where the first one ends or has the smaller character. */
  predicate SmallerAt(a: string, b: string, k: nat) {
    k <= |a| && k < |b| && a[..k] == b[..k] && (k == |a| || a[k] < b[k])
  }

  /** In dictionary order, without reference to how texts are compared. */
  ghost predicate Smaller(a: string, b: string) {
    exists k: nat :: SmallerAt(a, b, k)
  }

  lemma {:induction false} TextLessIsSmaller(a: string, b: string)
    ensures TextLess(a, b) <==> Smaller(a, b)
  {
    if a == "" || b == "" || a[0] != b[0] {
      if b != "" && (a == "" || a[0] < b[0]) { assert SmallerAt(a, b, 0); }
      forall k: nat | SmallerAt(a, b, k) ensures k == 0 {
        if k > 0 { SameFirst(a, b, k); }
      }
    } else {
      TextLessIsSmaller(a[1..], b[1..]);
      if k: nat :| SmallerAt(a[1..], b[1..], k) { ShiftSmaller(a, b, k); }
      if k: nat :| SmallerAt(a, b, k) {
        assert k > 0;
        ShiftSmaller(a, b, k - 1);
      }
    }
  }

  lemma {:induction false} SameFirst(a: string, b: string, k: nat)
    requires SmallerAt(a, b, k) && k > 0
    ensures a != "" && b != "" && a[0] == b[0]
  {
    assert a[..k][0] == b[..k][0];
  }

  lemma {:induction false} ShiftSmaller(a: string, b: string, k: nat)
    requires a != "" && b != "" && a[0] == b[0]
    ensures SmallerAt(a[1..], b[1..], k) <==> SmallerAt(a, b, k + 1)
  {
    if k + 1 <= |a| && k + 1 <= |b| {
      assert a[..k + 1] == [a[0]] + a[1..][..k] && b[..k + 1] == [b[0]] + b[1..][..k];
      assert a[..k + 1][1..] == a[1..][..k] && b[..k + 1][1..] == b[1..][..k];
    }
  }

  lemma {:induction false} TextLessIsTotal(a: string, b: string)
    ensures a == b || TextLess(a, b) || TextLess(b, a)
    ensures !(TextLess(a, b) && TextLess(b, a)) && !TextLess(a, a)
  {
    if a != "" {
      TextLessIsTotal(a[1..], a[1..]);
      if b != "" {
        TextLessIsTotal(a[1..], b[1..]);
        assert a == [a[0]] + a[1..] && b == [b[0]] + b[1..];
      }
    }
  }

  lemma {:induction false} TextLessIsTransitive(a: string, b: string, c: string)
    requires TextLess(a, b) && TextLess(b, c)
    ensures TextLess(a, c)
  {
    if a != "" && a[0] == b[0] == c[0] { TextLessIsTransitive(a[1..], b[1..], c[1..]); }
  }

  /** CompareNoGeoCandidates: fewer rooms, then this node itself, then the address. */
  predicate Before(a: Candidate, b: Candidate, self: string) {
    if a.rooms != b.rooms then a.rooms < b.rooms
    else if (a.address == self) != (b.address == self) then a.address == self
    else TextLess(a.address, b.address)
  }

  /** The comparator is a strict total order, as std::sort demands: fewer rooms, then self, then the smaller address. */
  lemma {:induction false} BeforeIsStrictTotalOrder(a: Candidate, b: Candidate, c: Candidate, self: string)
    ensures Before(a, b, self) <==>
            || a.rooms < b.rooms
            || (a.rooms == b.rooms && a.address == self && b.address != self)
            || (a.rooms == b.rooms && a.address != self && b.address != self && Smaller(a.address, b.address))
    ensures !Before(a, a, self) && !(Before(a, b, self) && Before(b, a, self))
    ensures a == b || Before(a, b, self) || Before(b, a, self)
    ensures Before(a, b, self) && Before(b, c, self) ==> Before(a, c, self)
  {
    TextLessIsSmaller(a.address, b.address);
    TextLessIsTotal(a.address, b.address);
    TextLessIsTotal(a.address, a.address);
    if TextLess(a.address, b.address) && TextLess(b.address, c.address) {
      TextLessIsTransitive(a.address, b.address, c.address);
    }
  }

  // ---------------------------------------------------------------------------
  // The choice
  // ---------------------------------------------------------------------------

  predicate Eligible(n: NodeInfo) {
    n.address != "" && !(n.maxRooms > 0 && n.rooms >= n.maxRooms)
  }

  function CandidateOf(n: NodeInfo): Candidate {
    Candidate(n.address, n.rooms)
  }

  /** `best` is the address of a least eligible node; empty exactly when none is eligible. */
  ghost predicate IsBest(nodes: map<string, NodeInfo>, self: string, best: string) {
    if best == "" then forall id :: id in nodes ==> !Eligible(nodes[id])
    else exists id :: id in nodes && Eligible(nodes[id]) && nodes[id].address == best && IsLeast(nodes, self, nodes[id])
  }

  ghost predicate IsLeast(nodes: map<string, NodeInfo>, self: string, n: NodeInfo) {
    forall other :: other in nodes && Eligible(nodes[other]) ==>
      !Before(CandidateOf(nodes[other]), CandidateOf(n), self)
  }

  /** Nobody has fewer rooms; with as many rooms, this node itself comes before all others, then the smaller address. */
  ghost predicate LeastLoaded(nodes: map<string, NodeInfo>, self: string, n: NodeInfo) {
    forall other :: other in nodes && CanTakeRooms(nodes[other]) ==> NotBetter(nodes[other], n, self)
  }

  ghost predicate NotBetter(other: NodeInfo, n: NodeInfo, self: string) {
    && n.rooms <= other.rooms
    && (n.rooms == other.rooms && n.address != self ==> other.address != self && !Smaller(other.address, n.address))
  }

  /** It has an address, and either no limit or fewer rooms than that. */
  ghost predicate CanTakeRooms(n: NodeInfo) {
    |n.address| > 0 && (n.maxRooms == 0 || n.rooms < n.maxRooms)
  }

  /** `best` is the address of a node that can take rooms and is least loaded; empty exactly when no node can. */
  ghost predicate IsLeastLoaded(nodes: map<string, NodeInfo>, self: string, best: string) {
    if best == "" then forall id :: id in nodes ==> !CanTakeRooms(nodes[id])
    else exists id :: id in nodes && CanTakeRooms(nodes[id]) && nodes[id].address == best && LeastLoaded(nodes, self, nodes[id])
  }

  /** The best node is the least loaded one among those that can take rooms, whatever comparator finds it. */
  lemma {:induction false} BestIsLeastLoaded(nodes: map<string, NodeInfo>, self: string, best: string)
    ensures IsBest(nodes, self, best) <==> IsLeastLoaded(nodes, self, best)
  {
    forall id | id in nodes ensures IsLeast(nodes, self, nodes[id]) <==> LeastLoaded(nodes, self, nodes[id]) {
      LeastIsLeastLoaded(nodes, self, nodes[id]);
    }
    assert forall id :: id in nodes ==> (Eligible(nodes[id]) <==> CanTakeRooms(nodes[id]));
  }

  lemma {:induction false} LeastIsLeastLoaded(nodes: map<string, NodeInfo>, self: string, n: NodeInfo)
    ensures IsLeast(nodes, self, n) <==> LeastLoaded(nodes, self, n)
  {
    forall other | other in nodes
      ensures !Before(CandidateOf(nodes[other]), CandidateOf(n), self) <==> NotBetter(nodes[other], n, self)
    {
      BeforeMeansBetter(nodes[other], n, self);
    }
  }

  lemma {:induction false} BeforeMeansBetter(other: NodeInfo, n: NodeInfo, self: string)
    ensures !Before(CandidateOf(other), CandidateOf(n), self) <==> NotBetter(other, n, self)
  {
    TextLessIsSmaller(other.address, n.address);
    TextLessIsTotal(other.address, n.address);
  }

  /** The choice is determined by the cache contents. */
  lemma BestIsUnique(nodes: map<string, NodeInfo>, self: string, a: string, b: string)
    requires IsBest(nodes, self, a) && IsBest(nodes, self, b)
    ensures a == b
  {
    if a != "" && b != "" {
      var i :| i in nodes && Eligible(nodes[i]) && nodes[i].address == a && IsLeast(nodes, self, nodes[i]);
      var j :| j in nodes && Eligible(nodes[j]) && nodes[j].address == b && IsLeast(nodes, self, nodes[j]);
      BeforeIsStrictTotalOrder(CandidateOf(nodes[i]), CandidateOf(nodes[j]), CandidateOf(nodes[i]), self);
    }
  }

  ghost predicate Sorted(cs: seq<Candidate>, self: string) {
    forall i, j :: 0 <= i < j < |cs| ==> !Before(cs[j], cs[i], self)
  }

  /** Stands for std::sort: insertion into a sorted prefix. */
  method SortCandidates(cs: seq<Candidate>, self: string) returns (sorted: seq<Candidate>)
    ensures Sorted(sorted, self) && multiset(sorted) == multiset(cs)
  {
    sorted := [];
    for i := 0 to |cs|
      invariant Sorted(sorted, self) && multiset(sorted) == multiset(cs[..i])
    {
      assert cs[..i + 1] == cs[..i] + [cs[i]];
      sorted := Insert(sorted, cs[i], self);
    }
    assert cs[..|cs|] == cs;
  }

  method Insert(cs: seq<Candidate>, x: Candidate, self: string) returns (r: seq<Candidate>)
    requires Sorted(cs, self)
    ensures Sorted(r, self) && multiset(r) == multiset(cs) + multiset{x}
  {
    var k := 0;
    while k < |cs| && !Before(x, cs[k], self)
      invariant k <= |cs|
      invariant forall i :: 0 <= i < k ==> !Before(x, cs[i], self)
    {
      k := k + 1;
    }
    r := cs[..k] + [x] + cs[k..];
    forall i | k <= i < |cs| ensures !Before(cs[i], x, self) {
      BeforeIsStrictTotalOrder(x, cs[k], cs[i], self);
      BeforeIsStrictTotalOrder(cs[i], x, cs[k], self);
    }
    assert cs == cs[..k] + cs[k..];
  }

  /** The candidates are exactly those of the eligible nodes. */
  ghost predicate CandidatesOf(nodes: map<string, NodeInfo>, cs: seq<Candidate>) {
    && (forall id :: id in nodes && Eligible(nodes[id]) ==> CandidateOf(nodes[id]) in cs)
    && (forall c :: c in cs ==> exists id :: id in nodes && Eligible(nodes[id]) && CandidateOf(nodes[id]) == c)
  }

  /** The loop over the cache, in the order in which the hash map happens to be iterated. */
  method CollectCandidates(nodes: map<string, NodeInfo>, order: seq<string>) returns (candidates: seq<Candidate>)
    requires forall id :: id in order <==> id in nodes
    ensures CandidatesOf(nodes, candidates)
  {
    candidates := [];
    for i := 0 to |order|
      invariant forall k :: 0 <= k < i && Eligible(nodes[order[k]]) ==> CandidateOf(nodes[order[k]]) in candidates
      invariant forall c :: c in candidates ==> exists id :: id in nodes && Eligible(nodes[id]) && CandidateOf(nodes[id]) == c
    {
      var info := nodes[order[i]];
      if info.address == "" { continue; }
      if info.maxRooms > 0 && info.rooms >= info.maxRooms { continue; }
      candidates := candidates + [Candidate(info.address, info.rooms)];
    }
  }

  lemma SameMembers(a: seq<Candidate>, b: seq<Candidate>, c: Candidate)
    requires multiset(a) == multiset(b)
    ensures c in a <==> c in b
  {
    assert c in a <==> c in multiset(a);
    assert c in b <==> c in multiset(b);
  }

  /** Whatever order the map is iterated in and however the candidates are sorted, the first is best. */
  lemma FrontIsBest(nodes: map<string, NodeInfo>, candidates: seq<Candidate>, sorted: seq<Candidate>, self: string)
    requires CandidatesOf(nodes, candidates) && Sorted(sorted, self) && multiset(sorted) == multiset(candidates)
    ensures IsBest(nodes, self, if sorted == [] then "" else sorted[0].address)
    ensures IsLeastLoaded(nodes, self, if sorted == [] then "" else sorted[0].address)
  {
    BestIsLeastLoaded(nodes, self, if sorted == [] then "" else sorted[0].address);
    if sorted == [] {
      forall id | id in nodes ensures !Eligible(nodes[id]) { SameMembers(sorted, candidates, CandidateOf(nodes[id])); }
    } else {
      SameMembers(sorted, candidates, sorted[0]);
      var id :| id in nodes && Eligible(nodes[id]) && CandidateOf(nodes[id]) == sorted[0];
      forall other | other in nodes && Eligible(nodes[other])
        ensures !Before(CandidateOf(nodes[other]), sorted[0], self)
      {
        SameMembers(sorted, candidates, CandidateOf(nodes[other]));
        BeforeIsStrictTotalOrder(sorted[0], sorted[0], sorted[0], self);
      }
      assert IsLeast(nodes, self, nodes[id]);
    }
  }

  /** findBestNodeCached without client location. */
  method FindBestNodeCached(nodes: map<string, NodeInfo>, order: seq<string>, self: string) returns (best: string)
    requires forall id :: id in order <==> id in nodes
    ensures IsBest(nodes, self, best)
    ensures IsLeastLoaded(nodes, self, best)
  {
    var candidates := CollectCandidates(nodes, order);
    var sorted := SortCandidates(candidates, self);
    FrontIsBest(nodes, candidates, sorted, self);
    best := if sorted == [] then "" else sorted[0].address;
  }
}
