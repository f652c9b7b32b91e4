/** The capacity calculator: how much of a traffic record's limit the housing
    records referencing it leave free, and the invariants of the two stores
    that the update calls keep or, for a limit edit, may break. */
module CapacityCalculator {
  import opened Records

  /** The housings that reference traffic `tid`, in store order (the `filter` step). */
  function Matching(housings: seq<Housing>, tid: string): (r: seq<Housing>)
    ensures |r| <= |housings|
    ensures forall h :: h in r <==> h in housings && h.trafficId == tid
  {
    if housings == [] then []
    else if housings[0].trafficId == tid then [housings[0]] + Matching(housings[1..], tid)
    else Matching(housings[1..], tid)
  }

  /** The residents of `housings` added up from 0 (the `reduce` step). */
  function TotalResidents(housings: seq<Housing>): (total: int)
    ensures (forall h :: h in housings ==> h.numberOfResidents >= 0) ==> total >= 0
  {
    if housings == [] then 0 else housings[0].numberOfResidents + TotalResidents(housings[1..])
  }

  /** The residents allocated against traffic `tid`. */
  function SumResidents(housings: seq<Housing>, tid: string): int {
    TotalResidents(Matching(housings, tid))
  }

  function Max(a: int, b: int): int {
    if a < b then b else a
  }

  /** The headroom of traffic `id`: its limit less the residents allocated
      against it, floored at 0; 0 for an empty or unknown id. */
  function RemainingLimit(traffic: map<string, Traffic>, housings: seq<Housing>, id: string): (r: int)
    ensures r >= 0
    ensures id == "" || id !in traffic ==> r == 0
    ensures id != "" && id in traffic ==> r >= traffic[id].trafficLimit - SumResidents(housings, id)
    ensures r > 0 ==> id != "" && id in traffic && r == traffic[id].trafficLimit - SumResidents(housings, id)
  {
    if id == "" then 0
    else
      var totalResidents := SumResidents(housings, id);
      if id in traffic then Max(0, traffic[id].trafficLimit - totalResidents) else 0
  }

  /** The traffic store is keyed by each record's own non-empty id, and every
      record has a non-empty road name and a positive limit. */
  predicate WellFormedTraffic(traffic: map<string, Traffic>) {
    forall k | k in traffic ::
      k != "" && traffic[k].id == k && traffic[k].roadName != "" && traffic[k].trafficLimit > 0
  }

  /** The housing store holds records with distinct non-empty ids, non-empty
      names and positive resident counts, each referencing an existing traffic. */
  predicate WellFormedHousings(traffic: map<string, Traffic>, housings: seq<Housing>) {
    && (forall i | 0 <= i < |housings| ::
          && housings[i].id != ""
          && housings[i].housingName != ""
          && housings[i].numberOfResidents > 0
          && housings[i].trafficId in traffic)
    && (forall i, j | 0 <= i < j < |housings| :: housings[i].id != housings[j].id)
  }

  predicate WellFormed(traffic: map<string, Traffic>, housings: seq<Housing>) {
    WellFormedTraffic(traffic) && WellFormedHousings(traffic, housings)
  }

  /** An id that no housing in the store carries yet. */
  predicate FreshHousingId(housings: seq<Housing>, id: string) {
    id != "" && forall i | 0 <= i < |housings| :: housings[i].id != id
  }

  /** The intended capacity invariant: no traffic has more residents allocated than its limit. */
  predicate WithinLimits(traffic: map<string, Traffic>, housings: seq<Housing>) {
    forall k | k in traffic :: SumResidents(housings, k) <= traffic[k].trafficLimit
  }

  lemma {:induction false} MatchingConcat(a: seq<Housing>, b: seq<Housing>, tid: string)
    ensures Matching(a + b, tid) == Matching(a, tid) + Matching(b, tid)
  {
    if a == [] {
      assert a + b == b;
    } else {
      assert (a + b)[0] == a[0];
      assert (a + b)[1..] == a[1..] + b;
      MatchingConcat(a[1..], b, tid);
    }
  }

  /** The filter keeps each matching housing as often as the store holds it,
      and no other housing, so the reduce counts every allocation once. */
  lemma {:induction false} MatchingMultiset(housings: seq<Housing>, tid: string)
    ensures forall h :: multiset(Matching(housings, tid))[h]
                        == if h.trafficId == tid then multiset(housings)[h] else 0
  {
    if housings != [] {
      assert housings == [housings[0]] + housings[1..];
      MatchingMultiset(housings[1..], tid);
    }
  }

  lemma {:induction false} TotalResidentsConcat(a: seq<Housing>, b: seq<Housing>)
    ensures TotalResidents(a + b) == TotalResidents(a) + TotalResidents(b)
  {
    if a == [] {
      assert a + b == b;
    } else {
      assert (a + b)[0] == a[0];
      assert (a + b)[1..] == a[1..] + b;
      TotalResidentsConcat(a[1..], b);
    }
  }

  /** Splitting the housing store splits every traffic's allocated residents. */
  lemma SumResidentsConcat(a: seq<Housing>, b: seq<Housing>, tid: string)
    ensures SumResidents(a + b, tid) == SumResidents(a, tid) + SumResidents(b, tid)
  {
    MatchingConcat(a, b, tid);
    TotalResidentsConcat(Matching(a, tid), Matching(b, tid));
  }

  /** Adding one housing adds its residents to its own traffic and to no other. */
  lemma SumResidentsAppend(housings: seq<Housing>, h: Housing, tid: string)
    ensures SumResidents(housings + [h], tid)
         == SumResidents(housings, tid) + (if h.trafficId == tid then h.numberOfResidents else 0)
  {
    SumResidentsConcat(housings, [h], tid);
    assert [h][1..] == [];
    assert Matching([h], tid) == if h.trafficId == tid then [h] else [];
    assert TotalResidents([h]) == h.numberOfResidents;
  }

  /** A traffic that no housing references has no residents allocated. */
  lemma SumResidentsUnreferenced(housings: seq<Housing>, tid: string)
    requires forall i | 0 <= i < |housings| :: housings[i].trafficId != tid
    ensures SumResidents(housings, tid) == 0
  {
  }

  /** The allocated residents do not depend on the order in which the store
      enumerates its housings, so a store kept in insertion order gives the
      same headroom as one enumerated in key order. */
  lemma {:induction false} SumResidentsPermutation(a: seq<Housing>, b: seq<Housing>, tid: string)
    requires multiset(a) == multiset(b)
    ensures SumResidents(a, tid) == SumResidents(b, tid)
    decreases |a|
  {
    if a == [] {
      assert |b| == |multiset(b)| == 0;
    } else {
      var x := a[0];
      assert x in multiset(b);
      var i :| 0 <= i < |b| && b[i] == x;
      var rest := b[..i] + b[i + 1..];
      assert b == b[..i] + [x] + b[i + 1..];
      assert a == [x] + a[1..];
      assert multiset(a[1..]) == multiset(rest) by {
        assert multiset(b) == multiset(b[..i]) + multiset{x} + multiset(b[i + 1..]);
        assert multiset(rest) == multiset(b[..i]) + multiset(b[i + 1..]);
        assert multiset(rest) == multiset(b) - multiset{x};
        assert multiset(a[1..]) == multiset(a) - multiset{x};
      }
      SumResidentsPermutation(a[1..], rest, tid);
      SumResidentsConcat([x], a[1..], tid);
      SumResidentsConcat(b[..i] + [x], b[i + 1..], tid);
      SumResidentsConcat(b[..i], [x], tid);
      SumResidentsConcat(b[..i], b[i + 1..], tid);
    }
  }

  /** In a well-formed store the headroom of a traffic never exceeds its limit. */
  lemma RemainingWithinLimit(traffic: map<string, Traffic>, housings: seq<Housing>, id: string)
    requires WellFormed(traffic, housings)
    requires id in traffic
    ensures 0 <= RemainingLimit(traffic, housings, id) <= traffic[id].trafficLimit
  {
  }

  /** A housing the calculator accepts references an existing traffic, uses up
      exactly its residents of that traffic's headroom, leaves every other
      traffic's headroom alone, and keeps its traffic within the limit. */
  lemma AcceptedAllocation(traffic: map<string, Traffic>, housings: seq<Housing>, h: Housing)
    requires RemainingLimit(traffic, housings, h.trafficId) >= h.numberOfResidents > 0
    ensures h.trafficId != "" && h.trafficId in traffic
    ensures RemainingLimit(traffic, housings + [h], h.trafficId)
         == RemainingLimit(traffic, housings, h.trafficId) - h.numberOfResidents
    ensures SumResidents(housings + [h], h.trafficId) <= traffic[h.trafficId].trafficLimit
    ensures forall id :: id != h.trafficId ==>
              RemainingLimit(traffic, housings + [h], id) == RemainingLimit(traffic, housings, id)
    ensures WithinLimits(traffic, housings) ==> WithinLimits(traffic, housings + [h])
  {
    forall id {
      SumResidentsAppend(housings, h, id);
    }
  }

  /** A traffic record stored under a fresh id starts with its whole limit as
      headroom, since no housing can reference it yet, and changes no other headroom. */
  lemma NewTrafficHeadroom(traffic: map<string, Traffic>, housings: seq<Housing>, t: Traffic)
    requires WellFormed(traffic, housings)
    requires t.id != "" && t.id !in traffic && t.trafficLimit > 0
    ensures RemainingLimit(traffic[t.id := t], housings, t.id) == t.trafficLimit
    ensures forall id :: id != t.id ==>
              RemainingLimit(traffic[t.id := t], housings, id) == RemainingLimit(traffic, housings, id)
    ensures WithinLimits(traffic, housings) ==> WithinLimits(traffic[t.id := t], housings)
  {
    SumResidentsUnreferenced(housings, t.id);
  }

  /** Replacing a traffic's limit by one below its allocated residents breaks
      the capacity invariant and leaves that traffic with no headroom. */
  lemma LoweredLimitBreaksWithinLimits(traffic: map<string, Traffic>, housings: seq<Housing>, t: Traffic)
    requires t.id != "" && t.id in traffic
    requires SumResidents(housings, t.id) > t.trafficLimit
    ensures !WithinLimits(traffic[t.id := t], housings)
    ensures RemainingLimit(traffic[t.id := t], housings, t.id) == 0
  {
  }

  /** A reachable store in which editing a limit downwards violates the capacity
      invariant: a limit of 10 with 6 residents allocated, lowered to 5. */
  lemma EditCanViolateWithinLimits()
    ensures var before := Traffic("T1", "Main St", 10, 0, None);
            var after := before.(trafficLimit := 5, updatedAt := Some(1));
            var housings := [Housing("H1", "Block A", 6, "T1", 0, None)];
            && WellFormed(map["T1" := before], housings)
            && WithinLimits(map["T1" := before], housings)
            && WellFormed(map["T1" := after], housings)
            && !WithinLimits(map["T1" := after], housings)
  {
    var housings := [Housing("H1", "Block A", 6, "T1", 0, None)];
    assert housings[1..] == [];
    assert SumResidents(housings, "T1") == 6;
  }
}
