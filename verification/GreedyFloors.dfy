/**
 How good the scarcest-first pass of scripts/run_gate_d_canary.py is at its floors:
 not optimal where strata overlap, and exactly optimal where they do not.
 */
module GreedyFloors {
  import opened Ordering
  import opened StratifiedSampler
  import opened SampleDraw

  /** The selection covers every stratum up to its floor. */
  ghost predicate MeetsFloors(chosen: seq<Candidate>, strata: seq<Stratum>) {
    forall i :: 0 <= i < |strata| ==> Count(chosen, strata[i].holds) >= strata[i].floor
  }

  /** Some selection of `size` candidates covers every stratum. */
  ghost predicate Coverable(ordered: seq<Candidate>, size: nat, strata: seq<Stratum>) {
    exists chosen :: ChosenFrom(chosen, ordered) && |chosen| == size && MeetsFloors(chosen, strata)
  }

  ghost predicate Overlap(a: Stratum, b: Stratum, s: seq<Candidate>) {
    exists c :: c in s && a.holds(c) && b.holds(c)
  }

  /** No candidate falls in two strata. */
  ghost predicate Disjoint(strata: seq<Stratum>, s: seq<Candidate>) {
    forall i, j :: 0 <= i < j < |strata| ==> !Overlap(strata[i], strata[j], s)
  }

  // ----- a covering selection pays for every floor

  function Outside(p: Candidate -> bool): Candidate -> bool {
    (c: Candidate) => !p(c)
  }

  lemma {:induction false} SelectSplits(s: seq<Candidate>, p: Candidate -> bool)
    ensures |s| == Count(s, p) + |Select(s, Outside(p))|
  {
    if s != [] { SelectSplits(s[1..], p); }
  }

  lemma {:induction false} OthersRemain(s: seq<Candidate>, p: Candidate -> bool, q: Candidate -> bool)
    requires forall c :: c in s ==> !(p(c) && q(c))
    ensures Count(Select(s, Outside(p)), q) == Count(s, q)
  {
    if s != [] {
      OthersRemain(s[1..], p, q);
      SelectAppend([s[0]], s[1..], q);
      SelectAppend(if Outside(p)(s[0]) then [s[0]] else [], Select(s[1..], Outside(p)), q);
      assert [s[0]] + s[1..] == s && s[0] in s;
    }
  }

  function FloorSum(strata: seq<Stratum>): nat {
    if strata == [] then 0 else (if strata[0].floor > 0 then strata[0].floor else 0) + FloorSum(strata[1..])
  }

  lemma {:induction false} FloorsCost(chosen: seq<Candidate>, strata: seq<Stratum>)
    requires MeetsFloors(chosen, strata) && Disjoint(strata, chosen)
    ensures FloorSum(strata) <= |chosen|
    decreases |strata|
  {
    if strata != [] {
      var p, rest := strata[0].holds, Select(chosen, Outside(strata[0].holds));
      SelectSplits(chosen, p);
      forall i | 0 <= i < |strata[1..]|
        ensures Count(rest, strata[1..][i].holds) >= strata[1..][i].floor
      {
        assert strata[1..][i] == strata[i + 1] && !Overlap(strata[0], strata[i + 1], chosen);
        OthersRemain(chosen, p, strata[i + 1].holds);
      }
      StillDisjoint(strata, chosen, rest);
      FloorsCost(rest, strata[1..]);
    }
  }

  lemma StillDisjoint(strata: seq<Stratum>, s: seq<Candidate>, t: seq<Candidate>)
    requires strata != [] && Disjoint(strata, s) && forall c :: c in t ==> c in s
    ensures Disjoint(strata[1..], t)
  {
    forall i, j | 0 <= i < j < |strata[1..]|
      ensures !Overlap(strata[1..][i], strata[1..][j], t)
    {
      assert !Overlap(strata[i + 1], strata[j + 1], s);
    }
  }

  // ----- the draw

  lemma {:induction false} DemandIsBelow(strata: seq<Stratum>, supply: map<string, int>)
    ensures Demand(strata, supply) <= FloorSum(strata)
  {
    if strata != [] { DemandIsBelow(strata[1..], supply); }
  }

  lemma ChosenIsSupplied(chosen: seq<Candidate>, ordered: seq<Candidate>, p: Candidate -> bool)
    requires ChosenFrom(chosen, ordered) && DistinctIds(ordered)
    ensures Count(chosen, p) <= Count(ordered, p)
  {
    CountMonotone(chosen, ordered, p);
  }

  lemma OrderedIsOptimal(ordered: seq<Candidate>, size: nat, strata: seq<Stratum>)
    requires DistinctIds(ordered) && size <= |ordered| && DistinctNames(strata)
    requires Disjoint(strata, ordered) && Count(ordered, Labeled()) == 0
    ensures MeetsFloors(Selected(ordered, size, strata), strata) <==> Coverable(ordered, size, strata)
  {
    SelectionIsExact(ordered, size, strata);
    if Coverable(ordered, size, strata) {
      var chosen :| ChosenFrom(chosen, ordered) && |chosen| == size && MeetsFloors(chosen, strata);
      DisjointBelow(strata, ordered, chosen);
      FloorsCost(chosen, strata);
      var supply := SupplyOf(strata, ordered);
      DemandIsBelow(strata, supply);
      HonestSupply(strata, ordered);
      forall i | 0 <= i < |strata|
        ensures Count(Selected(ordered, size, strata), strata[i].holds) >= strata[i].floor
      {
        ChosenIsSupplied(chosen, ordered, strata[i].holds);
        FloorsOfOrdered(ordered, size, strata, i);
      }
    }
  }

  lemma DisjointBelow(strata: seq<Stratum>, ordered: seq<Candidate>, chosen: seq<Candidate>)
    requires Disjoint(strata, ordered) && ChosenFrom(chosen, ordered)
    ensures Disjoint(strata, chosen)
  {
    forall i, j | 0 <= i < j < |strata|
      ensures !Overlap(strata[i], strata[j], chosen)
    {
      assert !Overlap(strata[i], strata[j], ordered);
    }
  }

  /** Scarcest first is as good as any selection where no candidate falls in two strata and none is labelled: the sample
      meets every floor if and only if some sample of its size does. */
  lemma GreedyIsOptimal(pool: seq<Candidate>, size: int, key: string -> string, strata: seq<Stratum>)
    requires DrawSample(pool, size, key, strata).Drawn? && DistinctNames(strata)
    requires Disjoint(strata, FirstById(pool)) && Count(FirstById(pool), Labeled()) == 0
    ensures MeetsFloors(DrawSample(pool, size, key, strata).result.targets, strata)
      <==> Coverable(FirstById(pool), size, strata)
  {
    var ordered := OrderedPool(pool, key);
    DrawnIsSampleOf(pool, size, key, strata);
    SameElements(FirstById(pool), ordered);
    SameCount(FirstById(pool), ordered, Labeled());
    forall i, j | 0 <= i < j < |strata|
      ensures !Overlap(strata[i], strata[j], ordered)
    {
      assert !Overlap(strata[i], strata[j], FirstById(pool));
    }
    OrderedIsOptimal(ordered, size, strata);
    SameCover(FirstById(pool), ordered, size, strata);
    forall i | 0 <= i < |strata|
      ensures Count(SampleOf(ordered, size, key, strata).targets, strata[i].holds) ==
        Count(Selected(ordered, size, strata), strata[i].holds)
    {
      CoverageIsCount(ordered, size, key, strata, i);
    }
  }

  lemma SameCover(s: seq<Candidate>, t: seq<Candidate>, size: nat, strata: seq<Stratum>)
    requires forall c :: c in s <==> c in t
    ensures Coverable(s, size, strata) <==> Coverable(t, size, strata)
  {
    forall chosen
      ensures ChosenFrom(chosen, s) <==> ChosenFrom(chosen, t)
    {}
  }

  // ----- where strata overlap

  function Named(id: string): Candidate {
    Candidate(id, "", "", "", "ACTIVE", "", false, false, 0, false, false, false, false)
  }

  function Among(a: string, b: string): Candidate -> bool {
    (c: Candidate) => c.matchId == a || c.matchId == b
  }

  lemma CountOne(c: Candidate, p: Candidate -> bool)
    ensures Count([c], p) == if p(c) then 1 else 0
  {
    assert [c] == [c] + [] && [c][1..] == [];
  }

  lemma CountThree(a: Candidate, b: Candidate, c: Candidate, p: Candidate -> bool)
    ensures Count([a, b, c], p) == (if p(a) then 1 else 0) + (if p(b) then 1 else 0) + if p(c) then 1 else 0
  {
    SelectAppend([a], [b], p);
    SelectAppend([a] + [b], [c], p);
    assert [a] + [b] + [c] == [a, b, c];
    CountOne(a, p);
    CountOne(b, p);
    CountOne(c, p);
  }

  lemma SortOne<T>(leq: (T, T) -> bool, x: T)
    ensures Sort(leq, [x]) == [x]
  {
    assert [x][1..] == [];
  }

  lemma SortTwo<T>(leq: (T, T) -> bool, x: T, y: T)
    requires leq(x, y)
    ensures Sort(leq, [x, y]) == [x, y]
  {
    SortOne(leq, y);
    assert [x, y][1..] == [y];
  }

  lemma SortThree<T>(leq: (T, T) -> bool, x: T, y: T, z: T)
    requires leq(x, y) && leq(y, z)
    ensures Sort(leq, [x, y, z]) == [x, y, z]
  {
    SortTwo(leq, y, z);
    assert [x, y, z][1..] == [y, z];
  }

  /** Two strata of floor one that share a candidate, and the candidate that the pass takes first, outside the
      second. */
  predicate Shares(a: Stratum, b: Stratum, first: Candidate, shared: Candidate, last: Candidate) {
    && a.floor == 1 && b.floor == 1 && a.name != b.name && StrLeq(a.name, b.name)
    && a.holds(first) && !b.holds(first) && a.holds(shared) && b.holds(shared) && !a.holds(last) && b.holds(last)
    && first.matchId != shared.matchId && first.matchId != last.matchId && shared.matchId != last.matchId
    && !first.labeledStech && !shared.labeledStech && !last.labeledStech
  }

  lemma TwoEach(a: Stratum, b: Stratum, first: Candidate, shared: Candidate, last: Candidate)
    requires Shares(a, b, first, shared, last)
    ensures var supply := SupplyOf([a, b], [first, shared, last]);
      SupplyAt(supply, a.name) == 2 && SupplyAt(supply, b.name) == 2 && Sort(ByScarcity(supply), [a, b]) == [a, b]
  {
    var strata, ordered := [a, b], [first, shared, last];
    HonestSupply(strata, ordered);
    CountThree(first, shared, last, a.holds);
    CountThree(first, shared, last, b.holds);
    assert strata[0] == a && strata[1] == b;
    SortTwo(ByScarcity(SupplyOf(strata, ordered)), a, b);
  }

  lemma OneSlot(a: Stratum, b: Stratum, first: Candidate, shared: Candidate, last: Candidate, supply: map<string, int>)
    requires Shares(a, b, first, shared, last) && SupplyAt(supply, a.name) == SupplyAt(supply, b.name) == 2
    ensures FillFloors([a, b], [first, shared, last], supply, 1, []) == [first]
  {
    var ordered := [first, shared, last];
    assert OnePass(a, ordered, supply, 1, []) == [first];
    CountOne(first, b.holds);
    assert OnePass(b, ordered, supply, 1, [first]) == [first];
    assert [a, b][1..] == [b] && [b][1..] == [];
    assert FillFloors([], ordered, supply, 1, [first]) == [first];
    assert FillFloors([b], ordered, supply, 1, [first]) == [first];
  }

  lemma FirstIsSelected(a: Stratum, b: Stratum, first: Candidate, shared: Candidate, last: Candidate)
    requires Shares(a, b, first, shared, last)
    ensures Selected([first, shared, last], 1, [a, b]) == [first]
  {
    var ordered := [first, shared, last];
    TwoEach(a, b, first, shared, last);
    OneSlot(a, b, first, shared, last, SupplyOf([a, b], ordered));
    CountThree(first, shared, last, Labeled());
    assert Mandatory(ordered, 1) == [];
  }

  lemma SharedCovers(a: Stratum, b: Stratum, first: Candidate, shared: Candidate, last: Candidate)
    requires Shares(a, b, first, shared, last)
    ensures Coverable([first, shared, last], 1, [a, b]) && !MeetsFloors([first], [a, b])
  {
    CountOne(shared, a.holds);
    CountOne(shared, b.holds);
    CountOne(first, b.holds);
    assert [a, b][1] == b;
    assert shared in [first, shared, last] && ChosenFrom([shared], [first, shared, last]);
    assert MeetsFloors([shared], [a, b]);
  }

  /** Wherever two strata share a candidate like that, one slot goes to the first in key order and a floor is missed,
      although the shared candidate alone meets both. */
  lemma SharedIsMissed(a: Stratum, b: Stratum, first: Candidate, shared: Candidate, last: Candidate,
                       key: string -> string)
    requires Shares(a, b, first, shared, last) && AllAuthorized([first, shared, last])
    requires KeyLeq(key, first, shared) && KeyLeq(key, shared, last)
    ensures DrawSample([first, shared, last], 1, key, [a, b]).Drawn?
    ensures !MeetsFloors(DrawSample([first, shared, last], 1, key, [a, b]).result.targets, [a, b])
    ensures Coverable(FirstById([first, shared, last]), 1, [a, b])
  {
    var pool := [first, shared, last];
    FirstByIdOfDistinct(pool);
    SortThree(ByKey(key), first, shared, last);
    FirstIsSelected(a, b, first, shared, last);
    SharedCovers(a, b, first, shared, last);
    SortOne(ByKey(key), first);
  }

  /** One input: candidates 1, 2 and 3, the strata {1, 2} and {2, 3}, floors of one and a sample of one. */
  lemma GreedyMissesCoverable() returns (pool: seq<Candidate>, strata: seq<Stratum>, key: string -> string)
    ensures DistinctNames(strata) && DrawSample(pool, 1, key, strata).Drawn?
    ensures !MeetsFloors(DrawSample(pool, 1, key, strata).result.targets, strata)
    ensures Coverable(FirstById(pool), 1, strata)
  {
    key := ((id: string) => id);
    var one, two, three := Named("1"), Named("2"), Named("3");
    var a, b := Stratum("A", 1, Among("1", "2")), Stratum("B", 1, Among("2", "3"));
    pool, strata := [one, two, three], [a, b];
    ExampleShares(a, b, one, two, three, key);
    SharedIsMissed(a, b, one, two, three, key);
  }

  lemma ExampleShares(a: Stratum, b: Stratum, one: Candidate, two: Candidate, three: Candidate, key: string -> string)
    requires a == Stratum("A", 1, Among("1", "2")) && b == Stratum("B", 1, Among("2", "3"))
    requires one == Named("1") && two == Named("2") && three == Named("3") && key == ((id: string) => id)
    ensures Shares(a, b, one, two, three) && AllAuthorized([one, two, three])
    ensures KeyLeq(key, one, two) && KeyLeq(key, two, three)
  {
    assert one.matchId[0] == '1' && two.matchId[0] == '2' && three.matchId[0] == '3';
    assert a.name[0] == 'A' && b.name[0] == 'B';
  }
}
