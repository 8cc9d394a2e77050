/**
 What the draw of scripts/run_gate_d_canary.py guarantees: exact size, legality,
 floors, independence of input order, and the silence of `validate_sample`; and
 the imperative draw, proved equal to `StratifiedSampler.DrawSample`.
 */
module SampleDraw {
  import opened Ordering
  import opened Sequences
  import opened Apportionment
  import opened StratifiedSampler

  // ----- size and legality

  lemma MandatoryIsChoice(ordered: seq<Candidate>, size: nat)
    requires DistinctIds(ordered)
    ensures ChosenFrom(Mandatory(ordered, size), ordered)
    ensures |Mandatory(ordered, size)| == Min(Count(ordered, Labeled()), size)
    ensures forall c :: c in Mandatory(ordered, size) ==> c.labeledStech
  {
    var m := Select(ordered, Labeled());
    SelectKeepsDistinct(ordered, Labeled());
    forall i | 0 <= i < |Mandatory(ordered, size)| ensures Mandatory(ordered, size)[i] in m {}
  }

  lemma FreshUnion(ordered: seq<Candidate>, a: seq<Candidate>, b: seq<Candidate>)
    requires ChosenFrom(a, ordered) && ChosenFrom(b, Unselected(ordered, a))
    ensures ChosenFrom(a + b, ordered)
  {
    var r := a + b;
    forall i | 0 <= i < |r| ensures r[i] in ordered {
      if i >= |a| { assert b[i - |a|] in Unselected(ordered, a); }
    }
    forall i, j | 0 <= i < j < |r| ensures r[i].matchId != r[j].matchId {
      if i < |a| <= j {
        assert b[j - |a|] in Unselected(ordered, a);
        assert NotIn(a)(b[j - |a|]);
      }
    }
  }

  /** Whenever the pool is large enough the selection has exactly `size` distinct members of it,
      and it begins with the labelled targets. */
  lemma SelectionIsExact(ordered: seq<Candidate>, size: nat, strata: seq<Stratum>)
    requires DistinctIds(ordered) && size <= |ordered|
    ensures var r := Selected(ordered, size, strata);
      |r| == size && ChosenFrom(r, ordered) && Mandatory(ordered, size) <= r
  {
    var supply := SupplyOf(strata, ordered);
    var scarcest := Sort(ByScarcity(supply), strata);
    var floors := FillFloors(scarcest, ordered, supply, size, Mandatory(ordered, size));
    MandatoryIsChoice(ordered, size);
    FloorsKeep(scarcest, ordered, supply, size, Mandatory(ordered, size));
    FillIsExact(ordered, floors, size - |floors|);
    FreshUnion(ordered, floors, Fill(ordered, floors, size - |floors|));
  }

  /** The first candidate of the pool that nothing authorises. */
  ghost predicate IsFirstOffender(pool: seq<Candidate>, i: nat) {
    && i < |pool| && !(pool[i].classification == "ACTIVE" || pool[i].labeledStech)
    && forall j :: 0 <= j < i ==> pool[j].classification == "ACTIVE" || pool[j].labeledStech
  }

  lemma {:induction false} OffenderIsFirst(pool: seq<Candidate>) returns (i: nat)
    requires !AllAuthorized(pool)
    ensures IsFirstOffender(pool, i) && pool[i].matchId == FirstUnauthorized(pool)
  {
    i := 0;
    if pool[0].Authorized() {
      NextUnauthorized(pool, 0);
      assert pool[0..] == pool;
      var j := OffenderIsFirst(pool[1..]);
      i := j + 1;
      assert forall k :: 0 < k <= i ==> pool[k] == pool[1..][k - 1];
    }
  }

  ghost predicate HasOffender(pool: seq<Candidate>) {
    exists c :: c in pool && c.classification != "ACTIVE" && !c.labeledStech
  }

  lemma OffendersExactly(pool: seq<Candidate>)
    ensures AllAuthorized(pool) <==> !HasOffender(pool)
  {
    if c :| c in pool && c.classification != "ACTIVE" && !c.labeledStech {
      var i :| 0 <= i < |pool| && pool[i] == c;
    }
    if !AllAuthorized(pool) {
      var i :| 0 <= i < |pool| && !pool[i].Authorized();
      assert pool[i] in pool;
    }
  }

  /** The draw refuses in exactly three cases, each with its own reason, the earlier ones first; the wrong-size guard is
      unreachable. */
  lemma DrawRefusesExactly(pool: seq<Candidate>, size: int, key: string -> string, strata: seq<Stratum>)
    ensures DrawSample(pool, size, key, strata).Refused? <==>
      size <= 0 || HasOffender(pool) || |FirstById(pool)| < size
    ensures DrawSample(pool, size, key, strata).Refused? ==>
      match DrawSample(pool, size, key, strata).reason
      case SizeNotPositive => size <= 0
      case OutsideAuthorizedPool(id) =>
        size > 0 && HasOffender(pool) && exists i: nat :: IsFirstOffender(pool, i) && pool[i].matchId == id
      case PoolTooSmall(have, want) => size > 0 && !HasOffender(pool) && have == |FirstById(pool)| < size == want
      case WrongSize(_, _) => false
  {
    var ordered := OrderedPool(pool, key);
    OrderedPoolIsChoice(pool, key);
    OffendersExactly(pool);
    if 0 < size && !AllAuthorized(pool) {
      var i := OffenderIsFirst(pool);
    }
    if 0 < size <= |ordered| {
      SelectionIsExact(ordered, size, strata);
    }
  }

  lemma SortedSelection(s: seq<Candidate>, ordered: seq<Candidate>, key: string -> string)
    requires ChosenFrom(s, ordered)
    ensures ChosenFrom(Sort(ByKey(key), s), ordered)
    ensures SortedBy(ByKey(key), Sort(ByKey(key), s))
    ensures forall c :: c in Sort(ByKey(key), s) <==> c in s
  {
    var t := Sort(ByKey(key), s);
    KeyIsTotalOrder(key, s);
    SortSorts(ByKey(key), s);
    DistinctRearranged(s, t);
    forall c ensures c in t <==> c in s { Rearranged(s, t, c); }
    forall i | 0 <= i < |t| ensures t[i] in ordered {
      assert t[i] in s;
      var j :| 0 <= j < |s| && s[j] == t[i];
    }
  }

  lemma ChosenAreMembers(s: seq<Candidate>, ordered: seq<Candidate>, c: Candidate)
    requires ChosenFrom(s, ordered) && c in s
    ensures c in ordered
  {
    var i :| 0 <= i < |s| && s[i] == c;
  }

  /** The targets of an ordered pool: exactly `size`, distinct, sorted, members of the pool; with all the
      labelled candidates when they fit, and only labelled ones when they do not. */
  lemma TargetsOfOrdered(ordered: seq<Candidate>, size: nat, key: string -> string, strata: seq<Stratum>)
    requires DistinctIds(ordered) && size <= |ordered|
    ensures var t := SampleOf(ordered, size, key, strata).targets;
      && |t| == size && ChosenFrom(t, ordered) && SortedBy(ByKey(key), t)
      && (Count(ordered, Labeled()) <= size ==> forall c :: c in ordered && c.labeledStech ==> c in t)
      && (Count(ordered, Labeled()) > size ==> forall c :: c in t ==> c.labeledStech)
  {
    var s, m := Selected(ordered, size, strata), Mandatory(ordered, size);
    SelectionIsExact(ordered, size, strata);
    MandatoryIsChoice(ordered, size);
    SortedSelection(s, ordered, key);
    if Count(ordered, Labeled()) <= size {
      forall c | c in ordered && c.labeledStech ensures c in s {
        assert Labeled()(c);
        assert c in m;
      }
    } else {
      assert |m| == size && m == s;
    }
  }

  lemma SameCount(s: seq<Candidate>, t: seq<Candidate>, p: Candidate -> bool)
    requires multiset(s) == multiset(t) && DistinctIds(s)
    ensures Count(s, p) == Count(t, p)
  {
    DistinctRearranged(s, t);
    forall c ensures c in s <==> c in t { Rearranged(s, t, c); }
    CountMonotone(s, t, p);
    CountMonotone(t, s, p);
  }

  /** A drawn sample has exactly `size` targets with distinct ids, all of them authorised members of the pool,
      in key order; it contains every labelled target when they fit and nothing else when they do not. */
  lemma DrawIsLegal(pool: seq<Candidate>, size: int, key: string -> string, strata: seq<Stratum>)
    requires DrawSample(pool, size, key, strata).Drawn?
    ensures var t := DrawSample(pool, size, key, strata).result.targets;
      && |t| == size && DistinctIds(t) && SortedBy(ByKey(key), t)
      && (forall c :: c in t ==> c in pool && (c.classification == "ACTIVE" || c.labeledStech))
    ensures var t := DrawSample(pool, size, key, strata).result.targets;
      var labeled := Count(FirstById(pool), Labeled());
      && (labeled <= size ==> forall c :: c in FirstById(pool) && c.labeledStech ==> c in t)
      && (labeled > size ==> forall c :: c in t ==> c.labeledStech)
  {
    var ordered := OrderedPool(pool, key);
    OrderedPoolIsChoice(pool, key);
    TargetsOfOrdered(ordered, size, key, strata);
    var t := SampleOf(ordered, size, key, strata).targets;
    forall c | c in t ensures c in pool && (c.classification == "ACTIVE" || c.labeledStech) {
      ChosenAreMembers(t, ordered, c);
      ChosenAreMembers(ordered, pool, c);
      var j :| 0 <= j < |pool| && pool[j] == c;
    }
    SameCount(FirstById(pool), ordered, Labeled());
    forall c | c in FirstById(pool) ensures c in ordered { Rearranged(FirstById(pool), ordered, c); }
  }

  // ----- floors

  lemma HonestSupply(strata: seq<Stratum>, ordered: seq<Candidate>)
    requires DistinctNames(strata)
    ensures SupplyIsHonest(strata, SupplyOf(strata, ordered), ordered)
    ensures SupplyIsHonest(Sort(ByScarcity(SupplyOf(strata, ordered)), strata), SupplyOf(strata, ordered), ordered)
  {
    var supply := SupplyOf(strata, ordered);
    var scarcest := Sort(ByScarcity(supply), strata);
    forall i | 0 <= i < |strata| ensures SupplyAt(supply, strata[i].name) == Count(ordered, strata[i].holds) {
      SupplyOfIsCount(strata, ordered, i);
    }
    forall i | 0 <= i < |scarcest| ensures SupplyAt(supply, scarcest[i].name) == Count(ordered, scarcest[i].holds) {
      Rearranged(scarcest, strata, scarcest[i]);
      var j :| 0 <= j < |strata| && strata[j] == scarcest[i];
    }
  }

  lemma FloorsSurviveFill(scarcest: seq<Stratum>, ordered: seq<Candidate>, supply: map<string, int>, size: nat,
                          p: Candidate -> bool)
    ensures Count(SelectedFrom(scarcest, ordered, supply, size), p)
         >= Count(FillFloors(scarcest, ordered, supply, size, Mandatory(ordered, size)), p)
  {
    var floors := FillFloors(scarcest, ordered, supply, size, Mandatory(ordered, size));
    CountGrows(floors, SelectedFrom(scarcest, ordered, supply, size), p);
  }

  /** At the level of an ordered pool: fitting demand means every floor is met. */
  lemma FloorsOfOrdered(ordered: seq<Candidate>, size: nat, strata: seq<Stratum>, i: nat)
    requires DistinctIds(ordered) && DistinctNames(strata) && i < |strata|
    requires Count(ordered, Labeled()) + Demand(strata, SupplyOf(strata, ordered)) <= size
    ensures Count(Selected(ordered, size, strata), strata[i].holds) >= TargetFloor(strata[i], SupplyOf(strata, ordered))
  {
    var supply := SupplyOf(strata, ordered);
    var scarcest := Sort(ByScarcity(supply), strata);
    MandatoryIsChoice(ordered, size);
    HonestSupply(strata, ordered);
    DemandSort(ByScarcity(supply), strata, supply);
    FloorsReach(scarcest, ordered, supply, size, Mandatory(ordered, size));
    Rearranged(scarcest, strata, strata[i]);
    var j :| 0 <= j < |scarcest| && scarcest[j] == strata[i];
    FloorsSurviveFill(scarcest, ordered, supply, size, strata[i].holds);
  }

  /** How many of the pool's distinct candidates fall in a stratum. */
  function PoolSupply(pool: seq<Candidate>, s: Stratum): nat {
    Count(FirstById(pool), s.holds)
  }

  function TotalDemand(pool: seq<Candidate>, strata: seq<Stratum>): nat {
    if strata == [] then 0
    else
      var d := Min(strata[0].floor, PoolSupply(pool, strata[0]));
      (if d > 0 then d else 0) + TotalDemand(pool, strata[1..])
  }

  lemma {:induction false} DemandIsTotal(pool: seq<Candidate>, key: string -> string, supply: map<string, int>,
                                         strata: seq<Stratum>)
    requires SupplyIsHonest(strata, supply, OrderedPool(pool, key))
    ensures Demand(strata, supply) == TotalDemand(pool, strata)
  {
    if strata != [] {
      SameCount(FirstById(pool), OrderedPool(pool, key), strata[0].holds);
      DemandIsTotal(pool, key, supply, strata[1..]);
    }
  }

  lemma CoverageIsCount(ordered: seq<Candidate>, size: nat, key: string -> string, strata: seq<Stratum>, i: nat)
    requires DistinctIds(ordered) && size <= |ordered|
    requires DistinctNames(strata) && i < |strata|
    ensures var r := SampleOf(ordered, size, key, strata);
      && strata[i].name in r.coverage
      && r.coverage[strata[i].name] == Count(r.targets, strata[i].holds)
      && Count(r.targets, strata[i].holds) == Count(Selected(ordered, size, strata), strata[i].holds)
  {
    var s := Selected(ordered, size, strata);
    SelectionIsExact(ordered, size, strata);
    SameCount(s, Sort(ByKey(key), s), strata[i].holds);
    SupplyOfIsCount(strata, Sort(ByKey(key), s), i);
  }

  lemma DrawnIsSampleOf(pool: seq<Candidate>, size: int, key: string -> string, strata: seq<Stratum>)
    requires DrawSample(pool, size, key, strata).Drawn?
    ensures DistinctIds(OrderedPool(pool, key)) && 0 <= size <= |OrderedPool(pool, key)|
    ensures DrawSample(pool, size, key, strata).result == SampleOf(OrderedPool(pool, key), size, key, strata)
    ensures multiset(FirstById(pool)) == multiset(OrderedPool(pool, key)) && DistinctIds(FirstById(pool))
  {
    OrderedPoolIsChoice(pool, key);
  }

  lemma FloorsOfPool(pool: seq<Candidate>, size: nat, key: string -> string, strata: seq<Stratum>, i: nat)
    requires DistinctIds(OrderedPool(pool, key)) && DistinctNames(strata) && i < |strata|
    requires Count(FirstById(pool), Labeled()) + TotalDemand(pool, strata) <= size
    ensures Count(Selected(OrderedPool(pool, key), size, strata), strata[i].holds)
         >= Min(strata[i].floor, PoolSupply(pool, strata[i]))
  {
    var ordered := OrderedPool(pool, key);
    HonestSupply(strata, ordered);
    SameCount(FirstById(pool), ordered, Labeled());
    SameCount(FirstById(pool), ordered, strata[i].holds);
    DemandIsTotal(pool, key, SupplyOf(strata, ordered), strata);
    FloorsOfOrdered(ordered, size, strata, i);
  }

  /** If the labelled targets and the floors (as far as supply goes) fit into the sample together,
      every stratum reaches the smaller of its floor and its supply. */
  lemma FloorsAreMet(pool: seq<Candidate>, size: int, key: string -> string, strata: seq<Stratum>, i: nat)
    requires DrawSample(pool, size, key, strata).Drawn?
    requires DistinctNames(strata) && i < |strata|
    requires Count(FirstById(pool), Labeled()) + TotalDemand(pool, strata) <= size
    ensures var r := DrawSample(pool, size, key, strata).result;
      && strata[i].name in r.coverage
      && r.coverage[strata[i].name] == Count(r.targets, strata[i].holds)
      && r.coverage[strata[i].name] >= Min(strata[i].floor, PoolSupply(pool, strata[i]))
  {
    DrawnIsSampleOf(pool, size, key, strata);
    FloorsOfPool(pool, size, key, strata, i);
    CoverageIsCount(OrderedPool(pool, key), size, key, strata, i);
  }

  // ----- scarcest first

  /** `t` comes no later than a stratum of this supply and name: it is scarcer, or as scarce and its name no greater. */
  predicate NotAfter(pool: seq<Candidate>, t: Stratum, supply: nat, name: string) {
    PoolSupply(pool, t) < supply || (PoolSupply(pool, t) == supply && StrLeq(t.name, name))
  }

  /** What the strata that come no later ask for. */
  function DemandUpTo(pool: seq<Candidate>, strata: seq<Stratum>, supply: nat, name: string): nat {
    if strata == [] then 0
    else
      var s, have := strata[0], PoolSupply(pool, strata[0]);
      var asked: int := if s.floor < have then s.floor else have;
      (if NotAfter(pool, s, supply, name) && asked > 0 then asked else 0) + DemandUpTo(pool, strata[1..], supply, name)
  }

  lemma {:induction false} DemandUpToAppend(pool: seq<Candidate>, a: seq<Stratum>, b: seq<Stratum>, supply: nat,
                                            name: string)
    ensures DemandUpTo(pool, a + b, supply, name) ==
      DemandUpTo(pool, a, supply, name) + DemandUpTo(pool, b, supply, name)
  {
    if a == [] {
      assert a + b == b;
    } else {
      assert (a + b)[0] == a[0] && (a + b)[1..] == a[1..] + b;
      DemandUpToAppend(pool, a[1..], b, supply, name);
    }
  }

  lemma {:induction false} DemandUpToInsert(pool: seq<Candidate>, leq: (Stratum, Stratum) -> bool, x: Stratum,
                                            s: seq<Stratum>, supply: nat, name: string)
    ensures DemandUpTo(pool, Insert(leq, x, s), supply, name) == DemandUpTo(pool, [x] + s, supply, name)
  {
    if s == [] {
      assert [x] + s == [x];
    } else if !leq(x, s[0]) {
      DemandUpToInsert(pool, leq, x, s[1..], supply, name);
      assert ([x] + s)[1..] == s && ([x] + s[1..])[1..] == s[1..];
      assert ([s[0]] + Insert(leq, x, s[1..]))[1..] == Insert(leq, x, s[1..]);
    }
  }

  lemma {:induction false} DemandUpToSort(pool: seq<Candidate>, leq: (Stratum, Stratum) -> bool, s: seq<Stratum>,
                                          supply: nat, name: string)
    ensures DemandUpTo(pool, Sort(leq, s), supply, name) == DemandUpTo(pool, s, supply, name)
  {
    if s != [] {
      DemandUpToSort(pool, leq, s[1..], supply, name);
      DemandUpToInsert(pool, leq, s[0], Sort(leq, s[1..]), supply, name);
      assert ([s[0]] + Sort(leq, s[1..]))[1..] == Sort(leq, s[1..]);
    }
  }

  /** Of strata that all come no later, everything asked for counts. */
  lemma {:induction false} DemandOfEarly(pool: seq<Candidate>, ordered: seq<Candidate>, strata: seq<Stratum>,
                                         supplies: map<string, int>, supply: nat, name: string)
    requires SupplyIsHonest(strata, supplies, ordered)
    requires forall s :: s in strata ==> Count(ordered, s.holds) == PoolSupply(pool, s)
    requires forall s :: s in strata ==> NotAfter(pool, s, supply, name)
    ensures Demand(strata, supplies) == DemandUpTo(pool, strata, supply, name)
  {
    if strata != [] {
      assert strata[0] in strata;
      DemandOfEarly(pool, ordered, strata[1..], supplies, supply, name);
    }
  }

  lemma {:induction false} FillFloorsAppend(a: seq<Stratum>, b: seq<Stratum>, ordered: seq<Candidate>,
                                            supply: map<string, int>, size: nat, selected: seq<Candidate>)
    ensures FillFloors(a + b, ordered, supply, size, selected) ==
      FillFloors(b, ordered, supply, size, FillFloors(a, ordered, supply, size, selected))
  {
    if a == [] {
      assert a + b == b;
    } else {
      assert (a + b)[0] == a[0] && (a + b)[1..] == a[1..] + b;
      FillFloorsAppend(a[1..], b, ordered, supply, size, OnePass(a[0], ordered, supply, size, selected));
    }
  }

  /** The strata that a stratum waits for come no later than it, by supply and then by name. */
  lemma EarlyStrata(pool: seq<Candidate>, supplies: map<string, int>, scarcest: seq<Stratum>, j: nat)
    requires SortedBy(ByScarcity(supplies), scarcest) && j < |scarcest|
    requires forall s :: s in scarcest ==> SupplyAt(supplies, s.name) == PoolSupply(pool, s)
    ensures forall t :: t in scarcest[..j + 1] ==> NotAfter(pool, t, PoolSupply(pool, scarcest[j]), scarcest[j].name)
  {
    StrLeqTotal(scarcest[j].name, scarcest[j].name);
    forall k: nat | k <= j
      ensures NotAfter(pool, scarcest[k], PoolSupply(pool, scarcest[j]), scarcest[j].name)
    {
      if k < j {
        assert ByScarcity(supplies)(scarcest[k], scarcest[j]);
        ScarcerIsNotAfter(pool, supplies, scarcest[k], scarcest[j]);
      }
    }
  }

  lemma ScarcerIsNotAfter(pool: seq<Candidate>, supplies: map<string, int>, a: Stratum, b: Stratum)
    requires ScarcityLeq(supplies, a, b)
    requires SupplyAt(supplies, a.name) == PoolSupply(pool, a) && SupplyAt(supplies, b.name) == PoolSupply(pool, b)
    ensures NotAfter(pool, a, PoolSupply(pool, b), b.name)
  {}

  /** After the passes over the strata that come no later, a stratum has what it can get. */
  lemma EarlyReached(pool: seq<Candidate>, ordered: seq<Candidate>, size: nat, supplies: map<string, int>,
                     scarcest: seq<Stratum>, j: nat)
    requires DistinctIds(ordered) && j < |scarcest| && SortedBy(ByScarcity(supplies), scarcest)
    requires SupplyIsHonest(scarcest, supplies, ordered)
    requires forall s :: s in scarcest ==> Count(ordered, s.holds) == PoolSupply(pool, s)
    requires Count(ordered, Labeled())
      + DemandUpTo(pool, scarcest, PoolSupply(pool, scarcest[j]), scarcest[j].name) <= size
    ensures Count(FillFloors(scarcest[..j + 1], ordered, supplies, size, Mandatory(ordered, size)), scarcest[j].holds)
      >= TargetFloor(scarcest[j], supplies)
  {
    var early := scarcest[..j + 1];
    MandatoryIsChoice(ordered, size);
    EarlyDemandFits(pool, ordered, supplies, scarcest, j);
    assert early[j] == scarcest[j];
    FloorsReach(early, ordered, supplies, size, Mandatory(ordered, size));
  }

  lemma EarlyDemandFits(pool: seq<Candidate>, ordered: seq<Candidate>, supplies: map<string, int>,
                        scarcest: seq<Stratum>, j: nat)
    requires j < |scarcest| && SortedBy(ByScarcity(supplies), scarcest) && SupplyIsHonest(scarcest, supplies, ordered)
    requires forall s :: s in scarcest ==> Count(ordered, s.holds) == PoolSupply(pool, s)
    ensures SupplyIsHonest(scarcest[..j + 1], supplies, ordered)
    ensures Demand(scarcest[..j + 1], supplies)
      <= DemandUpTo(pool, scarcest, PoolSupply(pool, scarcest[j]), scarcest[j].name)
  {
    var supply, name, early := PoolSupply(pool, scarcest[j]), scarcest[j].name, scarcest[..j + 1];
    EarlyStrata(pool, supplies, scarcest, j);
    DemandOfEarly(pool, ordered, early, supplies, supply, name);
    assert scarcest == early + scarcest[j + 1..];
    DemandUpToAppend(pool, early, scarcest[j + 1..], supply, name);
  }

  /** The later passes and the fill take nothing away. */
  lemma EarlySurvives(ordered: seq<Candidate>, size: nat, strata: seq<Stratum>, j: nat, p: Candidate -> bool)
    requires DistinctIds(ordered) && j < |strata|
    ensures var supplies := SupplyOf(strata, ordered);
      var early := Sort(ByScarcity(supplies), strata)[..j + 1];
      Count(Selected(ordered, size, strata), p)
        >= Count(FillFloors(early, ordered, supplies, size, Mandatory(ordered, size)), p)
  {
    var supplies, m := SupplyOf(strata, ordered), Mandatory(ordered, size);
    var scarcest := Sort(ByScarcity(supplies), strata);
    var early, late := scarcest[..j + 1], scarcest[j + 1..];
    assert scarcest == early + late;
    MandatoryIsChoice(ordered, size);
    FillFloorsAppend(early, late, ordered, supplies, size, m);
    FloorsKeep(early, ordered, supplies, size, m);
    FloorsKeep(late, ordered, supplies, size, FillFloors(early, ordered, supplies, size, m));
    CountGrows(FillFloors(early, ordered, supplies, size, m), FillFloors(scarcest, ordered, supplies, size, m), p);
    FloorsSurviveFill(scarcest, ordered, supplies, size, p);
  }

  lemma ScarceOfOrdered(pool: seq<Candidate>, ordered: seq<Candidate>, size: nat, strata: seq<Stratum>, i: nat)
    requires DistinctIds(ordered) && DistinctNames(strata) && i < |strata|
    requires forall s :: s in strata ==> Count(ordered, s.holds) == PoolSupply(pool, s)
    requires Count(ordered, Labeled()) + DemandUpTo(pool, strata, PoolSupply(pool, strata[i]), strata[i].name) <= size
    ensures Count(Selected(ordered, size, strata), strata[i].holds) >= TargetFloor(strata[i], SupplyOf(strata, ordered))
  {
    var scarcest := Sort(ByScarcity(SupplyOf(strata, ordered)), strata);
    Rearranged(scarcest, strata, strata[i]);
    var j :| 0 <= j < |scarcest| && scarcest[j] == strata[i];
    HonestSupply(strata, ordered);
    ScarcityIsTotalOrder(SupplyOf(strata, ordered), strata);
    SortSorts(ByScarcity(SupplyOf(strata, ordered)), strata);
    SameElements(scarcest, strata);
    DemandUpToSort(pool, ByScarcity(SupplyOf(strata, ordered)), strata, PoolSupply(pool, strata[i]), strata[i].name);
    EarlyReached(pool, ordered, size, SupplyOf(strata, ordered), scarcest, j);
    EarlySurvives(ordered, size, strata, j, strata[i].holds);
  }

  /** Scarcest first: a stratum reaches its floor, or all it has, as soon as the labelled targets and the demand of
      those that are no less scarce fit the sample, whatever the more abundant ones ask for and however the strata
      overlap. */
  lemma ScarceFloorsAreMet(pool: seq<Candidate>, size: int, key: string -> string, strata: seq<Stratum>, i: nat)
    requires DrawSample(pool, size, key, strata).Drawn?
    requires DistinctNames(strata) && i < |strata|
    requires Count(FirstById(pool), Labeled())
      + DemandUpTo(pool, strata, PoolSupply(pool, strata[i]), strata[i].name) <= size
    ensures var r := DrawSample(pool, size, key, strata).result;
      && strata[i].name in r.coverage
      && r.coverage[strata[i].name] == Count(r.targets, strata[i].holds)
      && (r.coverage[strata[i].name] >= strata[i].floor || r.coverage[strata[i].name] >= PoolSupply(pool, strata[i]))
  {
    var ordered := OrderedPool(pool, key);
    DrawnIsSampleOf(pool, size, key, strata);
    forall s | s in strata
      ensures Count(ordered, s.holds) == PoolSupply(pool, s)
    {
      SameCount(FirstById(pool), ordered, s.holds);
    }
    SameCount(FirstById(pool), ordered, Labeled());
    ScarceOfOrdered(pool, ordered, size, strata, i);
    CoverageIsCount(ordered, size, key, strata, i);
    SupplyOfIsCount(strata, ordered, i);
  }

  // ----- validate_sample

  datatype Problem =
    | SizeMismatch(have: int, want: int)
    | DuplicateId
    | EmptyStratum(name: string)
    | BelowFloor(name: string, have: int, floor: int)
    | OutsidePool(matchId: string)

  function IdSet(t: seq<Candidate>): set<string> {
    set c | c in t :: c.matchId
  }

  function StratumProblem(r: SampleResult, s: Stratum): seq<Problem> {
    var have := SupplyAt(r.coverage, s.name);
    if have == 0 then [EmptyStratum(s.name)]
    else if have < s.floor && s.name !in r.cappedStrata then [BelowFloor(s.name, have, s.floor)]
    else []
  }

  function StratumProblems(r: SampleResult, strata: seq<Stratum>): seq<Problem> {
    if strata == [] then [] else StratumProblem(r, strata[0]) + StratumProblems(r, strata[1..])
  }

  function PoolProblems(t: seq<Candidate>): seq<Problem> {
    if t == [] then [] else (if t[0].Authorized() then [] else [OutsidePool(t[0].matchId)]) + PoolProblems(t[1..])
  }

  function Problems(r: SampleResult, size: int, strata: seq<Stratum>): seq<Problem> {
    (if |r.targets| != size then [SizeMismatch(|r.targets|, size)] else [])
    + (if |IdSet(r.targets)| != |r.targets| then [DuplicateId] else [])
    + StratumProblems(r, strata)
    + PoolProblems(r.targets)
  }

  method ValidateStrata(r: SampleResult, strata: seq<Stratum>) returns (problems: seq<Problem>)
    ensures problems == StratumProblems(r, strata)
  {
    problems := [];
    for i := 0 to |strata|
      invariant problems + StratumProblems(r, strata[i..]) == StratumProblems(r, strata)
    {
      assert strata[i..][1..] == strata[i + 1..];
      Assoc(problems, StratumProblem(r, strata[i]), StratumProblems(r, strata[i + 1..]));
      var have := if strata[i].name in r.coverage then r.coverage[strata[i].name] else 0;
      if have == 0 {
        problems := problems + [EmptyStratum(strata[i].name)];
      } else if have < strata[i].floor && strata[i].name !in r.cappedStrata {
        problems := problems + [BelowFloor(strata[i].name, have, strata[i].floor)];
      }
    }
  }

  method ValidateSample(r: SampleResult, size: int, strata: seq<Stratum>) returns (problems: seq<Problem>)
    ensures problems == Problems(r, size, strata)
  {
    problems := [];
    if |r.targets| != size {
      problems := problems + [SizeMismatch(|r.targets|, size)];
    }
    if |IdSet(r.targets)| != |r.targets| {
      problems := problems + [DuplicateId];
    }
    var fromStrata := ValidateStrata(r, strata);
    var outside := ValidatePool(r.targets);
    problems := problems + fromStrata + outside;
  }

  method ValidatePool(targets: seq<Candidate>) returns (problems: seq<Problem>)
    ensures problems == PoolProblems(targets)
  {
    problems := [];
    for i := 0 to |targets|
      invariant problems + PoolProblems(targets[i..]) == PoolProblems(targets)
    {
      assert targets[i..][1..] == targets[i + 1..];
      var here := if targets[i].Authorized() then [] else [OutsidePool(targets[i].matchId)];
      Assoc(problems, here, PoolProblems(targets[i + 1..]));
      problems := problems + here;
    }
  }

  lemma DistinctFromHead(t: seq<Candidate>)
    requires t != []
    ensures DistinctIds(t) <==> DistinctIds(t[1..]) && t[0].matchId !in IdSet(t[1..])
  {
    forall i, j | 0 < i < j < |t| && DistinctIds(t[1..]) ensures t[i].matchId != t[j].matchId {
      assert t[1..][i - 1].matchId != t[1..][j - 1].matchId;
    }
    if t[0].matchId in IdSet(t[1..]) {
      var c :| c in t[1..] && c.matchId == t[0].matchId;
      var k :| 0 <= k < |t[1..]| && t[1..][k] == c;
      assert t[k + 1].matchId == t[0].matchId;
    } else {
      forall k | 1 <= k < |t| ensures t[k].matchId != t[0].matchId { assert t[1..][k - 1] in t[1..]; }
    }
  }

  /** The duplicate test fires exactly on a repeated id. */
  lemma {:induction false} DuplicateTestIsExact(t: seq<Candidate>)
    ensures |IdSet(t)| <= |t|
    ensures |IdSet(t)| == |t| <==> DistinctIds(t)
  {
    if t != [] {
      DuplicateTestIsExact(t[1..]);
      DistinctFromHead(t);
      IdSetOfHead(t);
    }
  }

  lemma IdSetOfHead(t: seq<Candidate>)
    requires t != []
    ensures |IdSet(t)| == |IdSet(t[1..])| + if t[0].matchId in IdSet(t[1..]) then 0 else 1
  {
    assert t == [t[0]] + t[1..];
    assert IdSet(t) == IdSet(t[1..]) + {t[0].matchId};
  }

  lemma {:induction false} AuthorizedHaveNoPoolProblem(t: seq<Candidate>)
    ensures PoolProblems(t) == [] <==> forall i :: 0 <= i < |t| ==> t[i].Authorized()
  {
    if t != [] {
      AuthorizedHaveNoPoolProblem(t[1..]);
      assert forall i :: 0 < i < |t| ==> t[i] == t[1..][i - 1];
    }
  }

  lemma {:induction false} StratumProblemsAre(r: SampleResult, strata: seq<Stratum>)
    ensures forall p :: p in StratumProblems(r, strata) ==> p.EmptyStratum? || p.BelowFloor?
    ensures StratumProblems(r, strata) == [] <==> forall i :: 0 <= i < |strata| ==> StratumProblem(r, strata[i]) == []
  {
    if strata != [] {
      StratumProblemsAre(r, strata[1..]);
      assert forall i :: 0 < i < |strata| ==> strata[i] == strata[1..][i - 1];
    }
  }

  lemma {:induction false} CappedHolds(scarcest: seq<Stratum>, supply: map<string, int>, name: string)
    ensures name in Capped(scarcest, supply) <==>
      exists i :: 0 <= i < |scarcest| && scarcest[i].name == name && SupplyAt(supply, name) < scarcest[i].floor
  {
    if scarcest != [] {
      CappedHolds(scarcest[1..], supply, name);
      if i :|
        0 <= i < |scarcest[1..]| && scarcest[1..][i].name == name && SupplyAt(supply, name) < scarcest[1..][i].floor
      {
        assert scarcest[i + 1].name == name;
      }
      if i :| 0 <= i < |scarcest| && scarcest[i].name == name && SupplyAt(supply, name) < scarcest[i].floor {
        assert i == 0 || scarcest[1..][i - 1].name == name;
      }
    }
  }

  predicate LacksCoverage(r: SampleResult, s: Stratum, have: int) {
    && have == (if s.name in r.coverage then r.coverage[s.name] else 0)
    && have != 0 && have < s.floor && s.name !in r.cappedStrata
  }

  lemma {:induction false} StratumProblemsExactly(r: SampleResult, strata: seq<Stratum>, p: Problem)
    ensures p in StratumProblems(r, strata) <==>
      match p
      case EmptyStratum(name) =>
        exists s :: s in strata && s.name == name && (name !in r.coverage || r.coverage[name] == 0)
      case BelowFloor(name, have, floor) =>
        exists s :: s in strata && s.name == name && s.floor == floor && LacksCoverage(r, s, have)
      case _ => false
  {
    if strata != [] {
      StratumProblemsExactly(r, strata[1..], p);
      assert strata == [strata[0]] + strata[1..];
    }
  }

  lemma {:induction false} PoolProblemsExactly(t: seq<Candidate>, p: Problem)
    ensures p in PoolProblems(t) <==>
      exists c :: c in t && p == OutsidePool(c.matchId) && c.classification != "ACTIVE" && !c.labeledStech
  {
    if t != [] {
      PoolProblemsExactly(t[1..], p);
      assert t == [t[0]] + t[1..];
    }
  }

  /** What `validate_sample` says of any result at all, problem by problem. */
  lemma ProblemsExactly(r: SampleResult, size: int, strata: seq<Stratum>, p: Problem)
    ensures p in Problems(r, size, strata) <==>
      match p
      case SizeMismatch(have, want) => have == |r.targets| != want == size
      case DuplicateId => exists i, j :: 0 <= i < j < |r.targets| && r.targets[i].matchId == r.targets[j].matchId
      case EmptyStratum(name) =>
        exists s :: s in strata && s.name == name && (name !in r.coverage || r.coverage[name] == 0)
      case BelowFloor(name, have, floor) =>
        exists s :: s in strata && s.name == name && s.floor == floor && LacksCoverage(r, s, have)
      case OutsidePool(id) =>
        exists c :: c in r.targets && c.matchId == id && c.classification != "ACTIVE" && !c.labeledStech
  {
    DuplicateTestIsExact(r.targets);
    StratumProblemsExactly(r, strata, p);
    PoolProblemsExactly(r.targets, p);
  }

  /** A stratum is reported as capped exactly when the pool cannot supply its floor. */
  lemma CappedMeansShortSupply(ordered: seq<Candidate>, strata: seq<Stratum>, i: nat)
    requires DistinctNames(strata) && i < |strata|
    ensures strata[i].name in CappedNames(ordered, strata) <==> Count(ordered, strata[i].holds) < strata[i].floor
  {
    var supply := SupplyOf(strata, ordered);
    var scarcest := Sort(ByScarcity(supply), strata);
    var name := strata[i].name;
    SupplyOfIsCount(strata, ordered, i);
    CappedHolds(scarcest, supply, name);
    Rearranged(Sort(Strings(), Capped(scarcest, supply)), Capped(scarcest, supply), name);
    Rearranged(scarcest, strata, strata[i]);
    var j :| 0 <= j < |scarcest| && scarcest[j] == strata[i];
    if k :| 0 <= k < |scarcest| && scarcest[k].name == name && SupplyAt(supply, name) < scarcest[k].floor {
      Rearranged(scarcest, strata, scarcest[k]);
      var l :| 0 <= l < |strata| && strata[l] == scarcest[k];
      assert l == i || l < i || i < l;
    }
  }

  lemma StratumProblemExactly(ordered: seq<Candidate>, size: nat, key: string -> string, strata: seq<Stratum>, i: nat)
    requires DistinctIds(ordered) && size <= |ordered|
    requires DistinctNames(strata) && i < |strata|
    ensures var r := SampleOf(ordered, size, key, strata);
      StratumProblem(r, strata[i]) == [] <==>
        Count(r.targets, strata[i].holds) > 0
        && (Count(ordered, strata[i].holds) >= strata[i].floor ==>
              Count(r.targets, strata[i].holds) >= strata[i].floor)
  {
    CoverageIsCount(ordered, size, key, strata, i);
    CappedMeansShortSupply(ordered, strata, i);
  }

  lemma DrawnHasOnlyStratumProblems(pool: seq<Candidate>, size: int, key: string -> string, strata: seq<Stratum>)
    requires DrawSample(pool, size, key, strata).Drawn?
    ensures var r := DrawSample(pool, size, key, strata).result;
      Problems(r, size, strata) == StratumProblems(r, strata)
  {
    var r := DrawSample(pool, size, key, strata).result;
    DrawIsLegal(pool, size, key, strata);
    DuplicateTestIsExact(r.targets);
    forall i | 0 <= i < |r.targets| ensures r.targets[i].Authorized() { assert r.targets[i] in r.targets; }
    AuthorizedHaveNoPoolProblem(r.targets);
  }

  /** Every stratum has a target, and every floor that the pool could supply is reached. */
  ghost predicate StrataCovered(pool: seq<Candidate>, targets: seq<Candidate>, strata: seq<Stratum>) {
    forall i :: 0 <= i < |strata| ==>
      && Count(targets, strata[i].holds) > 0
      && (PoolSupply(pool, strata[i]) >= strata[i].floor ==> Count(targets, strata[i].holds) >= strata[i].floor)
  }

  /** On a drawn sample `validate_sample` can only complain about strata, and is silent exactly when every stratum
      has a target and every stratum whose floor the pool could supply has reached it. */
  lemma ValidateOnDrawn(pool: seq<Candidate>, size: int, key: string -> string, strata: seq<Stratum>)
    requires DrawSample(pool, size, key, strata).Drawn? && DistinctNames(strata)
    ensures var r := DrawSample(pool, size, key, strata).result;
      && (forall p :: p in Problems(r, size, strata) ==> p.EmptyStratum? || p.BelowFloor?)
      && (Problems(r, size, strata) == [] <==> StrataCovered(pool, r.targets, strata))
  {
    DrawnHasOnlyStratumProblems(pool, size, key, strata);
    DrawnIsSampleOf(pool, size, key, strata);
    StrataProblemsOfSample(pool, OrderedPool(pool, key), size, key, strata);
  }

  lemma StrataProblemsOfSample(pool: seq<Candidate>, ordered: seq<Candidate>, size: nat, key: string -> string,
                               strata: seq<Stratum>)
    requires DistinctIds(ordered) && size <= |ordered| && DistinctNames(strata)
    requires multiset(FirstById(pool)) == multiset(ordered)
    ensures var r := SampleOf(ordered, size, key, strata);
      && (forall p :: p in StratumProblems(r, strata) ==> p.EmptyStratum? || p.BelowFloor?)
      && (StratumProblems(r, strata) == [] <==> StrataCovered(pool, r.targets, strata))
  {
    var r := SampleOf(ordered, size, key, strata);
    StratumProblemsAre(r, strata);
    forall i | 0 <= i < |strata|
      ensures StratumProblem(r, strata[i]) == [] <==>
        Count(r.targets, strata[i].holds) > 0
        && (PoolSupply(pool, strata[i]) >= strata[i].floor ==> Count(r.targets, strata[i].holds) >= strata[i].floor)
    {
      StratumProblemExactly(ordered, size, key, strata, i);
      SameCount(ordered, FirstById(pool), strata[i].holds);
    }
  }

  /** When the floors fit and every stratum has supply, the drawn sample is valid. */
  lemma FittingSampleIsValid(pool: seq<Candidate>, size: int, key: string -> string, strata: seq<Stratum>)
    requires DrawSample(pool, size, key, strata).Drawn? && DistinctNames(strata)
    requires Count(FirstById(pool), Labeled()) + TotalDemand(pool, strata) <= size
    requires forall i :: 0 <= i < |strata| ==> strata[i].floor >= 1 && PoolSupply(pool, strata[i]) >= 1
    ensures Problems(DrawSample(pool, size, key, strata).result, size, strata) == []
  {
    ValidateOnDrawn(pool, size, key, strata);
    forall i | 0 <= i < |strata|
      ensures Count(DrawSample(pool, size, key, strata).result.targets, strata[i].holds)
           >= Min(strata[i].floor, PoolSupply(pool, strata[i]))
    {
      FloorsAreMet(pool, size, key, strata, i);
    }
  }

  // ----- order independence

  lemma ScarcityIsTotalOrder(supply: map<string, int>, strata: seq<Stratum>)
    ensures TotalPreorderOn(ByScarcity(supply), strata)
    ensures DistinctNames(strata) ==> AntisymmetricOn(ByScarcity(supply), strata)
  {
    var leq := ByScarcity(supply);
    forall a, b | a in strata && b in strata ensures leq(a, b) || leq(b, a) { StrLeqTotal(a.name, b.name); }
    forall a, b, c | a in strata && b in strata && c in strata && leq(a, b) && leq(b, c) ensures leq(a, c) {
      if StrLeq(a.name, b.name) && StrLeq(b.name, c.name) { StrLeqTransitive(a.name, b.name, c.name); }
    }
    if DistinctNames(strata) {
      forall a, b | a in strata && b in strata && leq(a, b) && leq(b, a) ensures a == b {
        StrLeqAntisymmetric(a.name, b.name);
        var i :| 0 <= i < |strata| && strata[i] == a;
        var j :| 0 <= j < |strata| && strata[j] == b;
        assert i == j || i < j || j < i;
      }
    }
  }

  lemma SupplyForgetsOrder(strata: seq<Stratum>, strata': seq<Stratum>, ordered: seq<Candidate>)
    requires DistinctNames(strata) && DistinctNames(strata') && multiset(strata) == multiset(strata')
    ensures SupplyOf(strata, ordered) == SupplyOf(strata', ordered)
  {
    SupplyIncluded(strata, strata', ordered);
    SupplyIncluded(strata', strata, ordered);
  }

  lemma SupplyIncluded(strata: seq<Stratum>, strata': seq<Stratum>, ordered: seq<Candidate>)
    requires DistinctNames(strata) && DistinctNames(strata') && multiset(strata) == multiset(strata')
    ensures forall n :: n in SupplyOf(strata, ordered) ==>
      n in SupplyOf(strata', ordered) && SupplyOf(strata', ordered)[n] == SupplyOf(strata, ordered)[n]
  {
    forall n | n in SupplyOf(strata, ordered)
      ensures n in SupplyOf(strata', ordered) && SupplyOf(strata', ordered)[n] == SupplyOf(strata, ordered)[n]
    {
      SupplyOfKeys(strata, ordered, n);
      var i :| 0 <= i < |strata| && strata[i].name == n;
      SupplyOfIsCount(strata, ordered, i);
      assert strata[i] in multiset(strata) && strata[i] in multiset(strata');
      var j :| 0 <= j < |strata'| && strata'[j] == strata[i];
      SupplyOfIsCount(strata', ordered, j);
    }
  }

  lemma StrataOrderForgotten(ordered: seq<Candidate>, size: nat, strata: seq<Stratum>, strata': seq<Stratum>)
    requires DistinctNames(strata) && DistinctNames(strata') && multiset(strata) == multiset(strata')
    ensures Selected(ordered, size, strata) == Selected(ordered, size, strata')
    ensures CappedNames(ordered, strata) == CappedNames(ordered, strata')
  {
    SupplyForgetsOrder(strata, strata', ordered);
    var supply := SupplyOf(strata, ordered);
    ScarcityIsTotalOrder(supply, strata);
    SortForgetsOrder(ByScarcity(supply), strata, strata');
  }

  lemma SampleForgetsStrataOrder(ordered: seq<Candidate>, size: nat, key: string -> string,
                                 strata: seq<Stratum>, strata': seq<Stratum>)
    requires DistinctNames(strata) && DistinctNames(strata') && multiset(strata) == multiset(strata')
    ensures SampleOf(ordered, size, key, strata) == SampleOf(ordered, size, key, strata')
  {
    StrataOrderForgotten(ordered, size, strata, strata');
    SupplyForgetsOrder(strata, strata', Sort(ByKey(key), Selected(ordered, size, strata)));
  }

  lemma PoolOrderForgotten(pool: seq<Candidate>, pool': seq<Candidate>, key: string -> string)
    requires DistinctIds(pool) && multiset(pool) == multiset(pool')
    ensures OrderedPool(pool, key) == OrderedPool(pool', key)
    ensures AllAuthorized(pool) ==> AllAuthorized(pool')
  {
    DistinctRearranged(pool, pool');
    FirstByIdOfDistinct(pool);
    FirstByIdOfDistinct(pool');
    KeyIsTotalOrder(key, pool);
    SortForgetsOrder(ByKey(key), pool, pool');
    if AllAuthorized(pool) {
      forall i | 0 <= i < |pool'| ensures pool'[i].Authorized() {
        Rearranged(pool, pool', pool'[i]);
        var j :| 0 <= j < |pool| && pool[j] == pool'[i];
      }
    }
  }

  /** The sample, its coverage and its capped strata do not depend on the order of the pool or of the strata. */
  lemma DrawForgetsOrder(pool: seq<Candidate>, pool': seq<Candidate>, size: int, key: string -> string,
                         strata: seq<Stratum>, strata': seq<Stratum>)
    requires DistinctIds(pool) && multiset(pool) == multiset(pool')
    requires DistinctNames(strata) && DistinctNames(strata') && multiset(strata) == multiset(strata')
    requires AllAuthorized(pool)
    ensures DrawSample(pool, size, key, strata) == DrawSample(pool', size, key, strata')
  {
    PoolOrderForgotten(pool, pool', key);
    if size > 0 {
      StrataOrderForgotten(OrderedPool(pool, key), size, strata, strata');
      SampleForgetsStrataOrder(OrderedPool(pool, key), size, key, strata, strata');
    }
  }

  // ----- identity of the target set

  datatype Identity = Identity(matchId: string, domain: string, url: string)

  predicate IdentityLeq(a: Identity, b: Identity) {
    if a.matchId != b.matchId then StrLeq(a.matchId, b.matchId)
    else if a.domain != b.domain then StrLeq(a.domain, b.domain)
    else StrLeq(a.url, b.url)
  }

  function Identities(): (Identity, Identity) -> bool {
    (a, b) => IdentityLeq(a, b)
  }

  function IdentitiesOf(t: seq<Candidate>): seq<Identity> {
    if t == [] then [] else [Identity(t[0].matchId, t[0].domain, t[0].url)] + IdentitiesOf(t[1..])
  }

  /** The payload that `target_set_hash` digests: the sorted `(match_id, domain, url)` triples. */
  function Payload(t: seq<Candidate>): seq<Identity> {
    Sort(Identities(), IdentitiesOf(t))
  }

  lemma IdentityLeqTransitive(a: Identity, b: Identity, c: Identity)
    requires IdentityLeq(a, b) && IdentityLeq(b, c)
    ensures IdentityLeq(a, c)
  {
    if a.matchId != b.matchId && b.matchId != c.matchId {
      StrLeqTransitive(a.matchId, b.matchId, c.matchId);
      if a.matchId == c.matchId { StrLeqAntisymmetric(a.matchId, b.matchId); }
    } else if a.matchId == b.matchId == c.matchId {
      if a.domain != b.domain && b.domain != c.domain {
        StrLeqTransitive(a.domain, b.domain, c.domain);
        if a.domain == c.domain { StrLeqAntisymmetric(a.domain, b.domain); }
      } else if a.domain == b.domain == c.domain {
        StrLeqTransitive(a.url, b.url, c.url);
      }
    }
  }

  lemma IdentityIsTotalOrder(s: seq<Identity>)
    ensures TotalPreorderOn(Identities(), s) && AntisymmetricOn(Identities(), s)
  {
    forall a: Identity, b: Identity ensures IdentityLeq(a, b) || IdentityLeq(b, a) {
      StrLeqTotal(a.matchId, b.matchId);
      StrLeqTotal(a.domain, b.domain);
      StrLeqTotal(a.url, b.url);
    }
    forall a: Identity, b: Identity, c: Identity | IdentityLeq(a, b) && IdentityLeq(b, c) ensures IdentityLeq(a, c) {
      IdentityLeqTransitive(a, b, c);
    }
    forall a: Identity, b: Identity | IdentityLeq(a, b) && IdentityLeq(b, a) ensures a == b {
      if a.matchId != b.matchId { StrLeqAntisymmetric(a.matchId, b.matchId); }
      else if a.domain != b.domain { StrLeqAntisymmetric(a.domain, b.domain); }
      else { StrLeqAntisymmetric(a.url, b.url); }
    }
  }

  /** Two target sequences have the same payload exactly when they hold the same identities, in any order
      and whatever the other attributes of the targets. */
  lemma PayloadIdentifiesTheSet(s: seq<Candidate>, t: seq<Candidate>)
    ensures Payload(s) == Payload(t) <==> multiset(IdentitiesOf(s)) == multiset(IdentitiesOf(t))
  {
    if multiset(IdentitiesOf(s)) == multiset(IdentitiesOf(t)) {
      IdentityIsTotalOrder(IdentitiesOf(s));
      SortForgetsOrder(Identities(), IdentitiesOf(s), IdentitiesOf(t));
    }
  }

  // ----- the imperative draw

  method CountSupply(strata: seq<Stratum>, ordered: seq<Candidate>) returns (supply: map<string, int>)
    ensures supply == SupplyOf(strata, ordered)
  {
    supply := map[];
    for i := 0 to |strata|
      invariant supply == SupplyOf(strata[..i], ordered)
    {
      assert strata[..i + 1][..i] == strata[..i];
      supply := supply[strata[i].name := Count(ordered, strata[i].holds)];
    }
    assert strata[..|strata|] == strata;
  }

  method DistinctById(pool: seq<Candidate>) returns (byId: seq<Candidate>)
    ensures byId == FirstById(pool)
  {
    byId := [];
    for i := 0 to |pool|
      invariant byId == FirstById(pool[..i])
    {
      assert pool[..i + 1][..i] == pool[..i];
      if !HasId(byId, pool[i].matchId) {
        byId := byId + [pool[i]];
      }
    }
    assert pool[..|pool|] == pool;
  }

  method CoverStratum(stratum: Stratum, ordered: seq<Candidate>, target: int, size: nat, before: seq<Candidate>)
    returns (selected: seq<Candidate>)
    ensures selected ==
      if Count(before, stratum.holds) >= target then before
      else FillStratum(ordered, stratum.holds, target, size, before, Count(before, stratum.holds))
  {
    selected := before;
    var have := Count(selected, stratum.holds);
    if have >= target {
      return;
    }
    ghost var goal := FillStratum(ordered, stratum.holds, target, size, before, have);
    assert ordered[0..] == ordered;
    for i := 0 to |ordered|
      invariant goal == FillStratum(ordered[i..], stratum.holds, target, size, selected, have)
    {
      var candidate := ordered[i];
      assert ordered[i..][0] == candidate && ordered[i..][1..] == ordered[i + 1..];
      if |selected| >= size {
        return;
      }
      if !HasId(selected, candidate.matchId) && stratum.holds(candidate) {
        selected := selected + [candidate];
        have := have + 1;
        if have >= target {
          return;
        }
      }
    }
  }

  method CoverFloors(scarcest: seq<Stratum>, ordered: seq<Candidate>, supply: map<string, int>, size: nat,
                     mandatory: seq<Candidate>)
    returns (selected: seq<Candidate>, capped: seq<string>)
    ensures selected == FillFloors(scarcest, ordered, supply, size, mandatory)
    ensures capped == Capped(scarcest, supply)
  {
    selected := mandatory;
    capped := [];
    var rest := scarcest;
    while rest != []
      invariant FillFloors(rest, ordered, supply, size, selected) ==
        FillFloors(scarcest, ordered, supply, size, mandatory)
      invariant capped + Capped(rest, supply) == Capped(scarcest, supply)
    {
      var stratum := rest[0];
      var target := TargetFloor(stratum, supply);
      CappedStep(capped, rest, supply);
      if target < stratum.floor {
        capped := capped + [stratum.name];
      }
      selected := CoverStratum(stratum, ordered, target, size, selected);
      rest := rest[1..];
    }
  }

  lemma CappedStep(capped: seq<string>, rest: seq<Stratum>, supply: map<string, int>)
    requires rest != []
    ensures capped + Capped(rest, supply)
         == (if TargetFloor(rest[0], supply) < rest[0].floor then capped + [rest[0].name] else capped)
            + Capped(rest[1..], supply)
  {
    var here := if TargetFloor(rest[0], supply) < rest[0].floor then [rest[0].name] else [];
    assert Capped(rest, supply) == here + Capped(rest[1..], supply);
    Assoc(capped, here, Capped(rest[1..], supply));
  }

  lemma GroupStep(s: seq<Candidate>, i: nat)
    requires i < |s|
    ensures Domains(s[..i + 1]) ==
      if s[i].domain in Domains(s[..i]) then Domains(s[..i]) else Domains(s[..i]) + [s[i].domain]
    ensures forall d :: Members(s[..i + 1], d) == Members(s[..i], d) + (if s[i].domain == d then [s[i]] else [])
    ensures s[i].domain !in Domains(s[..i]) ==> Members(s[..i], s[i].domain) == []
  {
    assert s[..i + 1][..i] == s[..i] && s[..i + 1][i] == s[i];
    DomainKeys(s[..i]);
  }

  ghost predicate Grouped(s: seq<Candidate>, domains: seq<string>, byDomain: map<string, seq<Candidate>>) {
    && domains == Domains(s)
    && (forall d :: d in byDomain <==> d in domains)
    && (forall d :: d in byDomain ==> byDomain[d] == Members(s, d))
  }

  method GroupByDomain(available: seq<Candidate>)
    returns (domains: seq<string>, byDomain: map<string, seq<Candidate>>)
    ensures Grouped(available, domains, byDomain)
  {
    domains, byDomain := [], map[];
    for i := 0 to |available|
      invariant Grouped(available[..i], domains, byDomain)
    {
      GroupStep(available, i);
      var c := available[i];
      if c.domain !in byDomain {
        byDomain := byDomain[c.domain := []];
        domains := domains + [c.domain];
      }
      byDomain := byDomain[c.domain := byDomain[c.domain] + [c]];
    }
    assert available[..|available|] == available;
  }

  lemma PicksStep(s: seq<Candidate>, ds: seq<string>, allotted: map<string, int>, i: nat)
    requires i < |ds| && ds[i] in allotted && 0 <= allotted[ds[i]] <= |Members(s, ds[i])|
    ensures Picks(s, ds[i..], allotted) == Members(s, ds[i])[..allotted[ds[i]]] + Picks(s, ds[i + 1..], allotted)
  {
    assert ds[i..][0] == ds[i] && ds[i..][1..] == ds[i + 1..];
  }

  method TakePrefixes(available: seq<Candidate>, domains: seq<string>, byDomain: map<string, seq<Candidate>>,
                      allotted: map<string, int>)
    returns (picked: seq<Candidate>)
    requires forall i :: 0 <= i < |domains| ==>
      && domains[i] in byDomain && byDomain[domains[i]] == Members(available, domains[i])
      && domains[i] in allotted && 0 <= allotted[domains[i]] <= |byDomain[domains[i]]|
    ensures picked == Picks(available, domains, allotted)
  {
    picked := [];
    ghost var all := Picks(available, domains, allotted);
    assert domains[0..] == domains;
    for i := 0 to |domains|
      invariant picked + Picks(available, domains[i..], allotted) == all
    {
      PicksStep(available, domains, allotted, i);
      picked := picked + byDomain[domains[i]][..allotted[domains[i]]];
    }
    assert picked + [] == picked;
  }

  method AllotAndPick(available: seq<Candidate>, remaining: nat) returns (picked: seq<Candidate>)
    requires available != [] && remaining > 0
    ensures picked == Picks(available, Domains(available), Allotment(MixOf(available), remaining))
  {
    var domains, byDomain := GroupByDomain(available);
    var mix := Mix(domains, map d | d in byDomain :: |byDomain[d]|, |available|);
    MembersPartition(available);
    assert mix.sizes == MixOf(available).sizes;
    var allotted := Apportion(mix, remaining);
    forall i | 0 <= i < |domains|
      ensures domains[i] in byDomain && byDomain[domains[i]] == Members(available, domains[i])
      ensures domains[i] in allotted && 0 <= allotted[domains[i]] <= |byDomain[domains[i]]|
    {
      assert domains[i] in domains;
      AllotmentInRange(mix, remaining, domains[i]);
    }
    picked := TakePrefixes(available, domains, byDomain, allotted);
  }

  method ProportionalFill(ordered: seq<Candidate>, selected: seq<Candidate>, remaining: int)
    returns (picked: seq<Candidate>)
    ensures picked == Fill(ordered, selected, remaining)
  {
    var available := Unselected(ordered, selected);
    if available == [] || remaining <= 0 {
      return [];
    }
    picked := AllotAndPick(available, remaining);
    picked := if |picked| <= remaining then picked else picked[..remaining];
  }

  method CheckAuthorized(pool: seq<Candidate>) returns (ok: bool, offender: string)
    ensures ok <==> AllAuthorized(pool)
    ensures !ok ==> offender == FirstUnauthorized(pool)
  {
    for i := 0 to |pool|
      invariant AllAuthorized(pool[..i])
      invariant AllAuthorized(pool[i..]) <==> AllAuthorized(pool)
      invariant !AllAuthorized(pool) ==> FirstUnauthorized(pool[i..]) == FirstUnauthorized(pool)
    {
      NextUnauthorized(pool, i);
      if !pool[i].Authorized() {
        return false, pool[i].matchId;
      }
    }
    return true, "";
  }

  lemma NextUnauthorized(pool: seq<Candidate>, i: nat)
    requires i < |pool|
    ensures AllAuthorized(pool[i..]) <==> pool[i].Authorized() && AllAuthorized(pool[i + 1..])
    ensures pool[i..][0] == pool[i] && pool[i..][1..] == pool[i + 1..]
  {
    var s, t := pool[i..], pool[i + 1..];
    assert forall j :: 0 <= j < |t| ==> t[j] == s[j + 1];
    assert forall j :: 0 < j < |s| ==> s[j] == t[j - 1];
  }

  lemma NothingToFill(ordered: seq<Candidate>, floors: seq<Candidate>, remaining: int)
    requires remaining <= 0
    ensures floors + Fill(ordered, floors, remaining) == floors
  {}

  /** Stages 1 to 3 of the draw on an ordered, duplicate-free pool. */
  method SelectTargets(ordered: seq<Candidate>, size: nat, strata: seq<Stratum>)
    returns (selected: seq<Candidate>, capped: seq<string>)
    ensures selected == Selected(ordered, size, strata)
    ensures capped == CappedNames(ordered, strata)
  {
    var labeled := Select(ordered, Labeled());
    var mandatory := if |labeled| <= size then labeled else labeled[..size];
    var supply := CountSupply(strata, ordered);
    var floors;
    assert mandatory == Mandatory(ordered, size);
    floors, capped := CoverFloors(Sort(ByScarcity(supply), strata), ordered, supply, size, mandatory);
    selected := FillUp(ordered, floors, size);
    capped := Sort(Strings(), capped);
  }

  method FillUp(ordered: seq<Candidate>, floors: seq<Candidate>, size: nat) returns (selected: seq<Candidate>)
    ensures selected == Topped(ordered, floors, size)
  {
    selected := floors;
    var remaining := size - |floors|;
    if remaining > 0 {
      var picked := ProportionalFill(ordered, floors, remaining);
      selected := floors + picked;
    } else {
      NothingToFill(ordered, floors, remaining);
    }
  }

  method BuildStratifiedSample(pool: seq<Candidate>, size: int, key: string -> string, strata: seq<Stratum>)
    returns (draw: Draw)
    ensures draw == DrawSample(pool, size, key, strata)
  {
    if size <= 0 {
      return Refused(SizeNotPositive);
    }
    var ok, offender := CheckAuthorized(pool);
    if !ok {
      return Refused(OutsideAuthorizedPool(offender));
    }
    var byId := DistinctById(pool);
    var ordered := Sort(ByKey(key), byId);
    if |ordered| < size {
      return Refused(PoolTooSmall(|ordered|, size));
    }
    var selected, capped := SelectTargets(ordered, size, strata);
    if |selected| != size {
      return Refused(WrongSize(|selected|, size));
    }
    var targets := Sort(ByKey(key), selected);
    var coverage := CountSupply(strata, targets);
    draw := Drawn(SampleResult(targets, coverage, capped, |ordered|, Count(ordered, Labeled())));
  }
}
