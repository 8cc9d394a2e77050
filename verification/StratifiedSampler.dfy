/**
 `build_stratified_sample`, `_proportional_fill`, `validate_sample` and the
 target-set identity of scripts/run_gate_d_canary.py. The seeded SHA-256 of a
 match id is an arbitrary function `key` of the id.
 */
module StratifiedSampler {
  import opened Ordering
  import opened Apportionment

  datatype Candidate = Candidate(
    matchId: string,
    competitorId: string,
    domain: string,
    url: string,
    classification: string,
    variantIdentifier: string,
    previouslySuccessful: bool,
    previouslyFailed: bool,
    attemptsP95: int,
    usedDirect: bool,
    usedProxy: bool,
    usedBrowser: bool,
    labeledStech: bool)
  {
    predicate Authorized() { classification == "ACTIVE" || labeledStech }
  }

  datatype Stratum = Stratum(name: string, floor: int, holds: Candidate -> bool)

  datatype SampleResult = SampleResult(
    targets: seq<Candidate>,
    coverage: map<string, int>,
    cappedStrata: seq<string>,
    poolSize: nat,
    mandatoryCount: nat)

  datatype Refusal =
    | SizeNotPositive
    | OutsideAuthorizedPool(matchId: string)
    | PoolTooSmall(distinct: nat, size: int)
    | WrongSize(produced: nat, size: int)

  datatype Draw = Drawn(result: SampleResult) | Refused(reason: Refusal)

  // ----- candidates by id

  predicate HasId(s: seq<Candidate>, id: string) {
    exists i :: 0 <= i < |s| && s[i].matchId == id
  }

  ghost predicate DistinctIds(s: seq<Candidate>) {
    forall i, j :: 0 <= i < j < |s| ==> s[i].matchId != s[j].matchId
  }

  /** `by_id.setdefault(c.match_id, c)` over the pool: the first candidate of each id. */
  function FirstById(pool: seq<Candidate>): (r: seq<Candidate>)
    ensures DistinctIds(r)
    ensures forall c :: c in r ==> c in pool
  {
    if pool == [] then []
    else
      var rest, c := FirstById(pool[..|pool| - 1]), pool[|pool| - 1];
      if HasId(rest, c.matchId) then rest else rest + [c]
  }

  predicate KeyLeq(key: string -> string, a: Candidate, b: Candidate) {
    var (ka, kb) := (key(a.matchId), key(b.matchId));
    if ka == kb then StrLeq(a.matchId, b.matchId) else StrLeq(ka, kb)
  }

  /** The comparison behind `sorted(..., key=lambda c: (_selection_key(seed, c.match_id), c.match_id))`. */
  function ByKey(key: string -> string): (Candidate, Candidate) -> bool {
    (a, b) => KeyLeq(key, a, b)
  }

  function OrderedPool(pool: seq<Candidate>, key: string -> string): seq<Candidate> {
    Sort(ByKey(key), FirstById(pool))
  }

  function Select(s: seq<Candidate>, p: Candidate -> bool): (r: seq<Candidate>)
    ensures |r| <= |s|
    ensures forall c :: c in r <==> c in s && p(c)
  {
    if s == [] then []
    else
      assert s == [s[0]] + s[1..];
      (if p(s[0]) then [s[0]] else []) + Select(s[1..], p)
  }

  /** `sum(1 for c in s if p(c))` */
  function Count(s: seq<Candidate>, p: Candidate -> bool): nat {
    |Select(s, p)|
  }

  function Labeled(): Candidate -> bool {
    (c: Candidate) => c.labeledStech
  }

  // ----- floors

  /** The inner `for candidate in ordered` loop of one stratum, from `rest` on. */
  function FillStratum(rest: seq<Candidate>, p: Candidate -> bool, target: int, size: nat,
                       selected: seq<Candidate>, have: int): seq<Candidate>
    decreases |rest|
  {
    if rest == [] || |selected| >= size then selected
    else if HasId(selected, rest[0].matchId) || !p(rest[0]) then
      FillStratum(rest[1..], p, target, size, selected, have)
    else if have + 1 >= target then selected + [rest[0]]
    else FillStratum(rest[1..], p, target, size, selected + [rest[0]], have + 1)
  }

  function Min(a: int, b: int): int { if b < a then b else a }

  function SupplyOf(strata: seq<Stratum>, ordered: seq<Candidate>): map<string, int> {
    if strata == [] then map[]
    else
      var last := strata[|strata| - 1];
      SupplyOf(strata[..|strata| - 1], ordered)[last.name := Count(ordered, last.holds)]
  }

  function SupplyAt(supply: map<string, int>, name: string): int {
    if name in supply then supply[name] else 0
  }

  predicate ScarcityLeq(supply: map<string, int>, a: Stratum, b: Stratum) {
    var (sa, sb) := (SupplyAt(supply, a.name), SupplyAt(supply, b.name));
    sa < sb || (sa == sb && StrLeq(a.name, b.name))
  }

  /** `sorted(strata, key=lambda s: (supply[s.name], s.name))` */
  function ByScarcity(supply: map<string, int>): (Stratum, Stratum) -> bool {
    (a, b) => ScarcityLeq(supply, a, b)
  }

  function TargetFloor(s: Stratum, supply: map<string, int>): int {
    Min(s.floor, SupplyAt(supply, s.name))
  }

  function OnePass(s: Stratum, ordered: seq<Candidate>, supply: map<string, int>, size: nat,
                   selected: seq<Candidate>): seq<Candidate>
  {
    var have := Count(selected, s.holds);
    if have >= TargetFloor(s, supply) then selected
    else FillStratum(ordered, s.holds, TargetFloor(s, supply), size, selected, have)
  }

  function FillFloors(scarcest: seq<Stratum>, ordered: seq<Candidate>, supply: map<string, int>, size: nat,
                      selected: seq<Candidate>): seq<Candidate>
  {
    if scarcest == [] then selected
    else FillFloors(scarcest[1..], ordered, supply, size, OnePass(scarcest[0], ordered, supply, size, selected))
  }

  function Capped(scarcest: seq<Stratum>, supply: map<string, int>): seq<string> {
    if scarcest == [] then []
    else (if TargetFloor(scarcest[0], supply) < scarcest[0].floor then [scarcest[0].name] else [])
         + Capped(scarcest[1..], supply)
  }

  function Mandatory(ordered: seq<Candidate>, size: nat): seq<Candidate> {
    var m := Select(ordered, Labeled());
    if |m| <= size then m else m[..size]
  }

  // ----- proportional remainder

  function NotIn(selected: seq<Candidate>): Candidate -> bool {
    (c: Candidate) => !HasId(selected, c.matchId)
  }

  /** `[c for c in ordered if c.match_id not in selected]` */
  function Unselected(ordered: seq<Candidate>, selected: seq<Candidate>): seq<Candidate> {
    Select(ordered, NotIn(selected))
  }

  function Members(s: seq<Candidate>, d: string): (r: seq<Candidate>)
    ensures forall c :: c in r ==> c in s && c.domain == d
  {
    if s == [] then []
    else Members(s[..|s| - 1], d) + (if s[|s| - 1].domain == d then [s[|s| - 1]] else [])
  }

  /** The keys of `by_domain`, in insertion order. */
  function Domains(s: seq<Candidate>): (r: seq<string>)
    ensures forall i, j :: 0 <= i < j < |r| ==> r[i] != r[j]
    ensures s != [] ==> r != []
  {
    if s == [] then []
    else
      var r := Domains(s[..|s| - 1]);
      if s[|s| - 1].domain in r then r else r + [s[|s| - 1].domain]
  }

  function MixOf(s: seq<Candidate>): Mix {
    Mix(Domains(s), map d | d in Domains(s) :: |Members(s, d)|, |s|)
  }

  /** `picked.extend(by_domain[domain][:count])` over `allotted.items()`. */
  function Picks(s: seq<Candidate>, ds: seq<string>, allotted: map<string, int>): seq<Candidate> {
    if ds == [] then []
    else
      var m := Members(s, ds[0]);
      (if ds[0] in allotted && 0 <= allotted[ds[0]] <= |m| then m[..allotted[ds[0]]] else [])
      + Picks(s, ds[1..], allotted)
  }

  function Fill(ordered: seq<Candidate>, selected: seq<Candidate>, remaining: int): seq<Candidate> {
    var s := Unselected(ordered, selected);
    if s == [] || remaining <= 0 then []
    else
      var picked := Picks(s, Domains(s), Allotment(MixOf(s), remaining));
      if |picked| <= remaining then picked else picked[..remaining]
  }

  // ----- the whole draw

  predicate AllAuthorized(pool: seq<Candidate>) {
    forall i :: 0 <= i < |pool| ==> pool[i].Authorized()
  }

  function FirstUnauthorized(pool: seq<Candidate>): string
    requires !AllAuthorized(pool)
  {
    if !pool[0].Authorized() then pool[0].matchId
    else
      assert !AllAuthorized(pool[1..]) by {
        var i :| 0 <= i < |pool| && !pool[i].Authorized();
        assert pool[1..][i - 1] == pool[i];
      }
      FirstUnauthorized(pool[1..])
  }

  function SelectedFrom(scarcest: seq<Stratum>, ordered: seq<Candidate>, supply: map<string, int>,
                        size: nat): seq<Candidate>
  {
    Topped(ordered, FillFloors(scarcest, ordered, supply, size, Mandatory(ordered, size)), size)
  }

  function Topped(ordered: seq<Candidate>, floors: seq<Candidate>, size: nat): seq<Candidate> {
    floors + Fill(ordered, floors, size - |floors|)
  }

  /** Everything selected, in the order it was selected. */
  function Selected(ordered: seq<Candidate>, size: nat, strata: seq<Stratum>): seq<Candidate> {
    var supply := SupplyOf(strata, ordered);
    SelectedFrom(Sort(ByScarcity(supply), strata), ordered, supply, size)
  }

  function CappedNames(ordered: seq<Candidate>, strata: seq<Stratum>): seq<string> {
    var supply := SupplyOf(strata, ordered);
    Sort(Strings(), Capped(Sort(ByScarcity(supply), strata), supply))
  }

  /** The sample drawn from an ordered, duplicate-free pool. */
  function SampleOf(ordered: seq<Candidate>, size: nat, key: string -> string, strata: seq<Stratum>): SampleResult {
    var targets := Sort(ByKey(key), Selected(ordered, size, strata));
    SampleResult(
      targets,
      SupplyOf(strata, targets),
      CappedNames(ordered, strata),
      |ordered|,
      Count(ordered, Labeled()))
  }

  function DrawSample(pool: seq<Candidate>, size: int, key: string -> string, strata: seq<Stratum>): Draw {
    var ordered := OrderedPool(pool, key);
    if size <= 0 then Refused(SizeNotPositive)
    else if !AllAuthorized(pool) then Refused(OutsideAuthorizedPool(FirstUnauthorized(pool)))
    else if |ordered| < size then Refused(PoolTooSmall(|ordered|, size))
    else if |Selected(ordered, size, strata)| != size then
      Refused(WrongSize(|Selected(ordered, size, strata)|, size))
    else Drawn(SampleOf(ordered, size, key, strata))
  }

  // ----- sequences of distinct ids

  /** `sel` is a duplicate-free choice from `ordered`. */
  ghost predicate ChosenFrom(sel: seq<Candidate>, ordered: seq<Candidate>) {
    DistinctIds(sel) && forall i :: 0 <= i < |sel| ==> sel[i] in ordered
  }

  lemma {:induction false} FirstByIdKeepsIds(pool: seq<Candidate>, id: string)
    ensures HasId(FirstById(pool), id) <==> HasId(pool, id)
  {
    if pool != [] {
      var t, c := pool[..|pool| - 1], pool[|pool| - 1];
      FirstByIdKeepsIds(t, id);
      var rest, r := FirstById(t), FirstById(pool);
      if HasId(t, id) {
        var i :| 0 <= i < |rest| && rest[i].matchId == id;
        assert r[i] == rest[i];
        var j :| 0 <= j < |t| && t[j].matchId == id;
        assert pool[j] == t[j];
      } else if c.matchId == id {
        assert r[|r| - 1] == c;
      } else {
        assert forall i :: 0 <= i < |r| ==> r[i] == c || (i < |rest| && r[i] == rest[i]);
        assert forall i :: 0 <= i < |pool| ==> pool[i] == c || (i < |t| && pool[i] == t[i]);
      }
    }
  }

  lemma {:induction false} FirstByIdOfDistinct(pool: seq<Candidate>)
    requires DistinctIds(pool)
    ensures FirstById(pool) == pool
  {
    if pool != [] {
      FirstByIdOfDistinct(pool[..|pool| - 1]);
      assert pool == pool[..|pool| - 1] + [pool[|pool| - 1]];
    }
  }

  lemma OncePerId(s: seq<Candidate>)
    requires DistinctIds(s)
    ensures forall c :: multiset(s)[c] <= 1
  {
    forall c ensures multiset(s)[c] <= 1 { CountAtMostOnce(s, c); }
  }

  lemma {:induction false} CountAtMostOnce(s: seq<Candidate>, c: Candidate)
    requires DistinctIds(s)
    ensures multiset(s)[c] <= 1
  {
    if s != [] {
      CountAtMostOnce(s[1..], c);
      assert s == [s[0]] + s[1..];
      assert s[0] !in s[1..];
    }
  }

  lemma DistinctRearranged(s: seq<Candidate>, t: seq<Candidate>)
    requires DistinctIds(s) && multiset(s) == multiset(t)
    ensures DistinctIds(t)
  {
    OncePerId(s);
    forall i, j | 0 <= i < j < |t| ensures t[i].matchId != t[j].matchId {
      assert t == t[..j] + [t[j]] + t[j + 1..];
      assert t[..j][i] == t[i];
      assert t[i] in multiset(t[..j]) && t[i] in multiset(t) && t[j] in multiset(t);
      assert t[i] in multiset(s) && t[j] in multiset(s);
      var a :| 0 <= a < |s| && s[a] == t[i];
      var b :| 0 <= b < |s| && s[b] == t[j];
      assert a != b || multiset(t)[t[j]] >= 2;
      assert a < b || b < a;
    }
  }

  lemma KeyIsTotalOrder(key: string -> string, s: seq<Candidate>)
    ensures TotalPreorderOn(ByKey(key), s)
    ensures DistinctIds(s) ==> AntisymmetricOn(ByKey(key), s)
  {
    forall a: Candidate, b: Candidate ensures KeyLeq(key, a, b) || KeyLeq(key, b, a) {
      StrLeqTotal(a.matchId, b.matchId);
      StrLeqTotal(key(a.matchId), key(b.matchId));
    }
    forall a: Candidate, b: Candidate, c: Candidate | KeyLeq(key, a, b) && KeyLeq(key, b, c) ensures KeyLeq(key, a, c) {
      KeyLeqTransitive(key, a, b, c);
    }
    if DistinctIds(s) {
      forall a, b | a in s && b in s && ByKey(key)(a, b) && ByKey(key)(b, a) ensures a == b {
        KeyLeqAntisymmetric(key, a, b);
        var i :| 0 <= i < |s| && s[i] == a;
        var j :| 0 <= j < |s| && s[j] == b;
        assert i == j || i < j || j < i;
      }
    }
  }

  lemma KeyLeqAntisymmetric(key: string -> string, a: Candidate, b: Candidate)
    requires KeyLeq(key, a, b) && KeyLeq(key, b, a)
    ensures a.matchId == b.matchId
  {
    if key(a.matchId) != key(b.matchId) {
      StrLeqAntisymmetric(key(a.matchId), key(b.matchId));
    } else {
      StrLeqAntisymmetric(a.matchId, b.matchId);
    }
  }

  lemma KeyLeqTransitive(key: string -> string, a: Candidate, b: Candidate, c: Candidate)
    requires KeyLeq(key, a, b) && KeyLeq(key, b, c)
    ensures KeyLeq(key, a, c)
  {
    var (ka, kb, kc) := (key(a.matchId), key(b.matchId), key(c.matchId));
    if ka == kb == kc {
      StrLeqTransitive(a.matchId, b.matchId, c.matchId);
    } else if ka != kb && kb != kc {
      StrLeqTransitive(ka, kb, kc);
      if ka == kc { StrLeqAntisymmetric(ka, kb); }
    }
  }

  lemma OrderedPoolIsChoice(pool: seq<Candidate>, key: string -> string)
    ensures ChosenFrom(OrderedPool(pool, key), pool)
    ensures SortedBy(ByKey(key), OrderedPool(pool, key))
  {
    var f, o := FirstById(pool), OrderedPool(pool, key);
    KeyIsTotalOrder(key, f);
    SortSorts(ByKey(key), f);
    DistinctRearranged(f, o);
    forall i | 0 <= i < |o| ensures o[i] in pool {
      assert o[i] in multiset(o) && o[i] in multiset(f);
    }
  }

  // ----- counting

  ghost function Holding(s: seq<Candidate>, p: Candidate -> bool): set<Candidate> {
    set c | c in s && p(c)
  }

  lemma {:induction false} CountIsCardinality(s: seq<Candidate>, p: Candidate -> bool)
    requires DistinctIds(s)
    ensures Count(s, p) == |Holding(s, p)|
  {
    if s != [] {
      CountIsCardinality(s[1..], p);
      assert s == [s[0]] + s[1..];
      assert s[0] !in s[1..];
      var rest := Holding(s[1..], p);
      assert Holding(s, p) == if p(s[0]) then rest + {s[0]} else rest;
    } else {
      assert Holding(s, p) == {};
    }
  }

  lemma CountMonotone(s: seq<Candidate>, t: seq<Candidate>, p: Candidate -> bool)
    requires DistinctIds(s) && DistinctIds(t)
    requires forall c :: c in s && p(c) ==> c in t
    ensures Count(s, p) <= Count(t, p)
  {
    CountIsCardinality(s, p);
    CountIsCardinality(t, p);
    assert Holding(s, p) <= Holding(t, p);
    CardinalityMonotone(Holding(s, p), Holding(t, p));
  }

  lemma {:induction false} CardinalityMonotone<T>(a: set<T>, b: set<T>)
    requires a <= b
    ensures |a| <= |b|
  {
    assert b == a + (b - a);
    assert |a + (b - a)| == |a| + |b - a|;
  }

  lemma {:induction false} SelectAppend(s: seq<Candidate>, t: seq<Candidate>, p: Candidate -> bool)
    ensures Select(s + t, p) == Select(s, p) + Select(t, p)
    ensures Count(s + t, p) == Count(s, p) + Count(t, p)
  {
    if s == [] {
      assert s + t == t;
    } else {
      assert (s + t)[0] == s[0] && (s + t)[1..] == s[1..] + t;
      SelectAppend(s[1..], t, p);
    }
  }

  lemma CountGrows(s: seq<Candidate>, t: seq<Candidate>, p: Candidate -> bool)
    requires s <= t
    ensures Count(s, p) <= Count(t, p)
  {
    var rest := t[|s|..];
    SelectAppend(s, rest, p);
    assert t == s + rest;
  }

  lemma {:induction false} SelectKeepsDistinct(s: seq<Candidate>, p: Candidate -> bool)
    requires DistinctIds(s)
    ensures DistinctIds(Select(s, p))
  {
    if s != [] {
      SelectKeepsDistinct(s[1..], p);
      forall c | c in Select(s[1..], p) ensures c.matchId != s[0].matchId {
        var k :| 0 <= k < |s[1..]| && s[1..][k] == c;
        assert s[k + 1] == c;
      }
    }
  }

  // ----- one stratum

  lemma ChosenById(selected: seq<Candidate>, ordered: seq<Candidate>, c: Candidate)
    requires ChosenFrom(selected, ordered) && DistinctIds(ordered) && c in ordered
    ensures HasId(selected, c.matchId) <==> c in selected
  {
    if HasId(selected, c.matchId) {
      var i :| 0 <= i < |selected| && selected[i].matchId == c.matchId;
      assert selected[i] in ordered;
      var j :| 0 <= j < |ordered| && ordered[j] == selected[i];
      var k :| 0 <= k < |ordered| && ordered[k] == c;
      assert j == k || j < k || k < j;
    }
  }

  lemma ChooseOneMore(selected: seq<Candidate>, ordered: seq<Candidate>, c: Candidate, p: Candidate -> bool)
    requires ChosenFrom(selected, ordered) && c in ordered && !HasId(selected, c.matchId)
    ensures ChosenFrom(selected + [c], ordered)
    ensures Count(selected + [c], p) == Count(selected, p) + if p(c) then 1 else 0
  {
    SelectAppend(selected, [c], p);
    assert [c][1..] == [];
    assert Select([c], p) == if p(c) then [c] else [];
  }

  ghost predicate ScannedUpTo(ordered: seq<Candidate>, k: nat, p: Candidate -> bool, selected: seq<Candidate>) {
    forall i :: 0 <= i < k && i < |ordered| && p(ordered[i]) ==> ordered[i] in selected
  }

  ghost predicate Reached(r: seq<Candidate>, ordered: seq<Candidate>, p: Candidate -> bool, target: int, size: nat,
                          selected: seq<Candidate>)
  {
    && ChosenFrom(r, ordered)
    && selected <= r && |r| <= size
    && Count(r, p) == Min(target, Count(selected, p) + size - |selected|)
    && |r| - |selected| == Count(r, p) - Count(selected, p)
  }

  lemma ReachedFromNext(r: seq<Candidate>, ordered: seq<Candidate>, p: Candidate -> bool, target: int, size: nat,
                        selected: seq<Candidate>, c: Candidate)
    requires Count(selected + [c], p) == Count(selected, p) + 1 <= target && |selected| < size
      && ChosenFrom(selected + [c], ordered)
    requires if Count(selected + [c], p) < target then Reached(r, ordered, p, target, size, selected + [c])
      else r == selected + [c]
    ensures Reached(r, ordered, p, target, size, selected)
  {}

  lemma ExhaustedHasAll(ordered: seq<Candidate>, p: Candidate -> bool, selected: seq<Candidate>)
    requires DistinctIds(ordered) && DistinctIds(selected) && ScannedUpTo(ordered, |ordered|, p, selected)
    ensures Count(selected, p) >= Count(ordered, p)
  {
    forall c | c in ordered && p(c) ensures c in selected {
      var i :| 0 <= i < |ordered| && ordered[i] == c;
    }
    CountMonotone(ordered, selected, p);
  }

  /** One candidate of the pass over a stratum. */
  lemma FillStratumStep(ordered: seq<Candidate>, k: nat, p: Candidate -> bool, target: int, size: nat,
                        selected: seq<Candidate>, have: int)
    requires k < |ordered| && |selected| < size
    ensures FillStratum(ordered[k..], p, target, size, selected, have) ==
      if HasId(selected, ordered[k].matchId) || !p(ordered[k])
        then FillStratum(ordered[k + 1..], p, target, size, selected, have)
      else if have + 1 >= target then selected + [ordered[k]]
      else FillStratum(ordered[k + 1..], p, target, size, selected + [ordered[k]], have + 1)
  {
    assert ordered[k..][0] == ordered[k] && ordered[k..][1..] == ordered[k + 1..];
  }

  /** What the pass over one stratum keeps and reaches: it only appends fresh members of the stratum, and ends
      with `min(target, have + room)` of them, where `room` is the number of slots left before it. */
  lemma {:induction false} StratumReach(ordered: seq<Candidate>, k: nat, p: Candidate -> bool, target: int, size: nat,
                                        selected: seq<Candidate>)
    requires DistinctIds(ordered) && ChosenFrom(selected, ordered) && k <= |ordered| && |selected| <= size
    requires Count(selected, p) < target <= Count(ordered, p)
    requires ScannedUpTo(ordered, k, p, selected)
    ensures Reached(FillStratum(ordered[k..], p, target, size, selected, Count(selected, p)), ordered, p, target, size,
                    selected)
    decreases |ordered| - k
  {
    if |selected| >= size {
    } else if k == |ordered| {
      ExhaustedHasAll(ordered, p, selected);
    } else {
      var c := ordered[k];
      FillStratumStep(ordered, k, p, target, size, selected, Count(selected, p));
      ChosenById(selected, ordered, c);
      if c in selected || !p(c) {
        StratumReach(ordered, k + 1, p, target, size, selected);
      } else {
        var next := selected + [c];
        ChooseOneMore(selected, ordered, c, p);
        if Count(next, p) < target {
          assert ScannedUpTo(ordered, k + 1, p, next) by { assert c in next; }
          StratumReach(ordered, k + 1, p, target, size, next);
        }
        ReachedFromNext(FillStratum(ordered[k..], p, target, size, selected, Count(selected, p)), ordered, p, target,
                        size, selected, c);
      }
    }
  }

  lemma {:induction false} StratumKeeps(ordered: seq<Candidate>, k: nat, p: Candidate -> bool, target: int, size: nat,
                                        selected: seq<Candidate>, have: int)
    requires ChosenFrom(selected, ordered) && k <= |ordered| && |selected| <= size
    ensures var r := FillStratum(ordered[k..], p, target, size, selected, have);
      ChosenFrom(r, ordered) && selected <= r && |r| <= size
    decreases |ordered| - k
  {
    if |selected| < size && k < |ordered| {
      var c := ordered[k];
      FillStratumStep(ordered, k, p, target, size, selected, have);
      if HasId(selected, c.matchId) || !p(c) {
        StratumKeeps(ordered, k + 1, p, target, size, selected, have);
      } else {
        ChooseOneMore(selected, ordered, c, p);
        if have + 1 < target {
          StratumKeeps(ordered, k + 1, p, target, size, selected + [c], have + 1);
        }
      }
    }
  }

  lemma {:induction false} FloorsKeep(scarcest: seq<Stratum>, ordered: seq<Candidate>, supply: map<string, int>,
                                      size: nat, selected: seq<Candidate>)
    requires ChosenFrom(selected, ordered) && |selected| <= size
    ensures var r := FillFloors(scarcest, ordered, supply, size, selected);
      ChosenFrom(r, ordered) && selected <= r && |r| <= size
  {
    if scarcest != [] {
      var s := scarcest[0];
      assert ordered[0..] == ordered;
      StratumKeeps(ordered, 0, s.holds, TargetFloor(s, supply), size, selected, Count(selected, s.holds));
      FloorsKeep(scarcest[1..], ordered, supply, size, OnePass(s, ordered, supply, size, selected));
    }
  }

  // ----- all strata

  function Demand(strata: seq<Stratum>, supply: map<string, int>): nat {
    if strata == [] then 0
    else
      (if TargetFloor(strata[0], supply) > 0 then TargetFloor(strata[0], supply) else 0)
      + Demand(strata[1..], supply)
  }

  ghost predicate SupplyIsHonest(strata: seq<Stratum>, supply: map<string, int>, ordered: seq<Candidate>) {
    forall i :: 0 <= i < |strata| ==> SupplyAt(supply, strata[i].name) == Count(ordered, strata[i].holds)
  }

  /** One pass reaches its floor exactly when there is room for what is missing. */
  lemma OnePassReaches(s: Stratum, ordered: seq<Candidate>, supply: map<string, int>, size: nat,
                       selected: seq<Candidate>)
    requires DistinctIds(ordered) && ChosenFrom(selected, ordered) && |selected| <= size
    requires SupplyAt(supply, s.name) == Count(ordered, s.holds)
    ensures var r := OnePass(s, ordered, supply, size, selected);
      var have := Count(selected, s.holds);
      && ChosenFrom(r, ordered) && selected <= r && |r| <= size
      && |r| <= |selected| + (if TargetFloor(s, supply) > 0 then TargetFloor(s, supply) else 0)
      && (Count(r, s.holds) >= TargetFloor(s, supply) <==> TargetFloor(s, supply) - have <= size - |selected|)
  {
    if Count(selected, s.holds) < TargetFloor(s, supply) {
      assert ordered[0..] == ordered;
      StratumReach(ordered, 0, s.holds, TargetFloor(s, supply), size, selected);
    }
  }

  /** If the total demand fits, every floor (as far as supply allows) is met at the end. */
  lemma {:induction false} FloorsReach(scarcest: seq<Stratum>, ordered: seq<Candidate>, supply: map<string, int>,
                                       size: nat, selected: seq<Candidate>)
    requires DistinctIds(ordered) && ChosenFrom(selected, ordered)
    requires SupplyIsHonest(scarcest, supply, ordered)
    requires |selected| + Demand(scarcest, supply) <= size
    ensures forall i :: 0 <= i < |scarcest| ==>
      Count(FillFloors(scarcest, ordered, supply, size, selected), scarcest[i].holds) >= TargetFloor(scarcest[i],
          supply)
  {
    if scarcest != [] {
      var s := scarcest[0];
      var next := OnePass(s, ordered, supply, size, selected);
      OnePassReaches(s, ordered, supply, size, selected);
      FloorsReach(scarcest[1..], ordered, supply, size, next);
      var r := FillFloors(scarcest, ordered, supply, size, selected);
      FloorsKeep(scarcest[1..], ordered, supply, size, next);
      CountGrows(next, r, s.holds);
      forall i | 0 <= i < |scarcest| ensures Count(r, scarcest[i].holds) >= TargetFloor(scarcest[i], supply) {
        if i > 0 { assert scarcest[1..][i - 1] == scarcest[i]; }
      }
    }
  }

  lemma {:induction false} DemandInsert(leq: (Stratum, Stratum) -> bool, x: Stratum, s: seq<Stratum>,
                                        supply: map<string, int>)
    ensures Demand(Insert(leq, x, s), supply) == Demand([x], supply) + Demand(s, supply)
  {
    if s != [] && !leq(x, s[0]) { DemandInsert(leq, x, s[1..], supply); }
  }

  lemma {:induction false} DemandSort(leq: (Stratum, Stratum) -> bool, s: seq<Stratum>, supply: map<string, int>)
    ensures Demand(Sort(leq, s), supply) == Demand(s, supply)
  {
    if s != [] {
      DemandSort(leq, s[1..], supply);
      DemandInsert(leq, s[0], Sort(leq, s[1..]), supply);
    }
  }

  ghost predicate DistinctNames(strata: seq<Stratum>) {
    forall i, j :: 0 <= i < j < |strata| ==> strata[i].name != strata[j].name
  }

  lemma {:induction false} SupplyOfIsCount(strata: seq<Stratum>, ordered: seq<Candidate>, i: nat)
    requires DistinctNames(strata) && i < |strata|
    ensures strata[i].name in SupplyOf(strata, ordered)
    ensures SupplyOf(strata, ordered)[strata[i].name] == Count(ordered, strata[i].holds)
  {
    var t := strata[..|strata| - 1];
    if i < |t| {
      SupplyOfIsCount(t, ordered, i);
      assert t[i] == strata[i];
    }
  }

  lemma {:induction false} SupplyOfKeys(strata: seq<Stratum>, ordered: seq<Candidate>, name: string)
    ensures name in SupplyOf(strata, ordered) <==> exists i :: 0 <= i < |strata| && strata[i].name == name
  {
    if strata != [] {
      var t := strata[..|strata| - 1];
      SupplyOfKeys(t, ordered, name);
      if i :| 0 <= i < |t| && t[i].name == name { assert strata[i].name == name; }
      if i :| 0 <= i < |strata| && strata[i].name == name { assert i == |t| || t[i].name == name; }
    }
  }

  // ----- the remainder

  lemma {:induction false} DomainKeys(s: seq<Candidate>)
    ensures MixOf(s).sizes.Keys == set d | d in Domains(s)
    ensures forall d :: d !in Domains(s) ==> Members(s, d) == []
  {
    if s != [] { DomainKeys(s[..|s| - 1]); }
  }

  ghost function Sizes(s: seq<Candidate>, ds: seq<string>): map<string, int> {
    map d | d in ds :: |Members(s, d)|
  }

  /** Grouping by domain loses and duplicates nobody. */
  lemma {:induction false} SizesSum(s: seq<Candidate>)
    ensures Sum(Domains(s), Sizes(s, Domains(s))) == |s|
  {
    if s != [] {
      var t, c := s[..|s| - 1], s[|s| - 1];
      var ds, es := Domains(t), Domains(s);
      SizesSum(t);
      DomainKeys(t);
      assert forall i :: 0 <= i < |ds| ==> ds[i] in ds;
      if c.domain in ds {
        SumBump(ds, Sizes(t, ds), Sizes(s, ds), c.domain);
      } else {
        SumPointwise(ds, Sizes(t, ds), Sizes(s, es));
        SumAppend(ds, [c.domain], Sizes(s, es));
        NewDomain(s);
      }
    }
  }

  lemma NewDomain(s: seq<Candidate>)
    requires s != [] && s[|s| - 1].domain !in Domains(s[..|s| - 1])
    ensures Sum([s[|s| - 1].domain], Sizes(s, Domains(s))) == 1
  {
    var d := s[|s| - 1].domain;
    FirstMember(s);
    assert d in Sizes(s, Domains(s)) && Sizes(s, Domains(s))[d] == |Members(s, d)|;
    SumOne(d, Sizes(s, Domains(s)));
  }

  lemma FirstMember(s: seq<Candidate>)
    requires s != [] && s[|s| - 1].domain !in Domains(s[..|s| - 1])
    ensures |Members(s, s[|s| - 1].domain)| == 1 && s[|s| - 1].domain in Domains(s)
  {
    DomainKeys(s[..|s| - 1]);
    assert Members(s[..|s| - 1], s[|s| - 1].domain) == [];
  }

  lemma SumOne(d: string, f: map<string, int>)
    requires d in f
    ensures Sum([d], f) == f[d]
  {
    assert [d][1..] == [];
  }

  lemma MembersPartition(s: seq<Candidate>)
    requires s != []
    ensures MixOf(s).Valid()
  {
    DomainKeys(s);
    SizesSum(s);
    assert MixOf(s).sizes == Sizes(s, Domains(s));
  }

  lemma {:induction false} MembersDistinct(s: seq<Candidate>, d: string)
    requires DistinctIds(s)
    ensures DistinctIds(Members(s, d))
  {
    if s != [] {
      var t := s[..|s| - 1];
      MembersDistinct(t, d);
      forall c | c in Members(t, d) ensures c.matchId != s[|s| - 1].matchId {
        assert c in t;
        var k :| 0 <= k < |t| && t[k] == c;
        assert s[k] == c;
      }
    }
  }

  ghost predicate Fits(s: seq<Candidate>, ds: seq<string>, allotted: map<string, int>) {
    forall i :: 0 <= i < |ds| ==> ds[i] in allotted && 0 <= allotted[ds[i]] <= |Members(s, ds[i])|
  }

  lemma {:induction false} PicksAreFresh(s: seq<Candidate>, ds: seq<string>, allotted: map<string, int>)
    requires DistinctIds(s) && Fits(s, ds, allotted)
    requires forall i, j :: 0 <= i < j < |ds| ==> ds[i] != ds[j]
    ensures |Picks(s, ds, allotted)| == Sum(ds, allotted)
    ensures ChosenFrom(Picks(s, ds, allotted), s)
    ensures forall c :: c in Picks(s, ds, allotted) ==> c.domain in ds
  {
    if ds != [] {
      var d, m := ds[0], Members(s, ds[0])[..allotted[ds[0]]];
      var rest, r := Picks(s, ds[1..], allotted), Picks(s, ds, allotted);
      PicksAreFresh(s, ds[1..], allotted);
      MembersDistinct(s, d);
      assert r == m + rest;
      forall c | c in m ensures c in s && c.domain == d { assert c in Members(s, d); }
      forall c | c in r ensures c in s && c.domain in ds { assert c in m || c in rest; }
      forall i, j | 0 <= i < j < |r| ensures r[i].matchId != r[j].matchId {
        if i < |m| <= j {
          assert r[i] in m && r[j] in rest;
          assert r[j].domain != d;
          var a :| 0 <= a < |s| && s[a] == r[i];
          var b :| 0 <= b < |s| && s[b] == r[j];
          assert a < b || b < a;
        }
      }
    }
  }

  lemma UnselectedIsTheRest(ordered: seq<Candidate>, selected: seq<Candidate>)
    requires DistinctIds(ordered) && ChosenFrom(selected, ordered)
    ensures DistinctIds(Unselected(ordered, selected))
    ensures |Unselected(ordered, selected)| == |ordered| - |selected|
  {
    var p, all := NotIn(selected), (c: Candidate) => true;
    SelectKeepsDistinct(ordered, p);
    CountIsCardinality(ordered, p);
    CountIsCardinality(ordered, all);
    CountIsCardinality(selected, all);
    SelectAll(ordered, all);
    SelectAll(selected, all);
    HoldingRest(ordered, selected, all);
  }

  lemma HoldingRest(ordered: seq<Candidate>, selected: seq<Candidate>, all: Candidate -> bool)
    requires DistinctIds(ordered) && ChosenFrom(selected, ordered) && forall c :: all(c)
    ensures |Holding(ordered, NotIn(selected))| == |Holding(ordered, all)| - |Holding(selected, all)|
  {
    forall c | c in ordered ensures NotIn(selected)(c) <==> c !in selected { ChosenById(selected, ordered, c); }
    assert Holding(ordered, NotIn(selected)) == Holding(ordered, all) - Holding(selected, all);
    assert Holding(selected, all) <= Holding(ordered, all);
  }

  lemma {:induction false} SelectAll(s: seq<Candidate>, p: Candidate -> bool)
    requires forall c :: p(c)
    ensures Select(s, p) == s
  {
    if s != [] {
      SelectAll(s[1..], p);
    }
  }

  /** The remainder is filled exactly, with fresh candidates, and without the final slice. */
  lemma FillIsExact(ordered: seq<Candidate>, selected: seq<Candidate>, remaining: nat)
    requires DistinctIds(ordered) && ChosenFrom(selected, ordered)
    requires |selected| + remaining <= |ordered|
    ensures var s := Unselected(ordered, selected);
      && |Fill(ordered, selected, remaining)| == remaining
      && ChosenFrom(Fill(ordered, selected, remaining), s)
      && (remaining > 0 ==>
            MixOf(s).Valid() && remaining <= MixOf(s).total
            && Fill(ordered, selected, remaining) == Picks(s, Domains(s), Allotment(MixOf(s), remaining)))
  {
    UnselectedIsTheRest(ordered, selected);
    var s := Unselected(ordered, selected);
    if remaining > 0 {
      var m := MixOf(s);
      MembersPartition(s);
      forall i | 0 <= i < |m.domains|
        ensures m.domains[i] in m.sizes && 0 <= Allotment(m, remaining)[m.domains[i]] <= |Members(s, m.domains[i])|
      {
        assert m.domains[i] in m.domains;
        AllotmentInRange(m, remaining, m.domains[i]);
      }
      AllotmentSumsToRemaining(m, remaining);
      PicksAreFresh(s, m.domains, Allotment(m, remaining));
    }
  }
}
