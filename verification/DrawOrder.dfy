/**
 Who is drawn first by the draw of scripts/run_gate_d_canary.py: between two
 candidates that nothing but their keys tells apart, the earlier one; and how
 the last slots are spread over the domains.
 */
module DrawOrder {
  import opened Ordering
  import opened Apportionment
  import opened StratifiedSampler
  import opened SampleDraw

  /** The candidate stands at `i`, and no other of its id stands before it. */
  ghost predicate IsFirstAt(pool: seq<Candidate>, c: Candidate, i: int) {
    0 <= i < |pool| && pool[i] == c && forall j :: 0 <= j < i ==> pool[j].matchId != c.matchId
  }

  lemma FirstOfLonger(t: seq<Candidate>, last: Candidate, c: Candidate)
    ensures (exists i :: IsFirstAt(t + [last], c, i)) <==>
      (exists i :: IsFirstAt(t, c, i)) || (c == last && !HasId(t, c.matchId))
  {
    if i :| IsFirstAt(t, c, i) { assert IsFirstAt(t + [last], c, i); }
    if c == last && !HasId(t, c.matchId) { assert IsFirstAt(t + [last], c, |t|); }
    if i :| IsFirstAt(t + [last], c, i) {
      assert forall j :: 0 <= j < i ==> t[j] == (t + [last])[j];
      if i < |t| { assert IsFirstAt(t, c, i); }
    }
  }

  /** The pool is cut down to the first candidate of each id, as `setdefault` leaves it. */
  lemma {:induction false} FirstByIdExactly(pool: seq<Candidate>, c: Candidate)
    ensures c in FirstById(pool) <==> exists i :: IsFirstAt(pool, c, i)
  {
    if pool != [] {
      var t, last := pool[..|pool| - 1], pool[|pool| - 1];
      FirstByIdExactly(t, c);
      FirstByIdKeepsIds(t, last.matchId);
      FirstOfLonger(t, last, c);
      assert t + [last] == pool;
    }
  }

  /** `c` comes before `d` in the drawing order: the smaller key, or the smaller id under one key. */
  predicate Precedes(key: string -> string, c: Candidate, d: Candidate) {
    var (kc, kd) := (key(c.matchId), key(d.matchId));
    || (kc != kd && StrLeq(kc, kd))
    || (kc == kd && c.matchId != d.matchId && StrLeq(c.matchId, d.matchId))
  }

  lemma SortedPrecedes(s: seq<Candidate>, key: string -> string)
    requires DistinctIds(s) && SortedBy(ByKey(key), s)
    ensures forall i, j :: 0 <= i < j < |s| ==> Precedes(key, s[i], s[j])
  {
    forall i, j | 0 <= i < j < |s| ensures Precedes(key, s[i], s[j]) {
      assert ByKey(key)(s[i], s[j]);
    }
  }

  lemma PrecedesOneWay(key: string -> string, c: Candidate, d: Candidate)
    requires Precedes(key, c, d)
    ensures !Precedes(key, d, c) && c.matchId != d.matchId
  {
    if Precedes(key, d, c) {
      if key(c.matchId) != key(d.matchId) {
        StrLeqAntisymmetric(key(c.matchId), key(d.matchId));
      } else {
        StrLeqAntisymmetric(c.matchId, d.matchId);
      }
    }
  }

  lemma PrecedesByIndex(s: seq<Candidate>, key: string -> string, i: nat, j: nat)
    requires DistinctIds(s) && SortedBy(ByKey(key), s) && i < |s| && j < |s| && Precedes(key, s[i], s[j])
    ensures i < j
  {
    PrecedesOneWay(key, s[i], s[j]);
    SortedPrecedes(s, key);
  }

  /** Nothing the draw looks at tells them apart but their ids. */
  ghost predicate Twins(c: Candidate, d: Candidate, strata: seq<Stratum>) {
    && c.domain == d.domain && c.labeledStech == d.labeledStech
    && forall s :: s in strata ==> s.holds(c) == s.holds(d)
  }

  /** With any candidate every earlier twin of it is taken. */
  ghost predicate TakesTwins(sel: seq<Candidate>, ordered: seq<Candidate>, strata: seq<Stratum>) {
    forall i, j :: 0 <= i < j < |ordered| && ordered[j] in sel && Twins(ordered[i], ordered[j], strata) ==>
      ordered[i] in sel
  }

  // ----- the labelled targets

  lemma SelectAround(s: seq<Candidate>, p: Candidate -> bool, i: nat)
    requires i < |s| && p(s[i])
    ensures Select(s, p) == Select(s[..i], p) + ([s[i]] + Select(s[i + 1..], p))
  {
    assert s == s[..i] + s[i..];
    assert s[i..][1..] == s[i + 1..];
    SelectAppend(s[..i], s[i..], p);
  }

  lemma SelectFromFront(s: seq<Candidate>, p: Candidate -> bool, n: nat, i: nat, j: nat)
    requires DistinctIds(s) && n <= |Select(s, p)| && i < j < |s|
    requires s[j] in Select(s, p)[..n] && p(s[i])
    ensures s[i] in Select(s, p)[..n]
  {
    var a, b := Select(s[..i], p), Select(s[i + 1..], p);
    SelectAround(s, p, i);
    assert s[j] !in s[..i];
    assert s[j] !in a[..if n <= |a| then n else 0];
    assert n > |a| && Select(s, p)[..n][|a|] == s[i];
  }

  lemma MandatoryTakesTwins(ordered: seq<Candidate>, size: nat, strata: seq<Stratum>)
    requires DistinctIds(ordered)
    ensures TakesTwins(Mandatory(ordered, size), ordered, strata)
  {
    var m := Select(ordered, Labeled());
    var n := if |m| <= size then |m| else size;
    assert m[..|m|] == m;
    forall i, j | 0 <= i < j < |ordered| && ordered[j] in m[..n] && Twins(ordered[i], ordered[j], strata)
      ensures ordered[i] in m[..n]
    {
      assert ordered[j] in m;
      assert Labeled()(ordered[j]) && Labeled()(ordered[i]);
      SelectFromFront(ordered, Labeled(), n, i, j);
    }
  }

  // ----- the floors

  lemma PickTakesTwins(ordered: seq<Candidate>, k: nat, s: Stratum, selected: seq<Candidate>, strata: seq<Stratum>)
    requires DistinctIds(ordered) && k < |ordered| && s in strata && s.holds(ordered[k])
    requires ScannedUpTo(ordered, k, s.holds, selected) && TakesTwins(selected, ordered, strata)
    ensures TakesTwins(selected + [ordered[k]], ordered, strata)
    ensures ScannedUpTo(ordered, k + 1, s.holds, selected + [ordered[k]])
  {
    var next := selected + [ordered[k]];
    forall i, j | 0 <= i < j < |ordered| && ordered[j] in next && Twins(ordered[i], ordered[j], strata)
      ensures ordered[i] in next
    {
      if ordered[j] !in selected {
        assert ordered[j].matchId == ordered[k].matchId;
        assert j == k;
        assert s.holds(ordered[i]);
      }
    }
  }

  lemma {:induction false} StratumTakesTwins(ordered: seq<Candidate>, k: nat, s: Stratum, target: int, size: nat,
                                             selected: seq<Candidate>, have: int, strata: seq<Stratum>)
    requires DistinctIds(ordered) && ChosenFrom(selected, ordered) && k <= |ordered| && s in strata
    requires ScannedUpTo(ordered, k, s.holds, selected) && TakesTwins(selected, ordered, strata)
    ensures TakesTwins(FillStratum(ordered[k..], s.holds, target, size, selected, have), ordered, strata)
    decreases |ordered| - k
  {
    if |selected| < size && k < |ordered| {
      var c := ordered[k];
      FillStratumStep(ordered, k, s.holds, target, size, selected, have);
      ChosenById(selected, ordered, c);
      if c in selected || !s.holds(c) {
        StratumTakesTwins(ordered, k + 1, s, target, size, selected, have, strata);
      } else {
        PickTakesTwins(ordered, k, s, selected, strata);
        ChooseOneMore(selected, ordered, c, s.holds);
        if have + 1 < target {
          StratumTakesTwins(ordered, k + 1, s, target, size, selected + [c], have + 1, strata);
        }
      }
    }
  }

  lemma {:induction false} FloorsTakeTwins(scarcest: seq<Stratum>, ordered: seq<Candidate>, supply: map<string, int>,
                                           size: nat, selected: seq<Candidate>, strata: seq<Stratum>)
    requires DistinctIds(ordered) && ChosenFrom(selected, ordered) && |selected| <= size
    requires TakesTwins(selected, ordered, strata) && forall s :: s in scarcest ==> s in strata
    ensures TakesTwins(FillFloors(scarcest, ordered, supply, size, selected), ordered, strata)
  {
    if scarcest != [] {
      var s := scarcest[0];
      assert ordered[0..] == ordered;
      StratumKeeps(ordered, 0, s.holds, TargetFloor(s, supply), size, selected, Count(selected, s.holds));
      StratumTakesTwins(ordered, 0, s, TargetFloor(s, supply), size, selected, Count(selected, s.holds), strata);
      FloorsTakeTwins(scarcest[1..], ordered, supply, size, OnePass(s, ordered, supply, size, selected), strata);
    }
  }

  // ----- the remainder

  lemma SelectKeepsOrder(s: seq<Candidate>, p: Candidate -> bool, i: nat, j: nat) returns (a: nat, b: nat)
    requires i < j < |s| && p(s[i]) && p(s[j])
    ensures a < b < |Select(s, p)| && Select(s, p)[a] == s[i] && Select(s, p)[b] == s[j]
  {
    var rest := s[i + 1..];
    SelectAround(s, p, i);
    assert rest[j - i - 1] == s[j];
    var y := SelectedAt(rest, p, s[j]);
    a := |Select(s[..i], p)|;
    b := a + 1 + y;
    AroundAt(Select(s[..i], p), s[i], Select(rest, p), y);
  }

  lemma SelectedAt(s: seq<Candidate>, p: Candidate -> bool, c: Candidate) returns (b: nat)
    requires c in s && p(c)
    ensures b < |Select(s, p)| && Select(s, p)[b] == c
  {
    b :| 0 <= b < |Select(s, p)| && Select(s, p)[b] == c;
  }

  lemma AroundAt(a: seq<Candidate>, c: Candidate, b: seq<Candidate>, y: nat)
    requires y < |b|
    ensures var all := a + ([c] + b);
      |a| + 1 + y < |all| && all[|a|] == c && all[|a| + 1 + y] == b[y]
  {}

  lemma {:induction false} MembersFromFront(s: seq<Candidate>, d: string, n: nat, a: nat, b: nat)
    requires DistinctIds(s) && n <= |Members(s, d)| && a < b < |s|
    requires s[b] in Members(s, d)[..n] && s[a].domain == d
    ensures s[a] in Members(s, d)[..n]
  {
    var init, last := s[..|s| - 1], s[|s| - 1];
    var before := Members(init, d);
    assert init[a] == s[a];
    AllMembers(init, d, a);
    if b < |init| {
      assert init[b] == s[b] && s[b] != last;
      if n <= |before| {
        assert Members(s, d)[..n] == before[..n];
        MembersFromFront(init, d, n, a, b);
      } else {
        assert Members(s, d)[..n] == before + [last];
      }
    } else {
      assert last !in init;
      assert last !in before[..if n <= |before| then n else 0];
      assert Members(s, d)[..n] == before + [last];
    }
  }

  lemma {:induction false} AllMembers(s: seq<Candidate>, d: string, a: nat)
    requires a < |s| && s[a].domain == d
    ensures s[a] in Members(s, d)
  {
    if a < |s| - 1 { AllMembers(s[..|s| - 1], d, a); }
  }

  lemma {:induction false} PicksAre(s: seq<Candidate>, ds: seq<string>, allotted: map<string, int>, c: Candidate)
    requires Fits(s, ds, allotted) && forall i, j :: 0 <= i < j < |ds| ==> ds[i] != ds[j]
    ensures c in Picks(s, ds, allotted) <==>
      c.domain in ds && c.domain in allotted && 0 <= allotted[c.domain] <= |Members(s, c.domain)|
      && c in Members(s, c.domain)[..allotted[c.domain]]
  {
    if ds != [] {
      PicksAre(s, ds[1..], allotted, c);
      var m := Members(s, ds[0])[..allotted[ds[0]]];
      assert Picks(s, ds, allotted) == m + Picks(s, ds[1..], allotted);
      if c in m { assert c in Members(s, ds[0]); }
      assert c.domain in ds <==> c.domain == ds[0] || c.domain in ds[1..];
      assert ds[0] !in ds[1..];
    }
  }

  lemma UnionTakesTwins(ordered: seq<Candidate>, floors: seq<Candidate>, fill: seq<Candidate>, strata: seq<Stratum>)
    requires TakesTwins(floors, ordered, strata)
    requires forall i, j :: 0 <= i < j < |ordered| && ordered[i].domain == ordered[j].domain ==>
      (ordered[i] !in floors && ordered[j] in fill ==> ordered[i] in fill)
    ensures TakesTwins(floors + fill, ordered, strata)
  {}

  lemma FillTakesTwins(ordered: seq<Candidate>, floors: seq<Candidate>, size: nat, strata: seq<Stratum>)
    requires DistinctIds(ordered) && ChosenFrom(floors, ordered) && |floors| <= size <= |ordered|
    requires TakesTwins(floors, ordered, strata)
    ensures TakesTwins(Topped(ordered, floors, size), ordered, strata)
  {
    var remaining: nat := size - |floors|;
    forall i, j | 0 <= i < j < |ordered| && ordered[i].domain == ordered[j].domain
      ensures ordered[i] !in floors && ordered[j] in Fill(ordered, floors, remaining) ==>
        ordered[i] in Fill(ordered, floors, remaining)
    {
      if ordered[i] !in floors && ordered[j] in Fill(ordered, floors, remaining) {
        FilledFromFront(ordered, floors, remaining, i, j);
      }
    }
    UnionTakesTwins(ordered, floors, Fill(ordered, floors, remaining), strata);
  }

  lemma FilledFromFront(ordered: seq<Candidate>, floors: seq<Candidate>, remaining: nat, i: nat, j: nat)
    requires DistinctIds(ordered) && ChosenFrom(floors, ordered) && |floors| + remaining <= |ordered|
    requires i < j < |ordered| && ordered[i].domain == ordered[j].domain
    requires ordered[i] !in floors && ordered[j] in Fill(ordered, floors, remaining)
    ensures ordered[i] in Fill(ordered, floors, remaining)
  {
    var s, p := Unselected(ordered, floors), NotIn(floors);
    var d := ordered[j].domain;
    FillIsExact(ordered, floors, remaining);
    UnselectedIsTheRest(ordered, floors);
    ChosenById(floors, ordered, ordered[i]);
    var k :| 0 <= k < |Fill(ordered, floors, remaining)| && Fill(ordered, floors, remaining)[k] == ordered[j];
    assert ordered[j] in s;
    var a, b := SelectKeepsOrder(ordered, p, i, j);
    var allotted := Allotment(MixOf(s), remaining);
    FitsTheMix(s, remaining);
    PicksAre(s, Domains(s), allotted, ordered[j]);
    PicksAre(s, Domains(s), allotted, ordered[i]);
    MembersFromFront(s, d, allotted[d], a, b);
  }

  lemma FitsTheMix(s: seq<Candidate>, remaining: nat)
    requires s != [] && remaining <= |s|
    ensures MixOf(s).Valid() && Fits(s, Domains(s), Allotment(MixOf(s), remaining))
  {
    MembersPartition(s);
    forall d | d in MixOf(s).sizes
      ensures 0 <= Allotment(MixOf(s), remaining)[d] <= MixOf(s).sizes[d]
    {
      AllotmentInRange(MixOf(s), remaining, d);
    }
    InRangeFits(s, MixOf(s), Allotment(MixOf(s), remaining));
  }

  lemma InRangeFits(s: seq<Candidate>, m: Mix, allotted: map<string, int>)
    requires m == MixOf(s) && allotted.Keys == m.sizes.Keys
    requires forall d :: d in m.sizes ==> 0 <= allotted[d] <= m.sizes[d]
    ensures Fits(s, Domains(s), allotted)
  {
    forall i | 0 <= i < |Domains(s)|
      ensures Domains(s)[i] in allotted && 0 <= allotted[Domains(s)[i]] <= |Members(s, Domains(s)[i])|
    {
      assert Domains(s)[i] in m.sizes;
    }
  }

  // ----- shares of the remainder

  lemma {:induction false} MembersAppend(a: seq<Candidate>, b: seq<Candidate>, d: string)
    ensures Members(a + b, d) == Members(a, d) + Members(b, d)
  {
    if b == [] {
      assert a + b == a;
    } else {
      var init := b[..|b| - 1];
      assert (a + b)[..|a + b| - 1] == a + init;
      MembersAppend(a, init, d);
      assert Members(a, d) + Members(b, d) == Members(a, d) + Members(init, d) + Members(b, d)[|Members(init, d)|..];
    }
  }

  lemma {:induction false} MembersOfOneDomain(s: seq<Candidate>, e: string, d: string)
    requires forall c :: c in s ==> c.domain == e
    ensures Members(s, d) == if d == e then s else []
  {
    if s != [] {
      assert s[|s| - 1] in s && s == s[..|s| - 1] + [s[|s| - 1]];
      MembersOfOneDomain(s[..|s| - 1], e, d);
    }
  }

  lemma {:induction false} PickedPerDomain(s: seq<Candidate>, ds: seq<string>, allotted: map<string, int>, d: string)
    requires Fits(s, ds, allotted) && forall i, j :: 0 <= i < j < |ds| ==> ds[i] != ds[j]
    ensures |Members(Picks(s, ds, allotted), d)| == if d in ds then allotted[d] else 0
  {
    if ds != [] {
      var e, m := ds[0], Members(s, ds[0])[..allotted[ds[0]]];
      var rest := Picks(s, ds[1..], allotted);
      PickedPerDomain(s, ds[1..], allotted, d);
      assert Picks(s, ds, allotted) == m + rest;
      MembersAppend(m, rest, d);
      forall c | c in m ensures c.domain == e { assert c in Members(s, e); }
      MembersOfOneDomain(m, e, d);
      assert d in ds <==> d == e || d in ds[1..];
      assert e !in ds[1..];
    }
  }

  lemma FilledIsAllotted(ordered: seq<Candidate>, floors: seq<Candidate>, remaining: nat, d: string)
    requires DistinctIds(ordered) && ChosenFrom(floors, ordered) && 0 < remaining && |floors| + remaining <= |ordered|
    ensures var s := Unselected(ordered, floors);
      && MixOf(s).Valid() && MixOf(s).total == |s| >= remaining
      && (d !in MixOf(s).sizes ==> Members(s, d) == [] && Members(Fill(ordered, floors, remaining), d) == [])
      && (d in MixOf(s).sizes ==>
            MixOf(s).sizes[d] == |Members(s, d)|
            && |Members(Fill(ordered, floors, remaining), d)| == Allotment(MixOf(s), remaining)[d])
  {
    var s := Unselected(ordered, floors);
    FillIsExact(ordered, floors, remaining);
    FitsTheMix(s, remaining);
    DomainKeys(s);
    PickedPerDomain(s, Domains(s), Allotment(MixOf(s), remaining), d);
  }

  /** Every domain fills its share of the slots left, rounded up or down. */
  lemma FillIsProportional(ordered: seq<Candidate>, floors: seq<Candidate>, remaining: nat, d: string)
    requires DistinctIds(ordered) && ChosenFrom(floors, ordered) && 0 < remaining && |floors| + remaining <= |ordered|
    ensures var s := Unselected(ordered, floors);
      var (have, filled) := (|Members(s, d)|, |Members(Fill(ordered, floors, remaining), d)|);
      remaining * have - |s| < |s| * filled < remaining * have + |s|
  {
    var s := Unselected(ordered, floors);
    FilledIsAllotted(ordered, floors, remaining, d);
    assert |s| * 0 == 0 && remaining * 0 == 0;
    if d in MixOf(s).sizes { ShareIsRounded(MixOf(s), remaining, d); }
  }

  lemma ShareIsRounded(m: Mix, r: nat, d: string)
    requires m.Valid() && r <= m.total && d in m.sizes
    ensures r * m.sizes[d] - m.total < m.total * Allotment(m, r)[d] < r * m.sizes[d] + m.total
  {
    AllotmentObeysQuota(m, r, d);
    RoundedShare(r, m.sizes[d], m.total, Allotment(m, r)[d]);
  }

  lemma RoundedShare(r: nat, n: nat, t: nat, a: int)
    requires t > 0 && Whole(r, n, t) <= a <= Whole(r, n, t) + if Part(r, n, t) > 0 then 1 else 0
    ensures r * n - t < t * a < r * n + t
    ensures t * a > r * n ==> a > Whole(r, n, t)
    ensures t * a < r * n ==> a == Whole(r, n, t)
  {
    var w, f := Whole(r, n, t), Part(r, n, t);
    assert r * n == t * w + f && 0 <= f < t;
    if a == w + 1 { assert t * a == t * w + t; }
  }

  /** The slots that rounding leaves go to the largest remainders: who was rounded up has no smaller one than who was
      rounded down. */
  lemma LargestRemaindersFirst(ordered: seq<Candidate>, floors: seq<Candidate>, remaining: nat, d: string, e: string)
    requires DistinctIds(ordered) && ChosenFrom(floors, ordered) && 0 < remaining && |floors| + remaining <= |ordered|
    requires var (s, fill) := (Unselected(ordered, floors), Fill(ordered, floors, remaining));
      && |s| * |Members(fill, d)| > remaining * |Members(s, d)|
      && |s| * |Members(fill, e)| < remaining * |Members(s, e)|
    ensures var s := Unselected(ordered, floors);
      |s| > 0 && remaining * |Members(s, d)| % |s| >= remaining * |Members(s, e)| % |s|
  {
    var s := Unselected(ordered, floors);
    FilledIsAllotted(ordered, floors, remaining, d);
    FilledIsAllotted(ordered, floors, remaining, e);
    assert |s| * 0 == 0 && remaining * 0 == 0;
    LargerRemainder(MixOf(s), remaining, d, e);
  }

  lemma LargerRemainder(m: Mix, r: nat, d: string, e: string)
    requires m.Valid() && r <= m.total && d in m.sizes && e in m.sizes
    requires m.total * Allotment(m, r)[d] > r * m.sizes[d] && m.total * Allotment(m, r)[e] < r * m.sizes[e]
    ensures r * m.sizes[d] % m.total >= r * m.sizes[e] % m.total
  {
    AllotmentObeysQuota(m, r, d);
    AllotmentObeysQuota(m, r, e);
    RoundedShare(r, m.sizes[d], m.total, Allotment(m, r)[d]);
    RoundedShare(r, m.sizes[e], m.total, Allotment(m, r)[e]);
    ExtrasToLargestFractions(m, r, d, e);
  }

  // ----- the whole draw

  lemma SelectionTakesTwins(ordered: seq<Candidate>, size: nat, strata: seq<Stratum>)
    requires DistinctIds(ordered) && size <= |ordered|
    ensures TakesTwins(Selected(ordered, size, strata), ordered, strata)
  {
    var supply := SupplyOf(strata, ordered);
    var scarcest, m := Sort(ByScarcity(supply), strata), Mandatory(ordered, size);
    MandatoryIsChoice(ordered, size);
    MandatoryTakesTwins(ordered, size, strata);
    SameElements(scarcest, strata);
    FloorsKeep(scarcest, ordered, supply, size, m);
    FloorsTakeTwins(scarcest, ordered, supply, size, m, strata);
    FillTakesTwins(ordered, FillFloors(scarcest, ordered, supply, size, m), size, strata);
  }

  /** Between two candidates of one domain that fall in the same strata and are labelled alike, the draw takes the one
      with the smaller key, or the smaller id under one key, first. */
  lemma EarlierTwinFirst(pool: seq<Candidate>, size: int, key: string -> string, strata: seq<Stratum>, c: Candidate,
                         d: Candidate)
    requires DrawSample(pool, size, key, strata).Drawn?
    requires d in DrawSample(pool, size, key, strata).result.targets
    requires c in FirstById(pool) && Twins(c, d, strata) && Precedes(key, c, d)
    ensures c in DrawSample(pool, size, key, strata).result.targets
  {
    DrawnIsSampleOf(pool, size, key, strata);
    OrderedPoolIsChoice(pool, key);
    Rearranged(FirstById(pool), OrderedPool(pool, key), c);
    TwinOfOrdered(OrderedPool(pool, key), size, key, strata, c, d);
  }

  lemma TwinOfOrdered(ordered: seq<Candidate>, size: nat, key: string -> string, strata: seq<Stratum>, c: Candidate,
                      d: Candidate)
    requires DistinctIds(ordered) && SortedBy(ByKey(key), ordered) && size <= |ordered|
    requires d in SampleOf(ordered, size, key, strata).targets
    requires c in ordered && Twins(c, d, strata) && Precedes(key, c, d)
    ensures c in SampleOf(ordered, size, key, strata).targets
  {
    var s := Selected(ordered, size, strata);
    SelectionIsExact(ordered, size, strata);
    SortedSelection(s, ordered, key);
    SelectionTakesTwins(ordered, size, strata);
    ChosenAreMembers(s, ordered, d);
    var i :| 0 <= i < |ordered| && ordered[i] == c;
    var j :| 0 <= j < |ordered| && ordered[j] == d;
    PrecedesByIndex(ordered, key, i, j);
  }

  /** The targets come in the drawing order. */
  lemma TargetsInOrder(pool: seq<Candidate>, size: int, key: string -> string, strata: seq<Stratum>, i: nat, j: nat)
    requires DrawSample(pool, size, key, strata).Drawn?
    requires i < j < |DrawSample(pool, size, key, strata).result.targets|
    ensures var t := DrawSample(pool, size, key, strata).result.targets; Precedes(key, t[i], t[j])
  {
    DrawIsLegal(pool, size, key, strata);
    SortedPrecedes(DrawSample(pool, size, key, strata).result.targets, key);
  }

  /** The reported counts are those of the pool's distinct candidates, all of them and the labelled ones. */
  lemma ReportedCounts(pool: seq<Candidate>, size: int, key: string -> string, strata: seq<Stratum>)
    requires DrawSample(pool, size, key, strata).Drawn?
    ensures var r := DrawSample(pool, size, key, strata).result;
      && r.poolSize == |FirstById(pool)|
      && r.mandatoryCount == |set c | c in FirstById(pool) && c.labeledStech|
  {
    DrawnIsSampleOf(pool, size, key, strata);
    SameCount(FirstById(pool), OrderedPool(pool, key), Labeled());
    CountIsCardinality(FirstById(pool), Labeled());
    assert Holding(FirstById(pool), Labeled()) == set c | c in FirstById(pool) && c.labeledStech;
  }
}
