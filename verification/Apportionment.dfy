/**
 `_proportional_fill` of scripts/run_gate_d_canary.py: largest-remainder
 apportionment of the leftover sample slots over the domains of the pool.
 Quotas are exact rationals `remaining * members / total`, kept as the integer
 quotient and remainder of that division.
 */
module Apportionment {
  import opened Ordering
  import opened Sequences

  /** The domain mix of a pool: its domains in insertion order and how many candidates each holds. */
  datatype Mix = Mix(domains: seq<string>, sizes: map<string, nat>, total: nat) {
    ghost predicate Valid() {
      && Distinct(domains)
      && sizes.Keys == (set d | d in domains)
      && total > 0
      && Sum(domains, sizes) == total
    }
  }

  function Sum(ds: seq<string>, f: map<string, int>): int {
    if ds == [] then 0 else (if ds[0] in f then f[ds[0]] else 0) + Sum(ds[1..], f)
  }

  // ----- arithmetic of one quota

  function Whole(r: nat, n: nat, t: nat): int
    requires t > 0
  {
    r * n / t
  }

  function Part(r: nat, n: nat, t: nat): int
    requires t > 0
  {
    r * n % t
  }

  lemma SignOfProduct(t: int, x: int)
    requires t > 0
    ensures t * x < 0 <==> x < 0
    ensures t * x > 0 <==> x > 0
  {}

  /** For `r` no larger than the total, a quota is at most the supply, and a fractional one strictly less. */
  lemma QuotaWithinSupply(r: nat, n: nat, t: nat)
    requires t > 0
    ensures Whole(r, n, t) >= 0 && 0 <= Part(r, n, t) < t
    ensures r <= t ==> Whole(r, n, t) <= n
    ensures r <= t && Part(r, n, t) > 0 ==> Whole(r, n, t) < n
    ensures r > t ==> Whole(r, n, t) >= n
  {
    var q, f := r * n / t, r * n % t;
    assert r * n == t * q + f && 0 <= f < t;
    ProductOrder(r, n, t);
    QuotientOrder(t, q, f, n, r * n);
  }

  lemma ProductOrder(r: nat, n: nat, t: nat)
    ensures r * n >= 0
    ensures r <= t ==> r * n <= t * n
    ensures r > t ==> r * n >= t * n
  {
    assert (t - r) * n == t * n - r * n;
  }

  /** What the size of a dividend says of its quotient. */
  lemma QuotientOrder(t: nat, q: int, f: int, n: nat, dividend: int)
    requires t > 0 && dividend == t * q + f && 0 <= f < t && dividend >= 0
    ensures q >= 0
    ensures dividend <= t * n ==> q <= n && (f > 0 ==> q < n)
    ensures dividend >= t * n ==> q >= n
  {
    SignOfProduct(t, q + 1);
    assert t * (q + 1) == t * q + t;
    SignOfProduct(t, n - q);
    assert t * (n - q) == t * n - t * q;
    SignOfProduct(t, q + 1 - n);
    assert t * (q + 1 - n) == t * q + t - t * n;
  }

  /** Among `k` domains each losing less than `t`, fewer than `k` whole units are lost (none if `k == 0`). */
  lemma UnitsLost(t: int, units: int, k: nat)
    requires t > 0
    requires 0 <= t * units <= k * (t - 1)
    ensures 0 <= units <= k
    ensures k > 0 ==> units < k
  {
    SignOfProduct(t, units);
    SignOfProduct(t, units - k);
    assert t * (units - k) == t * units - t * k && k * (t - 1) == t * k - k;
  }

  // ----- sums

  lemma {:induction false} SumAppend(ds: seq<string>, es: seq<string>, f: map<string, int>)
    ensures Sum(ds + es, f) == Sum(ds, f) + Sum(es, f)
  {
    if ds == [] {
      assert ds + es == es;
    } else {
      assert (ds + es)[0] == ds[0] && (ds + es)[1..] == ds[1..] + es;
      SumAppend(ds[1..], es, f);
    }
  }

  lemma {:induction false} SumPointwise(ds: seq<string>, f: map<string, int>, g: map<string, int>)
    requires forall i :: 0 <= i < |ds| ==> ds[i] in f && ds[i] in g && f[ds[i]] == g[ds[i]]
    ensures Sum(ds, f) == Sum(ds, g)
  {
    if ds != [] { SumPointwise(ds[1..], f, g); }
  }

  lemma {:induction false} SumPrefixBump(ds: seq<string>, f: map<string, int>, g: map<string, int>, k: nat)
    requires k <= |ds|
    requires forall i :: 0 <= i < |ds| ==> ds[i] in f && ds[i] in g && g[ds[i]] == f[ds[i]] + (if i < k then 1 else 0)
    ensures Sum(ds, g) == Sum(ds, f) + k
  {
    if ds != [] {
      SumPrefixBump(ds[1..], f, g, if k == 0 then 0 else k - 1);
    }
  }

  lemma {:induction false} SumBound(ds: seq<string>, f: map<string, int>, k: nat, t: nat)
    requires forall i :: 0 <= i < |ds| ==> ds[i] in f && 0 <= f[ds[i]] <= t
    requires forall i :: k <= i < |ds| ==> f[ds[i]] == 0
    ensures 0 <= Sum(ds, f) <= k * t
  {
    if ds == [] {
      assert k * t >= 0;
    } else if k == 0 {
      SumBound(ds[1..], f, 0, t);
    } else {
      SumBound(ds[1..], f, k - 1, t);
      assert (k - 1) * t + t == k * t;
    }
  }

  lemma {:induction false} SumInsert(leq: (string, string) -> bool, d: string, ds: seq<string>, f: map<string, int>)
    ensures Sum(Insert(leq, d, ds), f) == Sum([d], f) + Sum(ds, f)
  {
    if ds != [] && !leq(d, ds[0]) {
      SumInsert(leq, d, ds[1..], f);
    }
  }

  lemma {:induction false} SumSort(leq: (string, string) -> bool, ds: seq<string>, f: map<string, int>)
    ensures Sum(Sort(leq, ds), f) == Sum(ds, f)
  {
    if ds != [] {
      SumSort(leq, ds[1..], f);
      SumInsert(leq, ds[0], Sort(leq, ds[1..]), f);
    }
  }

  /** Bumping one member of a duplicate-free list bumps the sum by one. */
  lemma {:induction false} SumBump(ds: seq<string>, f: map<string, int>, g: map<string, int>, d: string)
    requires forall i, j :: 0 <= i < j < |ds| ==> ds[i] != ds[j]
    requires d in ds
    requires forall i :: 0 <= i < |ds| ==>
      ds[i] in f && ds[i] in g && g[ds[i]] == f[ds[i]] + (if ds[i] == d then 1 else 0)
    ensures Sum(ds, g) == Sum(ds, f) + 1
  {
    if ds[0] == d {
      SumPointwise(ds[1..], f, g);
    } else {
      SumBump(ds[1..], f, g, d);
    }
  }

  // ----- the allotment

  /** `min(int(q), len(by_domain[domain]))` */
  function Floors(m: Mix, r: nat): (f: map<string, int>)
    requires m.total > 0
    ensures f.Keys == m.sizes.Keys
  {
    map d | d in m.sizes ::
      if Whole(r, m.sizes[d], m.total) <= m.sizes[d] then Whole(r, m.sizes[d], m.total) else m.sizes[d]
  }

  function Wholes(m: Mix, r: nat): (f: map<string, int>)
    requires m.total > 0
    ensures f.Keys == m.sizes.Keys
  {
    map d | d in m.sizes :: Whole(r, m.sizes[d], m.total)
  }

  function Fractions(m: Mix, r: nat): (f: map<string, int>)
    requires m.total > 0
    ensures f.Keys == m.sizes.Keys
  {
    map d | d in m.sizes :: Part(r, m.sizes[d], m.total)
  }

  /** The sort key `(-fraction, -len(members), domain)` as a comparison. */
  predicate RanksBefore(sizes: map<string, nat>, fractions: map<string, int>, d: string, e: string) {
    if d !in sizes || e !in sizes || d !in fractions || e !in fractions then StrLeq(d, e)
    else
      fractions[d] > fractions[e]
      || (fractions[d] == fractions[e] && (sizes[d] > sizes[e] || (sizes[d] == sizes[e] && StrLeq(d, e))))
  }

  function Rank(sizes: map<string, nat>, fractions: map<string, int>): (string, string) -> bool {
    (d, e) => RanksBefore(sizes, fractions, d, e)
  }

  function Ranked(m: Mix, r: nat): seq<string>
    requires m.total > 0
  {
    Sort(Rank(m.sizes, Fractions(m, r)), m.domains)
  }

  function Leftover(m: Mix, r: nat): int
    requires m.total > 0
  {
    r - Sum(m.domains, Floors(m, r))
  }

  /** Final allotment: the floor, plus one for each of the first `Leftover` domains in rank order
      (nothing more than the floors when more is asked for than exists: those are then the whole supply). */
  function Allotment(m: Mix, r: nat): (f: map<string, int>)
    requires m.total > 0
    ensures f.Keys == m.sizes.Keys
  {
    var first := Ranked(m, r)[..if 0 <= Leftover(m, r) <= |Ranked(m, r)| then Leftover(m, r) else 0];
    map d | d in m.sizes :: Floors(m, r)[d] + if r <= m.total && d in first then 1 else 0
  }

  lemma RankIsTotalOrder(m: Mix, f: map<string, int>)
    requires m.Valid() && f.Keys == m.sizes.Keys
    ensures TotalPreorderOn(Rank(m.sizes, f), m.domains) && AntisymmetricOn(Rank(m.sizes, f), m.domains)
  {
    StringsAreOrdered(m.domains);
    var leq, ds := Rank(m.sizes, f), m.domains;
    assert forall d | d in ds :: d in m.sizes;
    forall x, y, z | x in ds && y in ds && z in ds && leq(x, y) && leq(y, z) ensures leq(x, z) {
      assert StrLeq(x, y) && StrLeq(y, z) ==> Strings()(x, y) && Strings()(y, z) && Strings()(x, z);
    }
    forall x, y | x in ds && y in ds ensures leq(x, y) || leq(y, x) {
      assert Strings()(x, y) || Strings()(y, x);
    }
    forall x, y | x in ds && y in ds && leq(x, y) && leq(y, x) ensures x == y {
      assert Strings()(x, y) && Strings()(y, x);
    }
  }

  lemma RankedIsDomains(m: Mix, r: nat)
    requires m.Valid()
    ensures var k := Ranked(m, r);
      && |k| == |m.domains|
      && SortedBy(Rank(m.sizes, Fractions(m, r)), k)
      && (forall d :: d in k <==> d in m.domains)
      && (forall i, j :: 0 <= i < j < |k| ==> k[i] != k[j])
  {
    var k, leq := Ranked(m, r), Rank(m.sizes, Fractions(m, r));
    RankIsTotalOrder(m, Fractions(m, r));
    SortSorts(leq, m.domains);
    forall d ensures d in k <==> d in m.domains {
      assert d in k <==> d in multiset(k);
      assert d in m.domains <==> d in multiset(m.domains);
    }
    DistinctPermuted(m.domains, k);
  }

  lemma RankedAreKeys(m: Mix, r: nat)
    requires m.Valid()
    ensures forall i :: 0 <= i < |Ranked(m, r)| ==> Ranked(m, r)[i] in m.sizes
    ensures forall d :: d in m.sizes ==> d in Ranked(m, r)
  {
    RankedIsDomains(m, r);
    forall i | 0 <= i < |Ranked(m, r)| ensures Ranked(m, r)[i] in m.sizes {
      assert Ranked(m, r)[i] in Ranked(m, r);
    }
  }

  lemma FractionsAreProper(m: Mix, r: nat)
    requires m.Valid()
    ensures forall i :: 0 <= i < |Ranked(m, r)| ==>
      Ranked(m, r)[i] in m.sizes && 0 <= Fractions(m, r)[Ranked(m, r)[i]] <= m.total - 1
  {
    RankedAreKeys(m, r);
    forall i | 0 <= i < |Ranked(m, r)|
      ensures 0 <= Fractions(m, r)[Ranked(m, r)[i]] <= m.total - 1
    {
      QuotaWithinSupply(r, m.sizes[Ranked(m, r)[i]], m.total);
    }
  }

  lemma SplitQuota(r: nat, n: nat, t: nat, wholes: int, parts: int, rest: int)
    requires t > 0 && t * wholes + parts == r * rest
    ensures t * (Whole(r, n, t) + wholes) + (Part(r, n, t) + parts) == r * (n + rest)
  {
    assert r * n == t * (r * n / t) + r * n % t;
    assert t * (Whole(r, n, t) + wholes) == t * Whole(r, n, t) + t * wholes;
    assert r * (n + rest) == r * n + r * rest;
  }

  lemma {:induction false} QuotasSum(m: Mix, r: nat, ds: seq<string>)
    requires m.total > 0 && forall i :: 0 <= i < |ds| ==> ds[i] in m.sizes
    ensures m.total * Sum(ds, Wholes(m, r)) + Sum(ds, Fractions(m, r)) == r * Sum(ds, m.sizes)
  {
    if ds != [] {
      QuotasSum(m, r, ds[1..]);
      SplitQuota(r, m.sizes[ds[0]], m.total, Sum(ds[1..], Wholes(m, r)), Sum(ds[1..], Fractions(m, r)),
        Sum(ds[1..], m.sizes));
    }
  }

  lemma FloorIsWhole(m: Mix, r: nat)
    requires m.total > 0 && r <= m.total
    ensures Floors(m, r) == Wholes(m, r)
  {
    forall d | d in m.sizes ensures Floors(m, r)[d] == Wholes(m, r)[d] {
      QuotaWithinSupply(r, m.sizes[d], m.total);
    }
  }

  lemma DomainsAreKeys(m: Mix)
    requires m.Valid()
    ensures forall i :: 0 <= i < |m.domains| ==> m.domains[i] in m.sizes
  {
    forall i | 0 <= i < |m.domains| ensures m.domains[i] in m.sizes { assert m.domains[i] in m.domains; }
  }

  /** The fractions cut off by the floors add up to exactly `Leftover` whole slots. */
  lemma CutFractions(m: Mix, r: nat)
    requires m.Valid() && r <= m.total
    ensures Sum(Ranked(m, r), Fractions(m, r)) == m.total * Leftover(m, r)
  {
    DomainsAreKeys(m);
    FloorIsWhole(m, r);
    QuotasSum(m, r, m.domains);
    SumSort(Rank(m.sizes, Fractions(m, r)), m.domains, Fractions(m, r));
    RestOfProduct(m.total, r, Sum(m.domains, Wholes(m, r)), Sum(m.domains, Fractions(m, r)), Leftover(m, r));
  }

  lemma RestOfProduct(t: int, r: int, q: int, f: int, rest: int)
    requires t * q + f == r * t && rest == r - q
    ensures f == t * rest
  {
    assert t * rest == t * r - t * q;
  }

  /** Fractions worth `units` whole slots cannot come from fewer than `units` domains. */
  lemma TooFewFractions(k: seq<string>, f: map<string, int>, t: nat, units: int, i: nat)
    requires i < |k| && i < units && t > 0
    requires forall j :: 0 <= j < |k| ==> k[j] in f && 0 <= f[k[j]] <= t - 1
    requires forall j :: i <= j < |k| ==> f[k[j]] <= f[k[i]]
    requires Sum(k, f) == t * units
    ensures f[k[i]] > 0
  {
    if f[k[i]] == 0 {
      SumBound(k, f, i, t - 1);
      UnitsLost(t, units, i);
    }
  }

  lemma FractionsDescend(m: Mix, r: nat, i: nat, j: nat)
    requires m.Valid() && i <= j < |Ranked(m, r)|
    ensures Ranked(m, r)[i] in m.sizes && Ranked(m, r)[j] in m.sizes
    ensures Fractions(m, r)[Ranked(m, r)[i]] >= Fractions(m, r)[Ranked(m, r)[j]]
  {
    RankedIsDomains(m, r);
    RankedAreKeys(m, r);
    var k, leq := Ranked(m, r), Rank(m.sizes, Fractions(m, r));
    if i < j { assert leq(k[i], k[j]) && RanksBefore(m.sizes, Fractions(m, r), k[i], k[j]); }
  }

  /** The leftover is used up within one pass over `ranked`: it is no more than the number of
      domains, and every domain it reaches has a positive fraction and hence room for one more. */
  lemma LeftoverWithinOnePass(m: Mix, r: nat)
    requires m.Valid() && r <= m.total
    ensures 0 <= Leftover(m, r) <= |Ranked(m, r)|
    ensures forall i :: 0 <= i < Leftover(m, r) ==>
      && Ranked(m, r)[i] in m.sizes
      && Fractions(m, r)[Ranked(m, r)[i]] > 0
      && Floors(m, r)[Ranked(m, r)[i]] < m.sizes[Ranked(m, r)[i]]
  {
    LeftoverFits(m, r);
    var k, f := Ranked(m, r), Fractions(m, r);
    forall i | 0 <= i < Leftover(m, r)
      ensures k[i] in m.sizes && f[k[i]] > 0 && Floors(m, r)[k[i]] < m.sizes[k[i]]
    {
      RoomAtRank(m, r, i);
    }
  }

  lemma LeftoverFits(m: Mix, r: nat)
    requires m.Valid() && r <= m.total
    ensures 0 <= Leftover(m, r) <= |Ranked(m, r)|
  {
    FractionsAreProper(m, r);
    CutFractions(m, r);
    UnitsFit(Ranked(m, r), Fractions(m, r), m.total, Leftover(m, r));
  }

  lemma UnitsFit(k: seq<string>, f: map<string, int>, t: nat, units: int)
    requires t > 0 && Sum(k, f) == t * units
    requires forall i :: 0 <= i < |k| ==> k[i] in f && 0 <= f[k[i]] <= t - 1
    ensures 0 <= units <= |k|
  {
    SumBound(k, f, |k|, t - 1);
    UnitsLost(t, units, |k|);
  }

  lemma RoomAtRank(m: Mix, r: nat, i: nat)
    requires m.Valid() && r <= m.total && i < Leftover(m, r) <= |Ranked(m, r)|
    ensures Ranked(m, r)[i] in m.sizes
    ensures Fractions(m, r)[Ranked(m, r)[i]] > 0
    ensures Floors(m, r)[Ranked(m, r)[i]] < m.sizes[Ranked(m, r)[i]]
  {
    var k, f := Ranked(m, r), Fractions(m, r);
    FractionsAreProper(m, r);
    CutFractions(m, r);
    forall j | i <= j < |k| ensures f[k[j]] <= f[k[i]] { FractionsDescend(m, r, i, j); }
    TooFewFractions(k, f, m.total, Leftover(m, r), i);
    QuotaWithinSupply(r, m.sizes[k[i]], m.total);
  }

  lemma AllotmentAtRank(m: Mix, r: nat, i: nat)
    requires m.Valid() && i < |Ranked(m, r)|
    ensures Ranked(m, r)[i] in m.sizes
    ensures Allotment(m, r)[Ranked(m, r)[i]]
         == Floors(m, r)[Ranked(m, r)[i]] + (if r <= m.total && i < Leftover(m, r) then 1 else 0)
  {
    RankedIsDomains(m, r);
    RankedAreKeys(m, r);
    var k := Ranked(m, r);
    if r <= m.total {
      LeftoverWithinOnePass(m, r);
      var first := k[..Leftover(m, r)];
      if i < Leftover(m, r) { assert first[i] == k[i]; }
      assert k[i] in first <==> i < Leftover(m, r);
    }
  }

  /** The slots handed out add up to exactly what was asked for. */
  lemma AllotmentSumsToRemaining(m: Mix, r: nat)
    requires m.Valid() && r <= m.total
    ensures Sum(m.domains, Allotment(m, r)) == r
  {
    var k, leq := Ranked(m, r), Rank(m.sizes, Fractions(m, r));
    LeftoverWithinOnePass(m, r);
    forall i | 0 <= i < |k|
      ensures k[i] in m.sizes && Allotment(m, r)[k[i]] == Floors(m, r)[k[i]] + (if i < Leftover(m, r) then 1 else 0)
    {
      AllotmentAtRank(m, r, i);
    }
    SumPrefixBump(k, Floors(m, r), Allotment(m, r), Leftover(m, r));
    SumSort(leq, m.domains, Floors(m, r));
    SumSort(leq, m.domains, Allotment(m, r));
  }

  /** The quota rule: every domain gets the floor or the ceiling of `r * n / total`, never more than its supply. */
  lemma AllotmentObeysQuota(m: Mix, r: nat, d: string)
    requires m.Valid() && r <= m.total && d in m.sizes
    ensures Whole(r, m.sizes[d], m.total) <= Allotment(m, r)[d]
    ensures Allotment(m, r)[d] <= Whole(r, m.sizes[d], m.total) + (if Part(r, m.sizes[d], m.total) > 0 then 1 else 0)
    ensures 0 <= Allotment(m, r)[d] <= m.sizes[d]
  {
    RankedAreKeys(m, r);
    FloorIsWhole(m, r);
    LeftoverWithinOnePass(m, r);
    QuotaWithinSupply(r, m.sizes[d], m.total);
    var i :| 0 <= i < |Ranked(m, r)| && Ranked(m, r)[i] == d;
    AllotmentAtRank(m, r, i);
  }

  /** Whoever got an extra slot ranks before whoever did not: extras go to the largest fractions. */
  lemma ExtrasToLargestFractions(m: Mix, r: nat, d: string, e: string)
    requires m.Valid() && r <= m.total && d in m.sizes && e in m.sizes
    requires Allotment(m, r)[d] > Whole(r, m.sizes[d], m.total)
    requires Allotment(m, r)[e] == Whole(r, m.sizes[e], m.total)
    ensures Part(r, m.sizes[d], m.total) >= Part(r, m.sizes[e], m.total)
    ensures RanksBefore(m.sizes, Fractions(m, r), d, e)
  {
    var k, leq := Ranked(m, r), Rank(m.sizes, Fractions(m, r));
    RankedIsDomains(m, r);
    RankedAreKeys(m, r);
    FloorIsWhole(m, r);
    var i :| 0 <= i < |k| && k[i] == d;
    var j :| 0 <= j < |k| && k[j] == e;
    AllotmentAtRank(m, r, i);
    AllotmentAtRank(m, r, j);
    assert leq(k[i], k[j]);
  }

  /** Asked for more than there is, the floors already are the whole supply. */
  lemma ScarcityTakesAll(m: Mix, r: nat)
    requires m.total > 0 && r > m.total
    ensures forall d :: d in m.sizes ==> Floors(m, r)[d] == m.sizes[d] == Allotment(m, r)[d]
  {
    forall d | d in m.sizes ensures Floors(m, r)[d] == m.sizes[d] == Allotment(m, r)[d] {
      QuotaWithinSupply(r, m.sizes[d], m.total);
    }
  }

  lemma AllotmentInRange(m: Mix, r: nat, d: string)
    requires m.Valid() && d in m.sizes
    ensures 0 <= Allotment(m, r)[d] <= m.sizes[d]
  {
    if r <= m.total { AllotmentObeysQuota(m, r, d); } else { ScarcityTakesAll(m, r); }
  }

  // ----- the loops

  /** What the round robin over `ranked` has handed out after `index` turns. */
  ghost predicate HandedOut(k: seq<string>, floors: map<string, int>, allotted: map<string, int>, index: nat) {
    && allotted.Keys == floors.Keys
    && forall j :: 0 <= j < |k| && k[j] in floors ==> allotted[k[j]] == floors[k[j]] + (if j < index then 1 else 0)
  }

  lemma HandedOutIsAllotment(m: Mix, r: nat, allotted: map<string, int>, index: nat)
    requires m.Valid() && HandedOut(Ranked(m, r), Floors(m, r), allotted, index)
    requires index == if r <= m.total then Leftover(m, r) else 0
    ensures allotted == Allotment(m, r)
  {
    RankedAreKeys(m, r);
    forall d | d in m.sizes ensures allotted[d] == Allotment(m, r)[d] {
      var j :| 0 <= j < |Ranked(m, r)| && Ranked(m, r)[j] == d;
      AllotmentAtRank(m, r, j);
    }
  }

  /** The while loop over `ranked[index % len(ranked)]`, with its guard against endless turns. Either the
      first `leftover` ranked domains have room and it ends by its own condition after one turn each, or none has and it
      leaves by the guard as soon as there is anything left to hand out. */
  method RoundRobin(ranked: seq<string>, sizes: map<string, nat>, floors: map<string, int>, whole: int,
                    remaining: nat, ghost roomy: bool)
    returns (allotted: map<string, int>, ghost escaped: bool, ghost turns: nat)
    requires remaining > 0
    requires forall i, j :: 0 <= i < j < |ranked| ==> ranked[i] != ranked[j]
    requires forall i :: 0 <= i < |ranked| ==> ranked[i] in floors && ranked[i] in sizes
    requires roomy ==> 0 <= whole <= |ranked| && forall i :: 0 <= i < whole ==> floors[ranked[i]] < sizes[ranked[i]]
    requires !roomy ==> forall i :: 0 <= i < |ranked| ==> floors[ranked[i]] >= sizes[ranked[i]]
    ensures HandedOut(ranked, floors, allotted, if roomy then whole else 0)
    ensures escaped <==> !roomy && whole > 0 && ranked != []
    ensures roomy ==> turns == whole
  {
    escaped := false;
    var leftover := whole;
    allotted := floors;
    var limit := |ranked| * (remaining + 1);
    AtLeastOnce(|ranked|, remaining);
    var index := 0;
    while leftover > 0 && ranked != []
      invariant 0 <= index && HandedOut(ranked, floors, allotted, if roomy then index else 0)
      invariant roomy ==> leftover == whole - index >= 0
      invariant !roomy ==> leftover == whole
      invariant !escaped
      decreases limit + 1 - index
    {
      if roomy { InRange(index, |ranked|); }
      var domain := ranked[index % |ranked|];
      if allotted[domain] < sizes[domain] {
        allotted := allotted[domain := allotted[domain] + 1];
        leftover := leftover - 1;
      }
      index := index + 1;
      if index > limit {
        escaped := true;
        break;
      }
    }
    turns := index;
  }

  lemma InRange(index: nat, n: nat)
    ensures index < n ==> index % n == index
  {}

  lemma AtLeastOnce(n: nat, remaining: nat)
    ensures n * (remaining + 1) >= n
  {
    assert n * (remaining + 1) == n * remaining + n;
  }

  method Apportion(m: Mix, remaining: nat) returns (allotted: map<string, int>)
    requires m.Valid() && remaining > 0
    ensures allotted == Allotment(m, remaining)
  {
    var floors := Floors(m, remaining);
    var leftover := remaining - Sum(m.domains, floors);
    var ranked := Ranked(m, remaining);
    RankedIsDomains(m, remaining);
    RankedAreKeys(m, remaining);
    if remaining <= m.total { LeftoverWithinOnePass(m, remaining); } else { ScarcityTakesAll(m, remaining); }
    ghost var escaped, turns;
    allotted, escaped, turns := RoundRobin(ranked, m.sizes, floors, leftover, remaining, remaining <= m.total);
    HandedOutIsAllotment(m, remaining, allotted, if remaining <= m.total then leftover else 0);
  }
}
