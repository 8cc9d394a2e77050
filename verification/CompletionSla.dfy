/**
 `compute_completion_sla` of scripts/run_gate_d_canary.py over exact reals;
 Python's `round(x, 1)` is round-half-even to tenths.
 */
module CompletionSla {
  import opened Wrappers
  import opened Reals
  import opened Rounding
  import opened Ordering

  datatype RateLimit = RateLimit(rps: real, certified: bool)

  datatype Workload = Workload(domain: string, targets: int, attemptsP95: real, latency: real)

  datatype Entry = Entry(domain: string, attempts: real, seconds: real, rateBinds: bool, certified: bool)

  datatype Error =
    | ConcurrencyNotPositive
    | LatencyNotPositive(domain: string)
    | DivisionByZero
    | NoWorkload

  datatype Sla = Sla(
    entries: seq<Entry>, domainCritical: real, fleetSeconds: real, computed: int, governing: int,
    perDomain: seq<Entry>, uncertified: seq<string>)

  datatype Result<T> = Ok(value: T) | Err(error: Error)

  datatype Settings = Settings(
    limits: map<string, RateLimit>,
    perDomainConcurrency: int,
    fleetConcurrency: int,
    overheadSeconds: int,
    safetyFactor: real,
    targetSeconds: int)

  const DEFAULT_UNCERTIFIED_RPS := 2.0

  // ----- rounding

  function RoundToTenth(x: real): real {
    RoundHalfEven(x * 10.0) as real / 10.0
  }

  function Ceil(x: real): int {
    -((-x).Floor)
  }

  lemma RoundMonotone(x: real, y: real)
    requires x <= y
    ensures RoundHalfEven(x) <= RoundHalfEven(y)
    ensures RoundToTenth(x) <= RoundToTenth(y)
    ensures Ceil(x) <= Ceil(y)
  {
    HalfEvenMonotone(x, y);
    HalfEvenMonotone(x * 10.0, y * 10.0);
  }

  /** Rounding to a tenth moves a value by at most a twentieth; the ceiling is the least integer above. */
  lemma RoundingIsClose(x: real)
    ensures x - 0.05 <= RoundToTenth(x) <= x + 0.05
    ensures x <= Ceil(x) as real < x + 1.0
  {
    var n := RoundHalfEven(x * 10.0);
    assert x * 10.0 - 0.5 <= n as real <= x * 10.0 + 0.5;
  }

  // ----- one domain

  function LimitOf(s: Settings, domain: string): RateLimit {
    if domain in s.limits then s.limits[domain] else RateLimit(DEFAULT_UNCERTIFIED_RPS, false)
  }

  function Attempts(w: Workload): real {
    w.targets as real * w.attemptsP95
  }

  function ConcurrencyRps(s: Settings, w: Workload): real
    requires w.latency > 0.0
  {
    s.perDomainConcurrency as real / w.latency
  }

  function EffectiveRps(s: Settings, w: Workload): real
    requires w.latency > 0.0
  {
    var c := ConcurrencyRps(s, w);
    if LimitOf(s, w.domain).rps <= c then LimitOf(s, w.domain).rps else c
  }

  function EntryOf(s: Settings, w: Workload): Entry
    requires w.latency > 0.0 && EffectiveRps(s, w) != 0.0
  {
    Entry(w.domain, Attempts(w), RoundToTenth(Attempts(w) / EffectiveRps(s, w)),
      LimitOf(s, w.domain).rps <= ConcurrencyRps(s, w), LimitOf(s, w.domain).certified)
  }

  // ----- the whole computation

  function EntriesOf(s: Settings, ws: seq<Workload>): Result<seq<Entry>> {
    if ws == [] then Ok([])
    else
      var w := ws[|ws| - 1];
      match EntriesOf(s, ws[..|ws| - 1])
      case Err(e) => Err(e)
      case Ok(es) =>
        if w.targets <= 0 then Ok(es)
        else if w.latency <= 0.0 then Err(LatencyNotPositive(w.domain))
        else if EffectiveRps(s, w) == 0.0 then Err(DivisionByZero)
        else Ok(es + [EntryOf(s, w)])
  }

  function TotalAttempts(ws: seq<Workload>): real {
    if ws == [] then 0.0
    else TotalAttempts(ws[..|ws| - 1]) + (if ws[|ws| - 1].targets <= 0 then 0.0 else Attempts(ws[|ws| - 1]))
  }

  function LatencyWeighted(ws: seq<Workload>): real {
    if ws == [] then 0.0
    else LatencyWeighted(ws[..|ws| - 1])
         + (if ws[|ws| - 1].targets <= 0 then 0.0 else Attempts(ws[|ws| - 1]) * ws[|ws| - 1].latency)
  }

  function Slowest(es: seq<Entry>): real
    requires es != []
  {
    if |es| == 1 then es[0].seconds
    else
      var m := Slowest(es[..|es| - 1]);
      if es[|es| - 1].seconds > m then es[|es| - 1].seconds else m
  }

  function SlowestFirst(): (Entry, Entry) -> bool {
    (a: Entry, b: Entry) => a.seconds >= b.seconds
  }

  function UncertifiedNames(es: seq<Entry>): seq<string> {
    if es == [] then []
    else UncertifiedNames(es[..|es| - 1]) + if es[|es| - 1].certified then [] else [es[|es| - 1].domain]
  }

  function Max(a: real, b: real): real { if b > a then b else a }

  function Computed(s: Settings, domainCritical: real, fleetSeconds: real): int {
    Ceil(Max(domainCritical, fleetSeconds) * s.safetyFactor) + s.overheadSeconds
  }

  function Finish(s: Settings, es: seq<Entry>, total: real, weighted: real): Result<Sla> {
    if es == [] then Err(NoWorkload)
    else if total == 0.0 || weighted == 0.0 || s.fleetConcurrency == 0 then Err(DivisionByZero)
    else
      var meanLatency := weighted / total;
      var fleetRps := s.fleetConcurrency as real / meanLatency;
      var fleetSeconds := total / fleetRps;
      var computed := Computed(s, Slowest(es), fleetSeconds);
      Ok(Sla(es, Slowest(es), fleetSeconds, computed,
        if computed > s.targetSeconds then computed else s.targetSeconds,
        Sort(SlowestFirst(), es), Sort(Strings(), UncertifiedNames(es))))
  }

  function CompletionSlaOf(s: Settings, ws: seq<Workload>): Result<Sla> {
    if s.fleetConcurrency <= 0 || s.perDomainConcurrency <= 0 then Err(ConcurrencyNotPositive)
    else
      match EntriesOf(s, ws)
      case Err(e) => Err(e)
      case Ok(es) => Finish(s, es, TotalAttempts(ws), LatencyWeighted(ws))
  }

  lemma {:induction false} ErrorsPersist(s: Settings, ws: seq<Workload>, i: nat)
    requires i <= |ws| && EntriesOf(s, ws[..i]).Err?
    ensures EntriesOf(s, ws) == EntriesOf(s, ws[..i])
  {
    if i < |ws| {
      assert ws[..|ws| - 1][..i] == ws[..i];
      ErrorsPersist(s, ws[..|ws| - 1], i);
    } else {
      assert ws[..i] == ws;
    }
  }

  method ComputeCompletionSla(s: Settings, ws: seq<Workload>) returns (r: Result<Sla>)
    ensures r == CompletionSlaOf(s, ws)
  {
    if s.fleetConcurrency <= 0 || s.perDomainConcurrency <= 0 {
      return Err(ConcurrencyNotPositive);
    }
    var entries: seq<Entry>, total, weighted := [], 0.0, 0.0;
    for i := 0 to |ws|
      invariant EntriesOf(s, ws[..i]) == Ok(entries)
      invariant total == TotalAttempts(ws[..i]) && weighted == LatencyWeighted(ws[..i])
    {
      var w := ws[i];
      assert ws[..i + 1][..i] == ws[..i];
      if w.targets <= 0 { continue; }
      if w.latency <= 0.0 {
        ErrorsPersist(s, ws, i + 1);
        return Err(LatencyNotPositive(w.domain));
      }
      if EffectiveRps(s, w) == 0.0 {
        ErrorsPersist(s, ws, i + 1);
        return Err(DivisionByZero);
      }
      total := total + Attempts(w);
      weighted := weighted + Attempts(w) * w.latency;
      entries := entries + [EntryOf(s, w)];
    }
    assert ws[..|ws|] == ws;
    r := Finish(s, entries, total, weighted);
  }

  // ----- the report

  lemma {:induction false} UncertifiedAre(s: Settings, ws: seq<Workload>, d: string)
    requires EntriesOf(s, ws).Ok?
    ensures d in UncertifiedNames(EntriesOf(s, ws).value) <==> exists i :: 0 <= i < |ws| && RunsUncertified(s, ws[i], d)
  {
    if ws != [] {
      var init, w := ws[..|ws| - 1], ws[|ws| - 1];
      UncertifiedAre(s, init, d);
      if w.targets > 0 { OneMoreName(EntriesOf(s, init).value, EntryOf(s, w), d); }
      if i :| 0 <= i < |init| && RunsUncertified(s, init[i], d) { assert RunsUncertified(s, ws[i], d); }
      if i :| 0 <= i < |ws| && RunsUncertified(s, ws[i], d) { assert i == |init| || RunsUncertified(s, init[i], d); }
    }
  }

  lemma OneMoreName(es: seq<Entry>, e: Entry, d: string)
    ensures d in UncertifiedNames(es + [e]) <==> d in UncertifiedNames(es) || (e.domain == d && !e.certified)
  {
    assert (es + [e])[..|es|] == es;
  }

  /** The sample really works on the domain, under no certified rate limit. */
  predicate RunsUncertified(s: Settings, w: Workload, d: string) {
    w.domain == d && w.targets > 0 && !LimitOf(s, d).certified
  }

  lemma {:induction false} SlowestIsMax(es: seq<Entry>)
    requires es != []
    ensures forall i :: 0 <= i < |es| ==> es[i].seconds <= Slowest(es)
    ensures exists i :: 0 <= i < |es| && es[i].seconds == Slowest(es)
  {
    if |es| > 1 {
      var init := es[..|es| - 1];
      SlowestIsMax(init);
      var i :| 0 <= i < |init| && init[i].seconds == Slowest(init);
      assert es[i].seconds == Slowest(init);
      assert es[|es| - 1].seconds == es[|es| - 1].seconds;
    } else {
      assert es[0].seconds == Slowest(es);
    }
  }

  /** The per-domain report holds every worked domain's entry once, slowest first, the first one being the critical
      path over the domains; the uncertified list is sorted and names exactly the domains worked on without a certified
      limit. */
  lemma ReportIsExact(s: Settings, ws: seq<Workload>)
    requires CompletionSlaOf(s, ws).Ok?
    ensures var r := CompletionSlaOf(s, ws).value;
      && multiset(r.perDomain) == multiset(r.entries) && SortedBy(SlowestFirst(), r.perDomain)
      && r.perDomain != [] && r.perDomain[0].seconds == r.domainCritical
      && SortedBy(Strings(), r.uncertified)
      && forall d :: d in r.uncertified <==> exists i :: 0 <= i < |ws| && RunsUncertified(s, ws[i], d)
  {
    DomainsReported(EntriesOf(s, ws).value);
    NamesReported(s, ws);
  }

  lemma DomainsReported(es: seq<Entry>)
    requires es != []
    ensures var sorted := Sort(SlowestFirst(), es);
      multiset(sorted) == multiset(es) && SortedBy(SlowestFirst(), sorted) && sorted != []
      && sorted[0].seconds == Slowest(es)
  {
    SortSorts(SlowestFirst(), es);
    SameElements(Sort(SlowestFirst(), es), es);
    FirstIsSlowest(Sort(SlowestFirst(), es), es);
  }

  lemma NamesReported(s: Settings, ws: seq<Workload>)
    requires EntriesOf(s, ws).Ok?
    ensures var sorted := Sort(Strings(), UncertifiedNames(EntriesOf(s, ws).value));
      && SortedBy(Strings(), sorted)
      && forall d :: d in sorted <==> exists i :: 0 <= i < |ws| && RunsUncertified(s, ws[i], d)
  {
    var names := UncertifiedNames(EntriesOf(s, ws).value);
    StringsAreOrdered(names);
    SortSorts(Strings(), names);
    SameElements(Sort(Strings(), names), names);
    forall d ensures d in names <==> exists i :: 0 <= i < |ws| && RunsUncertified(s, ws[i], d) {
      UncertifiedAre(s, ws, d);
    }
  }

  lemma FirstIsSlowest(sorted: seq<Entry>, es: seq<Entry>)
    requires es != [] && SortedBy(SlowestFirst(), sorted) && forall e :: e in sorted <==> e in es
    ensures sorted != [] && sorted[0].seconds == Slowest(es)
  {
    SlowestIsMax(es);
    var i :| 0 <= i < |es| && es[i].seconds == Slowest(es);
    assert es[i] in sorted;
    var j :| 0 <= j < |sorted| && sorted[j] == es[i];
    assert j == 0 || SlowestFirst()(sorted[0], sorted[j]);
    assert sorted[0] in es;
  }

  // ----- what the numbers mean

  lemma MulMonotone(a: real, b: real, c: real)
    requires a <= b && c >= 0.0
    ensures a * c <= b * c && c * a <= c * b
  {}

  lemma DivideByLarger(a: real, r: real, q: real)
    requires a >= 0.0 && 0.0 < r <= q
    ensures a / q <= a / r
  {
    var x, y := a / r, a / q;
    assert x * r == a && y * q == a && y >= 0.0;
    MulMonotone(r, q, y);
    PositiveProduct(y - x, r);
    assert (y - x) * r == y * r - x * r;
  }

  /** A domain takes the longer of its rate-limited and its latency-limited time. */
  lemma DomainTimeIsMax(s: Settings, w: Workload)
    requires w.latency > 0.0 && s.perDomainConcurrency > 0 && Attempts(w) >= 0.0 && LimitOf(s, w.domain).rps > 0.0
    ensures EffectiveRps(s, w) > 0.0
    ensures Attempts(w) / EffectiveRps(s, w)
         == Max(Attempts(w) / LimitOf(s, w.domain).rps, Attempts(w) * w.latency / s.perDomainConcurrency as real)
  {
    var a, l, c, rate := Attempts(w), w.latency, s.perDomainConcurrency as real, LimitOf(s, w.domain).rps;
    QuotientOfQuotient(a, c, l);
    if rate <= c / l { DivideByLarger(a, rate, c / l); } else { DivideByLarger(a, c / l, rate); }
  }

  lemma QuotientOfQuotient(a: real, c: real, l: real)
    requires c > 0.0 && l > 0.0
    ensures c / l > 0.0
    ensures a / (c / l) == a * l / c
  {
    var q := c / l;
    assert q * l == c;
    assert q > 0.0;
    var x := a / q;
    assert x * q == a;
    assert x * (q * l) == a * l;
    assert x * c == a * l;
  }

  /** The fleet term is the latency-weighted work over the fleet's slots. */
  lemma FleetTimeIsWeightedWork(s: Settings, ws: seq<Workload>)
    requires CompletionSlaOf(s, ws).Ok?
    ensures CompletionSlaOf(s, ws).value.fleetSeconds == LatencyWeighted(ws) / s.fleetConcurrency as real
  {
    FleetQuotient(TotalAttempts(ws), LatencyWeighted(ws), s.fleetConcurrency as real);
  }

  lemma FleetQuotient(t: real, lw: real, f: real)
    requires t != 0.0 && lw != 0.0 && f > 0.0
    ensures lw / t != 0.0 && f / (lw / t) != 0.0
    ensures t / (f / (lw / t)) == lw / f
  {
    var m := lw / t;
    assert m * t == lw;
    assert m != 0.0;
    var q := f / m;
    assert q * m == f;
    assert q != 0.0;
    var x := t / q;
    assert x * q == t;
    assert x * (q * m) == t * m;
    assert x * f == lw;
  }

  // ----- the numbers, told in the inputs

  /** The entry of a workload: the slower of its rate limit and its slots gives its time, rounded to a tenth. */
  predicate IsEntryOf(e: Entry, s: Settings, w: Workload)
    requires w.latency > 0.0
  {
    var limit := if w.domain in s.limits then s.limits[w.domain] else RateLimit(2.0, false);
    var slots := s.perDomainConcurrency as real / w.latency;
    var rate := if limit.rps < slots then limit.rps else slots;
    && e.domain == w.domain && e.attempts == w.targets as real * w.attemptsP95
    && rate != 0.0 && e.seconds * 10.0 == RoundHalfEven(e.attempts / rate * 10.0) as real
    && (e.rateBinds <==> limit.rps <= slots) && (e.certified <==> limit.certified)
  }

  /** Why the workload cannot be computed with, if it cannot. */
  function Trouble(s: Settings, w: Workload): Option<Error> {
    if w.targets <= 0 then None
    else if w.latency <= 0.0 then Some(LatencyNotPositive(w.domain))
    else if w.domain in s.limits && s.limits[w.domain].rps == 0.0 then Some(DivisionByZero)
    else None
  }

  /** The workloads that are worked on, in order. */
  function Worked(ws: seq<Workload>): seq<Workload> {
    if ws == [] then [] else (if ws[0].targets > 0 then [ws[0]] else []) + Worked(ws[1..])
  }

  lemma {:induction false} WorkedPush(ws: seq<Workload>, w: Workload)
    ensures Worked(ws + [w]) == Worked(ws) + if w.targets > 0 then [w] else []
  {
    if ws == [] {
      assert ws + [w] == [w] && [w][1..] == [];
    } else {
      var head := if ws[0].targets > 0 then [ws[0]] else [];
      assert (ws + [w])[0] == ws[0] && (ws + [w])[1..] == ws[1..] + [w];
      WorkedPush(ws[1..], w);
      assert Worked(ws) == head + Worked(ws[1..]);
    }
  }

  function Sum(ws: seq<Workload>, of: Workload -> real): real {
    if ws == [] then 0.0 else of(ws[0]) + Sum(ws[1..], of)
  }

  function AttemptsOf(): Workload -> real {
    (w: Workload) => w.targets as real * w.attemptsP95
  }

  /** The work of all attempts of a workload laid end to end. */
  function SlotSecondsOf(): Workload -> real {
    (w: Workload) => w.targets as real * w.attemptsP95 * w.latency
  }

  lemma {:induction false} SumPush(ws: seq<Workload>, w: Workload, of: Workload -> real)
    ensures Sum(ws + [w], of) == Sum(ws, of) + of(w)
  {
    if ws == [] {
      assert ws + [w] == [w] && [w][1..] == [];
    } else {
      assert (ws + [w])[1..] == ws[1..] + [w];
      SumPush(ws[1..], w, of);
    }
  }

  lemma SumLast(init: seq<Workload>, w: Workload, of: Workload -> real)
    ensures Sum(Worked(init + [w]), of) == Sum(Worked(init), of) + if w.targets > 0 then of(w) else 0.0
  {
    WorkedPush(init, w);
    assert Worked(init) + [] == Worked(init);
    SumPush(Worked(init), w, of);
  }

  lemma TotalsLast(init: seq<Workload>, w: Workload)
    ensures TotalAttempts(init + [w]) == TotalAttempts(init) + if w.targets > 0 then AttemptsOf()(w) else 0.0
    ensures LatencyWeighted(init + [w]) == LatencyWeighted(init) + if w.targets > 0 then SlotSecondsOf()(w) else 0.0
  {
    assert (init + [w])[..|init|] == init;
  }

  lemma {:induction false} TotalsAreSums(ws: seq<Workload>)
    ensures TotalAttempts(ws) == Sum(Worked(ws), AttemptsOf())
    ensures LatencyWeighted(ws) == Sum(Worked(ws), SlotSecondsOf())
  {
    if ws != [] {
      var (init, w) := (ws[..|ws| - 1], ws[|ws| - 1]);
      TotalsAreSums(init);
      SumLast(init, w, AttemptsOf());
      SumLast(init, w, SlotSecondsOf());
      TotalsLast(init, w);
      assert init + [w] == ws;
    }
  }

  lemma EntryExactly(s: Settings, w: Workload)
    requires w.targets > 0 && s.perDomainConcurrency > 0
    ensures w.latency <= 0.0 ==> Trouble(s, w) == Some(LatencyNotPositive(w.domain))
    ensures w.latency > 0.0 ==> (EffectiveRps(s, w) == 0.0 <==> Trouble(s, w) == Some(DivisionByZero))
    ensures w.latency > 0.0 && EffectiveRps(s, w) != 0.0 ==> Trouble(s, w) == None && IsEntryOf(EntryOf(s, w), s, w)
  {
    if w.latency > 0.0 {
      var slots := s.perDomainConcurrency as real / w.latency;
      assert slots * w.latency == s.perDomainConcurrency as real;
      assert slots > 0.0;
      if EffectiveRps(s, w) != 0.0 {
        var tenths := RoundHalfEven(Attempts(w) / EffectiveRps(s, w) * 10.0);
        assert RoundToTenth(Attempts(w) / EffectiveRps(s, w)) * 10.0 == tenths as real;
      }
    }
  }

  ghost predicate NoTrouble(s: Settings, ws: seq<Workload>) {
    forall i :: 0 <= i < |ws| ==> Trouble(s, ws[i]) == None
  }

  ghost predicate FirstTrouble(s: Settings, ws: seq<Workload>, e: Error) {
    exists i :: 0 <= i < |ws| && Trouble(s, ws[i]) == Some(e) && NoTrouble(s, ws[..i])
  }

  lemma {:induction false} EntriesExactly(s: Settings, ws: seq<Workload>)
    requires s.perDomainConcurrency > 0
    ensures EntriesOf(s, ws).Ok? ==>
      var (es, worked) := (EntriesOf(s, ws).value, Worked(ws));
      |es| == |worked| && forall i :: 0 <= i < |es| ==> worked[i].latency > 0.0 && IsEntryOf(es[i], s, worked[i])
    ensures EntriesOf(s, ws).Ok? <==> NoTrouble(s, ws)
    ensures EntriesOf(s, ws).Err? ==> FirstTrouble(s, ws, EntriesOf(s, ws).error)
  {
    if ws != [] {
      var (init, w) := (ws[..|ws| - 1], ws[|ws| - 1]);
      assert init + [w] == ws;
      EntriesExactly(s, init);
      WorkedPush(init, w);
      if w.targets > 0 { EntryExactly(s, w); }
      if EntriesOf(s, init).Err? {
        var i :| 0 <= i < |init| && Trouble(s, init[i]) == Some(EntriesOf(s, init).error)
                 && NoTrouble(s, init[..i]);
        assert init[..i] == ws[..i] && Trouble(s, ws[i]) == Some(EntriesOf(s, ws).error);
      } else if EntriesOf(s, ws).Err? {
        assert ws[..|init|] == init && Trouble(s, ws[|init|]) == Some(EntriesOf(s, ws).error);
      }
    }
  }

  /** One entry for every workload worked on, in order. */
  lemma SlaEntriesExactly(s: Settings, ws: seq<Workload>)
    requires CompletionSlaOf(s, ws).Ok?
    ensures var (es, worked) := (CompletionSlaOf(s, ws).value.entries, Worked(ws));
      && worked != [] && |es| == |worked|
      && forall i :: 0 <= i < |worked| ==> worked[i].latency > 0.0 && IsEntryOf(es[i], s, worked[i])
  {
    EntriesExactly(s, ws);
  }

  /** The critical path over the domains is the slowest one's; the fleet's is the work of all attempts over its
      slots. */
  lemma SlaTimesExactly(s: Settings, ws: seq<Workload>)
    requires CompletionSlaOf(s, ws).Ok?
    ensures var r := CompletionSlaOf(s, ws).value;
      && (forall e :: e in r.entries ==> e.seconds <= r.domainCritical)
      && (exists e :: e in r.entries && e.seconds == r.domainCritical)
      && s.fleetConcurrency > 0 && r.fleetSeconds == Sum(Worked(ws), SlotSecondsOf()) / s.fleetConcurrency as real
  {
    var r := CompletionSlaOf(s, ws).value;
    SlowestIsMax(r.entries);
    TotalsAreSums(ws);
    FleetTimeIsWeightedWork(s, ws);
    var i :| 0 <= i < |r.entries| && r.entries[i].seconds == r.domainCritical;
    assert r.entries[i] in r.entries;
  }

  /** `n` whole seconds reach `x` and one less would not. */
  predicate JustReaches(n: int, x: real) {
    (n - 1) as real < x <= n as real
  }

  /** The SLA, without the overhead, is the least whole number of seconds that reaches the safety factor times the
      longer of both times; the larger of SLA and target governs. */
  lemma SlaIsLeast(s: Settings, ws: seq<Workload>, r: Sla)
    requires CompletionSlaOf(s, ws) == Ok(r)
    ensures r.domainCritical >= r.fleetSeconds ==>
      JustReaches(r.computed - s.overheadSeconds, r.domainCritical * s.safetyFactor)
    ensures r.domainCritical <= r.fleetSeconds ==>
      JustReaches(r.computed - s.overheadSeconds, r.fleetSeconds * s.safetyFactor)
    ensures r.governing >= r.computed && r.governing >= s.targetSeconds && r.governing in {r.computed, s.targetSeconds}
  {
    ComputedIsLeast(s, r.domainCritical, r.fleetSeconds);
  }

  lemma ComputedIsLeast(s: Settings, d: real, f: real)
    ensures d >= f ==> JustReaches(Computed(s, d, f) - s.overheadSeconds, d * s.safetyFactor)
    ensures d <= f ==> JustReaches(Computed(s, d, f) - s.overheadSeconds, f * s.safetyFactor)
  {
    RoundingIsClose(d * s.safetyFactor);
    RoundingIsClose(f * s.safetyFactor);
  }

  /** No slots of either kind, the first workload in trouble, nothing to do, or work that adds up to nothing. */
  lemma SlaErrorsExactly(s: Settings, ws: seq<Workload>)
    ensures CompletionSlaOf(s, ws).Err? ==>
      var e := CompletionSlaOf(s, ws).error;
      if s.fleetConcurrency <= 0 || s.perDomainConcurrency <= 0 then e == ConcurrencyNotPositive
      else if !NoTrouble(s, ws) then FirstTrouble(s, ws, e)
      else if Worked(ws) == [] then e == NoWorkload
      else e == DivisionByZero && (Sum(Worked(ws), AttemptsOf()) == 0.0 || Sum(Worked(ws), SlotSecondsOf()) == 0.0)
    ensures CompletionSlaOf(s, ws).Ok? ==>
      && s.fleetConcurrency > 0 && s.perDomainConcurrency > 0 && NoTrouble(s, ws) && Worked(ws) != []
      && Sum(Worked(ws), AttemptsOf()) != 0.0 && Sum(Worked(ws), SlotSecondsOf()) != 0.0
  {
    TotalsAreSums(ws);
    if s.fleetConcurrency > 0 && s.perDomainConcurrency > 0 { EntriesExactly(s, ws); }
  }

  // ----- monotonicity

  /** `w'` asks for at least as much as `w` of the same domain; skipped workloads ask for nothing. */
  predicate Lighter(w: Workload, w': Workload) {
    w.targets <= 0
    || (w.domain == w'.domain && w.targets <= w'.targets && w.attemptsP95 <= w'.attemptsP95 && w.latency <= w'.latency)
  }

  /** `ws'` is `ws` with any of its workloads enlarged and any others added, anywhere. */
  predicate Embeds(ws: seq<Workload>, ws': seq<Workload>)
    decreases |ws'|
  {
    ws == []
    || (ws' != []
        && (Embeds(ws, ws'[..|ws'| - 1])
            || (Lighter(ws[|ws| - 1], ws'[|ws'| - 1]) && Embeds(ws[..|ws| - 1], ws'[..|ws'| - 1]))))
  }

  predicate Sound(s: Settings, w: Workload) {
    w.targets > 0 ==> w.latency > 0.0 && w.attemptsP95 >= 0.0 && LimitOf(s, w.domain).rps > 0.0
  }

  predicate AllSound(s: Settings, ws: seq<Workload>) {
    forall i :: 0 <= i < |ws| ==> Sound(s, ws[i])
  }

  /** Same limits, no more slots of either kind. */
  predicate NoMoreSlots(s: Settings, s': Settings) {
    && s'.limits == s.limits
    && 0 < s'.perDomainConcurrency <= s.perDomainConcurrency
    && 0 < s'.fleetConcurrency <= s.fleetConcurrency
  }

  lemma WorkGrows(w: Workload, w': Workload)
    requires w.targets > 0 && Lighter(w, w') && w.attemptsP95 >= 0.0 && w.latency > 0.0
    ensures 0.0 <= Attempts(w) <= Attempts(w')
    ensures 0.0 <= Attempts(w) * w.latency <= Attempts(w') * w'.latency
  {
    ProductGrows(w.targets as real, w'.targets as real, w.attemptsP95, w'.attemptsP95);
    ProductGrows(Attempts(w), Attempts(w'), w.latency, w'.latency);
  }

  lemma ProductGrows(a: real, b: real, c: real, d: real)
    requires 0.0 <= a <= b && 0.0 <= c <= d
    ensures 0.0 <= a * c <= b * d
  {
    MulMonotone(0.0, a, c);
    MulMonotone(a, b, c);
    MulMonotone(c, d, b);
  }

  lemma DivideMonotone(a: real, b: real, r: real, q: real)
    requires 0.0 <= a <= b && 0.0 < r <= q
    ensures a / q <= b / r
  {
    DivideByLarger(a, r, q);
    var x, y := a / r, b / r;
    assert x * r == a && y * r == b;
    PositiveProduct(x - y, r);
    assert (x - y) * r == x * r - y * r;
  }

  lemma DomainTimeGrows(s: Settings, w: Workload, s': Settings, w': Workload)
    requires NoMoreSlots(s, s') && w.targets > 0 && Lighter(w, w') && Sound(s, w) && Sound(s', w')
    ensures EffectiveRps(s, w) > 0.0 && EffectiveRps(s', w') > 0.0
    ensures Attempts(w) / EffectiveRps(s, w) <= Attempts(w') / EffectiveRps(s', w')
  {
    WorkGrows(w, w');
    DomainTimeIsMax(s, w);
    DomainTimeIsMax(s', w');
    var rate := LimitOf(s, w.domain).rps;
    DivideMonotone(Attempts(w), Attempts(w'), rate, rate);
    DivideMonotone(Attempts(w) * w.latency, Attempts(w') * w'.latency,
      s'.perDomainConcurrency as real, s.perDomainConcurrency as real);
  }

  /** What the last workload adds to both totals: a positive latency brings weight with every attempt. */
  lemma LastAdds(s: Settings, ws: seq<Workload>)
    requires ws != [] && AllSound(s, ws)
    ensures var t := ws[..|ws| - 1];
      && TotalAttempts(t) <= TotalAttempts(ws) && LatencyWeighted(t) <= LatencyWeighted(ws)
      && (TotalAttempts(t) < TotalAttempts(ws) ==> LatencyWeighted(t) < LatencyWeighted(ws))
  {
    var w := ws[|ws| - 1];
    assert Sound(s, w);
    if w.targets > 0 {
      WorkGrows(w, w);
      PositiveProduct(Attempts(w), w.latency);
    }
  }

  /** A heavier last workload adds at least as much to both. */
  lemma LastGrows(s: Settings, ws: seq<Workload>, ws': seq<Workload>)
    requires ws != [] && ws' != [] && AllSound(s, ws) && AllSound(s, ws') && Lighter(ws[|ws| - 1], ws'[|ws'| - 1])
    ensures var t, t' := ws[..|ws| - 1], ws'[..|ws'| - 1];
      && TotalAttempts(ws) - TotalAttempts(t) <= TotalAttempts(ws') - TotalAttempts(t')
      && LatencyWeighted(ws) - LatencyWeighted(t) <= LatencyWeighted(ws') - LatencyWeighted(t')
  {
    var w, w' := ws[|ws| - 1], ws'[|ws'| - 1];
    assert Sound(s, w);
    if w.targets > 0 { WorkGrows(w, w'); } else { LastAdds(s, ws'); }
  }

  lemma {:induction false} TotalsGrow(s: Settings, ws: seq<Workload>, ws': seq<Workload>)
    requires Embeds(ws, ws') && AllSound(s, ws) && AllSound(s, ws')
    ensures 0.0 <= TotalAttempts(ws) <= TotalAttempts(ws')
    ensures 0.0 <= LatencyWeighted(ws) <= LatencyWeighted(ws')
    ensures TotalAttempts(ws) > 0.0 ==> LatencyWeighted(ws) > 0.0
    decreases |ws'|
  {
    if ws' != [] {
      var t' := ws'[..|ws'| - 1];
      LastAdds(s, ws');
      if ws == [] || Embeds(ws, t') {
        TotalsGrow(s, ws, t');
      } else {
        TotalsGrow(s, ws[..|ws| - 1], t');
        LastAdds(s, ws);
        LastGrows(s, ws, ws');
      }
    }
  }

  lemma EntryGrows(s: Settings, w: Workload, s': Settings, w': Workload)
    requires NoMoreSlots(s, s') && w.targets > 0 && Lighter(w, w') && Sound(s, w) && Sound(s', w')
    ensures EffectiveRps(s, w) > 0.0 && EffectiveRps(s', w') > 0.0
    ensures EntryOf(s, w).seconds <= EntryOf(s', w').seconds
  {
    DomainTimeGrows(s, w, s', w');
    RoundMonotone(Attempts(w) / EffectiveRps(s, w), Attempts(w') / EffectiveRps(s', w'));
  }

  lemma {:induction false} SlowestGrows(s: Settings, ws: seq<Workload>, s': Settings, ws': seq<Workload>)
    requires NoMoreSlots(s, s') && Embeds(ws, ws') && AllSound(s, ws) && AllSound(s', ws')
    ensures EntriesOf(s, ws).Ok? && EntriesOf(s', ws').Ok?
    ensures EntriesOf(s, ws).value != [] ==>
      EntriesOf(s', ws').value != [] && Slowest(EntriesOf(s, ws).value) <= Slowest(EntriesOf(s', ws').value)
    decreases |ws'|
  {
    if ws' != [] {
      var t', w' := ws'[..|ws'| - 1], ws'[|ws'| - 1];
      assert Sound(s', w');
      if w'.targets > 0 { DomainTimeGrows(s', w', s', w'); }
      if ws == [] || Embeds(ws, t') {
        SlowestGrows(s, ws, s', t');
      } else {
        var t, w := ws[..|ws| - 1], ws[|ws| - 1];
        assert Sound(s, w);
        SlowestGrows(s, t, s', t');
        if w.targets > 0 { EntryGrows(s, w, s', w'); }
      }
    }
  }

  lemma FleetTimeGrows(s: Settings, ws: seq<Workload>, s': Settings, ws': seq<Workload>)
    requires NoMoreSlots(s, s') && CompletionSlaOf(s, ws).Ok? && CompletionSlaOf(s', ws').Ok?
    requires 0.0 < LatencyWeighted(ws) <= LatencyWeighted(ws')
    ensures CompletionSlaOf(s, ws).value.fleetSeconds <= CompletionSlaOf(s', ws').value.fleetSeconds
  {
    FleetTimeIsWeightedWork(s, ws);
    FleetTimeIsWeightedWork(s', ws');
    DivideMonotone(LatencyWeighted(ws), LatencyWeighted(ws'), s'.fleetConcurrency as real, s.fleetConcurrency as real);
  }

  lemma FinalGrows(s: Settings, d: real, f: real, s': Settings, d': real, f': real)
    requires d <= d' && f <= f' && s.safetyFactor == s'.safetyFactor >= 0.0 && s.overheadSeconds == s'.overheadSeconds
    ensures Computed(s, d, f) <= Computed(s', d', f')
  {
    MulMonotone(Max(d, f), Max(d', f'), s.safetyFactor);
    RoundMonotone(Max(d, f) * s.safetyFactor, Max(d', f') * s.safetyFactor);
  }

  /** Adding or enlarging workloads, or taking slots away, never lowers the computed or the governing SLA. */
  lemma SlaMonotone(s: Settings, ws: seq<Workload>, s': Settings, ws': seq<Workload>)
    requires NoMoreSlots(s, s') && s'.overheadSeconds == s.overheadSeconds
    requires s'.safetyFactor == s.safetyFactor >= 0.0 && s'.targetSeconds == s.targetSeconds
    requires Embeds(ws, ws') && AllSound(s, ws) && AllSound(s', ws')
    requires CompletionSlaOf(s, ws).Ok?
    ensures CompletionSlaOf(s', ws').Ok?
    ensures var (a, b) := (CompletionSlaOf(s, ws).value, CompletionSlaOf(s', ws').value);
      a.domainCritical <= b.domainCritical && a.fleetSeconds <= b.fleetSeconds
      && a.computed <= b.computed && a.governing <= b.governing
  {
    SlowestGrows(s, ws, s', ws');
    TotalsGrow(s, ws, ws');
    EmbedsItself(ws');
    TotalsGrow(s', ws', ws');
    var a, b := CompletionSlaOf(s, ws).value, CompletionSlaOf(s', ws').value;
    FleetTimeGrows(s, ws, s', ws');
    FinalGrows(s, a.domainCritical, a.fleetSeconds, s', b.domainCritical, b.fleetSeconds);
  }

  lemma {:induction false} EmbedsItself(ws: seq<Workload>)
    ensures Embeds(ws, ws)
  {
    if ws != [] { EmbedsItself(ws[..|ws| - 1]); }
  }
}
