/**
 The classification rules of scripts/classify_match_set.py and the bounded live
 fetch that feeds them.  Times are seconds.
 */
module MatchClassifier {
  import opened Wrappers
  import opened Ordering
  import Fetching
  import opened ClassifierFetcher

  const CONFIRM_GAP := 24 * 3600

  datatype Observation = Observation(at: int, success: bool, comparable: bool)

  /** `MatchFacts`; a null observation column reads as false, as Python's truth test has it. */
  datatype Facts = Facts(
    matchId: int, domain: string, url: string, variantIdentifier: Option<string>, latest: Option<Observation>,
    notListedAt: seq<int>)

  datatype State = Active | ConfirmedDelisted | InvalidIdentity | Unknown

  /** What the evidence rests on. */
  datatype Evidence =
    | Misread(absences: seq<int>)
    | RepeatedAbsence(count: nat, first: int, last: int)
    | SingleAbsence(count: nat, first: int, last: int)
    | RecentSuccess(at: int)
    | NeverObserved
    | NoSignal(latest: Observation)

  datatype Classification = Classification(state: State, evidence: Evidence, secondPass: bool)

  function Before(): (int, int) -> bool {
    (a, b) => a <= b
  }

  function Sorted(times: seq<int>): (r: seq<int>)
    ensures |r| == |times|
  {
    Sort(Before(), times)
  }

  predicate IsMisread(f: Facts, invalidDomains: set<string>) {
    f.domain in invalidDomains && f.variantIdentifier.Some? && f.variantIdentifier.value != "" && f.notListedAt != []
  }

  predicate IsRecent(f: Facts, now: int, recentDays: int) {
    f.latest.Some? && f.latest.value.success && f.latest.value.comparable
    && now - f.latest.value.at <= recentDays * 86400
  }

  /** `classify_match` */
  function Classify(f: Facts, now: int, recentDays: int, invalidDomains: set<string>, gap: int): Classification {
    if IsMisread(f, invalidDomains) then
      Classification(InvalidIdentity, Misread(Sorted(f.notListedAt)), false)
    else if f.notListedAt != [] then
      var ts := Sorted(f.notListedAt);
      var first, last := ts[0], ts[|ts| - 1];
      if |ts| >= 2 && last - first >= gap then
        Classification(ConfirmedDelisted, RepeatedAbsence(|ts|, first, last), false)
      else
        Classification(Unknown, SingleAbsence(|ts|, first, last), true)
    else if IsRecent(f, now, recentDays) then
      Classification(Active, RecentSuccess(f.latest.value.at), false)
    else if f.latest.None? then
      Classification(Unknown, NeverObserved, false)
    else
      Classification(Unknown, NoSignal(f.latest.value), false)
  }

  // ----- what the states mean

  lemma BeforeIsOrder(s: seq<int>)
    ensures TotalPreorderOn(Before(), s) && AntisymmetricOn(Before(), s)
  {}

  /** Two absences, by position, at least the gap apart. */
  ghost predicate Apart(times: seq<int>, i: nat, j: nat, gap: int) {
    i < |times| && j < |times| && i != j && times[j] - times[i] >= gap
  }

  lemma SpanIsWidest(times: seq<int>, i: nat, j: nat)
    requires i < |times| && j < |times|
    ensures times[j] - times[i] <= Sorted(times)[|times| - 1] - Sorted(times)[0]
  {
    BeforeIsOrder(times);
    SortSorts(Before(), times);
    SameElements(times, Sorted(times));
    assert times[i] in times && times[j] in times;
    var p :| 0 <= p < |times| && Sorted(times)[p] == times[i];
    var q :| 0 <= q < |times| && Sorted(times)[q] == times[j];
    assert p == 0 || Before()(Sorted(times)[0], Sorted(times)[p]);
    assert q == |times| - 1 || Before()(Sorted(times)[q], Sorted(times)[|times| - 1]);
  }

  lemma SpanIsReached(times: seq<int>, gap: int)
    requires |times| >= 2 && Sorted(times)[|times| - 1] - Sorted(times)[0] >= gap && gap > 0
    ensures exists i, j :: Apart(times, i, j, gap)
  {
    SameElements(times, Sorted(times));
    var first, last := Sorted(times)[0], Sorted(times)[|times| - 1];
    assert first in Sorted(times) && last in Sorted(times);
    var i :| 0 <= i < |times| && times[i] == first;
    var j :| 0 <= j < |times| && times[j] == last;
    assert Apart(times, i, j, gap);
  }

  /** A match is confirmed delisted exactly when its identity is not misread and two of its absences, in whatever order
      they were listed, are at least the gap apart. */
  lemma ConfirmedExactly(f: Facts, now: int, recentDays: int, invalidDomains: set<string>, gap: int)
    requires gap > 0
    ensures Classify(f, now, recentDays, invalidDomains, gap).state == ConfirmedDelisted <==>
      !IsMisread(f, invalidDomains) && exists i, j :: Apart(f.notListedAt, i, j, gap)
  {
    var times := f.notListedAt;
    if i, j :| Apart(times, i, j, gap) {
      SpanIsWidest(times, i, j);
    } else if |times| >= 2 && Sorted(times)[|times| - 1] - Sorted(times)[0] >= gap {
      SpanIsReached(times, gap);
    }
  }

  lemma SortedIs(times: seq<int>)
    ensures var ts := Sorted(times);
      && multiset(ts) == multiset(times)
      && (forall i, j :: 0 <= i < j < |ts| ==> ts[i] <= ts[j])
      && (forall t :: t in times <==> t in ts)
      && (times != [] ==> forall t :: t in times ==> ts[0] <= t <= ts[|ts| - 1])
  {
    BeforeIsOrder(times);
    SortSorts(Before(), times);
    SameElements(times, Sorted(times));
    var ts := Sorted(times);
    assert forall i, j :: 0 <= i < j < |ts| ==> Before()(ts[i], ts[j]);
  }

  /** The first and last of the absences, and how many there are. */
  ghost predicate Spans(times: seq<int>, count: nat, first: int, last: int) {
    count == |times| && first in times && last in times && forall t :: t in times ==> first <= t <= last
  }

  ghost predicate IsInOrder(times: seq<int>, sorted: seq<int>) {
    multiset(sorted) == multiset(times) && forall i, j :: 0 <= i < j < |sorted| ==> sorted[i] <= sorted[j]
  }

  /** The whole classification. An absence on record decides: it is a misread where the domain's identifiers are
      misread and the match has one, a delisting where two of them lie far enough apart, and a reason for a second look
      elsewhere. Without any, a match is active exactly when its latest observation is a comparable success recent
      enough. */
  lemma ClassifiesExactly(f: Facts, now: int, recentDays: int, invalidDomains: set<string>, gap: int)
    requires gap > 0
    ensures var (r, times) := (Classify(f, now, recentDays, invalidDomains, gap), f.notListedAt);
      if times != [] && f.domain in invalidDomains && f.variantIdentifier !in {None, Some("")} then
        && r.state == InvalidIdentity && !r.secondPass
        && r.evidence.Misread? && IsInOrder(times, r.evidence.absences)
      else if exists i, j :: Apart(times, i, j, gap) then
        && r.state == ConfirmedDelisted && !r.secondPass
        && r.evidence.RepeatedAbsence? && Spans(times, r.evidence.count, r.evidence.first, r.evidence.last)
      else if times != [] then
        && r.state == Unknown && r.secondPass
        && r.evidence.SingleAbsence? && Spans(times, r.evidence.count, r.evidence.first, r.evidence.last)
      else
        !r.secondPass
        && match f.latest
           case None => r.state == Unknown && r.evidence == NeverObserved
           case Some(o) =>
             if o.success && o.comparable && now - o.at <= recentDays * 24 * 60 * 60 then
               r.state == Active && r.evidence == RecentSuccess(o.at)
             else
               r.state == Unknown && r.evidence == NoSignal(o)
  {
    SortedIs(f.notListedAt);
    ConfirmedExactly(f, now, recentDays, invalidDomains, gap);
  }

  lemma SortedForgets(times: seq<int>, other: seq<int>)
    requires multiset(times) == multiset(other)
    ensures Sorted(times) == Sorted(other) && (times == [] <==> other == [])
  {
    BeforeIsOrder(times);
    SameElements(times, other);
    SortForgetsOrder(Before(), times, other);
  }

  /** The whole result, evidence included, forgets the order of the absences. */
  lemma OrderForgotten(f: Facts, other: seq<int>, now: int, recentDays: int, invalidDomains: set<string>, gap: int)
    requires multiset(f.notListedAt) == multiset(other)
    ensures Classify(f.(notListedAt := other), now, recentDays, invalidDomains, gap) ==
      Classify(f, now, recentDays, invalidDomains, gap)
  {
    SortedForgets(f.notListedAt, other);
  }

  /** One more absence never undoes a confirmation, and one absence alone never makes one. */
  lemma AbsencesAccumulate(f: Facts, at: int, now: int, recentDays: int, invalidDomains: set<string>, gap: int)
    requires gap > 0
    ensures Classify(f, now, recentDays, invalidDomains, gap).state == ConfirmedDelisted ==>
      Classify(Gone(f, at), now, recentDays, invalidDomains, gap).state == ConfirmedDelisted
    ensures |f.notListedAt| == 0 ==>
      Classify(Gone(f, at), now, recentDays, invalidDomains, gap).state != ConfirmedDelisted
  {
    var more := f.notListedAt + [at];
    ConfirmedExactly(f, now, recentDays, invalidDomains, gap);
    ConfirmedExactly(Gone(f, at), now, recentDays, invalidDomains, gap);
    if i, j :| Apart(f.notListedAt, i, j, gap) {
      assert Apart(more, i, j, gap);
    }
  }

  /** A success, however recent, never outweighs an absence, however old. */
  lemma AbsenceOutranksSuccess(f: Facts, latest: Option<Observation>, now: int, recentDays: int,
                               invalidDomains: set<string>, gap: int)
    requires f.notListedAt != []
    ensures Classify(f.(latest := latest), now, recentDays, invalidDomains, gap) ==
      Classify(f, now, recentDays, invalidDomains, gap)
    ensures Classify(f, now, recentDays, invalidDomains, gap).state != Active
  {}

  // ----- the live fetch

  function Seen(f: Facts, now: int): Facts {
    f.(latest := Some(Observation(now, true, true)))
  }

  function Gone(f: Facts, now: int): Facts {
    f.(notListedAt := f.notListedAt + [now])
  }

  predicate IsHttp(url: string) {
    "http://" <= url || "https://" <= url
  }

  predicate MayFetch(f: Facts, direct: set<string>) {
    IsHttp(f.url) && f.domain in direct
  }

  /** The logged request that an updated entry rests on. */
  ghost predicate Witnessed(log: seq<Fetching.LogEntry>, url: Fetching.Url, gone: bool) {
    exists k :: 0 <= k < |log| && IsWitness(log[k], url, gone)
  }

  predicate IsWitness(e: Fetching.LogEntry, url: Fetching.Url, gone: bool) {
    && e.url == url && e.purpose == Fetching.Target && e.status.Some?
    && if gone then e.status.value == 404 || e.status.value == 410 else 200 <= e.status.value < 300 && e.size > 200
  }

  /** An update says of an allowed candidate what one logged answer showed, and nothing else. */
  ghost predicate Earned(f: Facts, m: int, candidates: seq<Facts>, direct: set<string>, now: int,
                         parse: string -> Fetching.Url,
                         log: seq<Fetching.LogEntry>)
  {
    exists c :: c in candidates && EarnedBy(c, f, m, direct, now, parse, log)
  }

  ghost predicate EarnedBy(c: Facts, f: Facts, m: int, direct: set<string>, now: int, parse: string -> Fetching.Url,
                           log: seq<Fetching.LogEntry>)
  {
    && c.matchId == m && ("http://" <= c.url || "https://" <= c.url) && c.domain in direct
    && ((f == Seen(c, now) && Witnessed(log, parse(c.url), false))
        || (f == Gone(c, now) && Witnessed(log, parse(c.url), true)))
  }

  /** What the answers logged during a candidate's turn make of it: only the last one is looked at. */
  function Finding(f: Facts, now: int, answers: seq<Fetching.LogEntry>, url: Fetching.Url): Option<Facts> {
    if answers == [] then None
    else
      var last := answers[|answers| - 1];
      if IsWitness(last, url, false) then Some(Seen(f, now))
      else if IsWitness(last, url, true) then Some(Gone(f, now))
      else None
  }

  /** Only the last answer of the candidate's own address counts: a success with a body is a comparable success now, a
      404 or 410 one more absence, and anything else nothing. */
  lemma FindingExactly(f: Facts, now: int, answers: seq<Fetching.LogEntry>, url: Fetching.Url)
    ensures var own := answers != [] && answers[|answers| - 1].url == url
          && answers[|answers| - 1].purpose == Fetching.Target && answers[|answers| - 1].status.Some?;
      var (status, size) := if own then (answers[|answers| - 1].status.value, answers[|answers| - 1].size) else (0, 0);
      Finding(f, now, answers, url)
      == if 200 <= status <= 299 && size >= 201 then Some(f.(latest := Some(Observation(now, true, true))))
         else if status in {404, 410} then Some(f.(notListedAt := f.notListedAt + [now]))
         else None
  {}

  /** `marks` cut the log into turns: the answers of candidate `k` are those from mark `k` to mark `k + 1`. */
  ghost predicate Cuts(marks: seq<nat>, turns: nat, log: seq<Fetching.LogEntry>) {
    && |marks| == turns + 1
    && (forall k :: 0 <= k < |marks| ==> marks[k] <= |log|)
    && (forall i, j :: 0 <= i <= j < |marks| ==> marks[i] <= marks[j])
  }

  ghost function FindingAt(candidates: seq<Facts>, marks: seq<nat>, k: nat, now: int, parse: string -> Fetching.Url,
                           log: seq<Fetching.LogEntry>): Option<Facts>
    requires k < |candidates| && Cuts(marks, |candidates|, log)
  {
    Finding(candidates[k], now, log[marks[k]..marks[k + 1]], parse(candidates[k].url))
  }

  /** What the turns add up to; a later candidate with the same id overwrites an earlier one. */
  ghost function Updates(candidates: seq<Facts>, marks: seq<nat>, now: int, parse: string -> Fetching.Url,
                         log: seq<Fetching.LogEntry>): map<int, Facts>
    requires Cuts(marks, |candidates|, log)
  {
    if candidates == [] then map[]
    else
      var n := |candidates| - 1;
      var before := Updates(candidates[..n], marks[..n + 1], now, parse, log);
      var found := FindingAt(candidates, marks, n, now, parse, log);
      if found.Some? then before[candidates[n].matchId := found.value] else before
  }

  /** A turn was really taken: a candidate that may not be fetched costs nothing, any other one is asked for, unless the
      settled verdict of its origin forbids it or the robots check took the last request of the budget. */
  ghost predicate TurnTaken(fetcher: LiveFetcher, c: Facts, direct: set<string>, parse: string -> Fetching.Url,
                            answers: seq<Fetching.LogEntry>, spent: nat, robots: map<string, Fetching.Verdict>)
  {
    var url := parse(c.url);
    if !("http://" <= c.url || "https://" <= c.url) || c.domain !in direct then answers == []
    else
      && url.origin in robots
      && if fetcher.Forbids(robots[url.origin], url) then
           forall e :: e in answers ==> e.purpose == Fetching.Robots
         else if answers != [] && answers[|answers| - 1].purpose == Fetching.Robots then
           |answers| == 1 && spent == fetcher.budget
         else
           answers != [] && answers[|answers| - 1].purpose == Fetching.Target && answers[|answers| - 1].url == url
  }

  ghost predicate AllTaken(fetcher: LiveFetcher, candidates: seq<Facts>, direct: set<string>,
                           parse: string -> Fetching.Url,
                           marks: seq<nat>, log: seq<Fetching.LogEntry>, robots: map<string, Fetching.Verdict>)
    requires Cuts(marks, |candidates|, log)
  {
    forall k :: 0 <= k < |candidates| ==>
      TurnTaken(fetcher, candidates[k], direct, parse, log[marks[k]..marks[k + 1]], marks[k + 1], robots)
  }

  lemma SameSlice<T>(log: seq<T>, longer: seq<T>, i: nat, j: nat)
    requires log <= longer && i <= j <= |log|
    ensures longer[i..j] == log[i..j]
  {}

  lemma {:induction false} UpdatesStay(candidates: seq<Facts>, marks: seq<nat>, now: int, parse: string -> Fetching.Url,
                                       log: seq<Fetching.LogEntry>, longer: seq<Fetching.LogEntry>)
    requires Cuts(marks, |candidates|, log) && log <= longer
    ensures Cuts(marks, |candidates|, longer)
    ensures Updates(candidates, marks, now, parse, longer) == Updates(candidates, marks, now, parse, log)
  {
    if candidates != [] {
      var n := |candidates| - 1;
      UpdatesStay(candidates[..n], marks[..n + 1], now, parse, log, longer);
      SameSlice(log, longer, marks[n], marks[n + 1]);
    }
  }

  ghost predicate Keeps(settled: map<string, Fetching.Verdict>, robots: map<string, Fetching.Verdict>) {
    forall o :: o in settled ==> o in robots && robots[o] == settled[o]
  }

  lemma StillTaken(fetcher: LiveFetcher, c: Facts, direct: set<string>, parse: string -> Fetching.Url,
                   answers: seq<Fetching.LogEntry>, spent: nat, settled: map<string, Fetching.Verdict>,
                   robots: map<string, Fetching.Verdict>)
    requires TurnTaken(fetcher, c, direct, parse, answers, spent, settled) && Keeps(settled, robots)
    ensures TurnTaken(fetcher, c, direct, parse, answers, spent, robots)
  {}

  lemma CutsOnce(marks: seq<nat>, turns: nat, before: seq<Fetching.LogEntry>, after: seq<Fetching.LogEntry>)
    requires Cuts(marks, turns, before) && marks[turns] == |before| && before <= after
    ensures Cuts(marks + [|after|], turns + 1, after)
  {}

  /** One more turn: the earlier ones stand, and the updates gain what this one found. */
  lemma TakeTurn(fetcher: LiveFetcher, candidates: seq<Facts>, i: nat, direct: set<string>, now: int,
                 parse: string -> Fetching.Url,
                 marks: seq<nat>, before: seq<Fetching.LogEntry>, after: seq<Fetching.LogEntry>,
                 settled: map<string, Fetching.Verdict>, robots: map<string, Fetching.Verdict>)
    requires i < |candidates| && Cuts(marks, i, before) && marks[i] == |before| && before <= after
      && Keeps(settled, robots)
    requires AllTaken(fetcher, candidates[..i], direct, parse, marks, before, settled)
    requires TurnTaken(fetcher, candidates[i], direct, parse, after[|before|..], |after|, robots)
    ensures Cuts(marks + [|after|], i + 1, after)
    ensures AllTaken(fetcher, candidates[..i + 1], direct, parse, marks + [|after|], after, robots)
    ensures var found := Finding(candidates[i], now, after[|before|..], parse(candidates[i].url));
      var was := Updates(candidates[..i], marks, now, parse, before);
      Updates(candidates[..i + 1], marks + [|after|], now, parse, after) ==
        if found.Some? then was[candidates[i].matchId := found.value] else was
  {
    CutsOnce(marks, i, before, after);
    var more, next := marks + [|after|], candidates[..i + 1];
    assert next[..i] == candidates[..i] && more[..i + 1] == marks;
    assert after[more[i]..more[i + 1]] == after[|before|..];
    UpdatesStay(candidates[..i], marks, now, parse, before, after);
    forall k | 0 <= k < i + 1
      ensures TurnTaken(fetcher, next[k], direct, parse, after[more[k]..more[k + 1]], more[k + 1], robots)
    {
      if k < i {
        SameSlice(before, after, marks[k], marks[k + 1]);
        assert candidates[..i][k] == next[k];
        StillTaken(fetcher, next[k], direct, parse, before[marks[k]..marks[k + 1]], marks[k + 1], settled, robots);
      }
    }
  }

  lemma FindingIsWitnessed(f: Facts, now: int, log: seq<Fetching.LogEntry>, i: nat, j: nat, url: Fetching.Url)
    requires i <= j <= |log| && Finding(f, now, log[i..j], url).Some?
    ensures var g := Finding(f, now, log[i..j], url).value;
      (g == Seen(f, now) && Witnessed(log, url, false)) || (g == Gone(f, now) && Witnessed(log, url, true))
  {
    assert log[i..j][|log[i..j]| - 1] == log[j - 1];
  }

  lemma {:induction false} UpdatesAreEarned(fetcher: LiveFetcher, candidates: seq<Facts>, direct: set<string>, now: int,
                                            parse: string -> Fetching.Url, marks: seq<nat>, log: seq<Fetching.LogEntry>,
                                            robots: map<string, Fetching.Verdict>)
    requires Cuts(marks, |candidates|, log) && AllTaken(fetcher, candidates, direct, parse, marks, log, robots)
    ensures forall m :: m in Updates(candidates, marks, now, parse, log) ==>
      Earned(Updates(candidates, marks, now, parse, log)[m], m, candidates, direct, now, parse, log)
  {
    if candidates != [] {
      var n := |candidates| - 1;
      var c, init := candidates[n], candidates[..n];
      assert forall k :: 0 <= k < n ==> init[k] == candidates[k];
      UpdatesAreEarned(fetcher, init, direct, now, parse, marks[..n + 1], log, robots);
      var before, all := Updates(init, marks[..n + 1], now, parse, log), Updates(candidates, marks, now, parse, log);
      forall m | m in all
        ensures Earned(all[m], m, candidates, direct, now, parse, log)
      {
        if FindingAt(candidates, marks, n, now, parse, log).Some? && m == c.matchId {
          assert TurnTaken(fetcher, c, direct, parse, log[marks[n]..marks[n + 1]], marks[n + 1], robots);
          FindingIsWitnessed(c, now, log, marks[n], marks[n + 1], parse(c.url));
          assert c in candidates && EarnedBy(c, all[m], m, direct, now, parse, log);
        } else {
          var b :| b in init && EarnedBy(b, before[m], m, direct, now, parse, log);
          assert b in candidates;
        }
      }
    }
  }

  /** A candidate is updated exactly when its turn ended in a usable answer, and then as that answer says, provided no
      other candidate shares its id. */
  lemma {:induction false} UpdatedExactly(candidates: seq<Facts>, marks: seq<nat>, k: nat, now: int,
                                          parse: string -> Fetching.Url,
                                          log: seq<Fetching.LogEntry>)
    requires k < |candidates| && Cuts(marks, |candidates|, log)
    requires forall i, j :: 0 <= i < j < |candidates| ==> candidates[i].matchId != candidates[j].matchId
    ensures var found := FindingAt(candidates, marks, k, now, parse, log);
      var updates := Updates(candidates, marks, now, parse, log);
      if found.Some? then candidates[k].matchId in updates && updates[candidates[k].matchId] == found.value
      else candidates[k].matchId !in updates
  {
    var n := |candidates| - 1;
    if k < n {
      UpdatedExactly(candidates[..n], marks[..n + 1], k, now, parse, log);
    } else {
      UpdatesAreCandidates(candidates[..n], marks[..n + 1], now, parse, log);
    }
  }

  lemma {:induction false} UpdatesAreCandidates(candidates: seq<Facts>, marks: seq<nat>, now: int,
                                                parse: string -> Fetching.Url,
                                                log: seq<Fetching.LogEntry>)
    requires Cuts(marks, |candidates|, log)
    ensures forall m :: m in Updates(candidates, marks, now, parse, log) ==>
      exists i :: 0 <= i < |candidates| && candidates[i].matchId == m
  {
    if candidates != [] {
      var n := |candidates| - 1;
      UpdatesAreCandidates(candidates[..n], marks[..n + 1], now, parse, log);
      forall m | m in Updates(candidates, marks, now, parse, log)
        ensures exists i :: 0 <= i < |candidates| && candidates[i].matchId == m
      {
        if m != candidates[n].matchId {
          assert m in Updates(candidates[..n], marks[..n + 1], now, parse, log);
          var i :| 0 <= i < n && candidates[..n][i].matchId == m;
          assert candidates[i].matchId == m;
        }
      }
    }
  }

  /** A raw 404 or 410 counts as a validated absence, although the rules say that it never does: a match without any
      observation leaves the live fetch with one absence on record. A second look is requested, except where the
      domain's identifiers are misread and the match has one: there that one answer settles it as an invalid
      identity. */
  lemma RawNotFoundCounts(c: Facts, url: Fetching.Url, status: int, size: nat, now: int, parse: string -> Fetching.Url,
                          recentDays: int, invalidDomains: set<string>, gap: int)
    requires (status == 404 || status == 410) && parse(c.url) == url && c.notListedAt == [] && c.latest == None
      && gap > 0
    ensures var log := [Fetching.LogEntry(url, Some(status), size, Fetching.Target)];
      && Cuts([0, 1], 1, log) && Updates([c], [0, 1], now, parse, log) == map[c.matchId := Gone(c, now)]
    ensures Classify(c, now, recentDays, invalidDomains, gap) == Classification(Unknown, NeverObserved, false)
    ensures Classify(Gone(c, now), now, recentDays, invalidDomains, gap) ==
      if c.domain in invalidDomains && c.variantIdentifier.Some? && c.variantIdentifier.value != ""
      then Classification(InvalidIdentity, Misread([now]), false)
      else Classification(Unknown, SingleAbsence(1, now, now), true)
  {
    var log := [Fetching.LogEntry(url, Some(status), size, Fetching.Target)];
    assert [c][..0] == [] && log[0..1] == log;
    assert Updates([c][..0], [0, 1][..1], now, parse, log) == map[];
    assert FindingAt([c], [0, 1], 0, now, parse, log) == Some(Gone(c, now));
    assert Gone(c, now).notListedAt == [now] && Sorted([now]) == [now];
  }

  /** `enrich_never_observed_via_fetch`.  The candidates reached are all of them, or those before the budget ran out. */
  method EnrichNeverObserved(candidates: seq<Facts>, fetcher: LiveFetcher, direct: set<string>, now: int,
                             parse: string -> Fetching.Url)
    returns (updated: map<int, Facts>, ghost reached: nat, ghost marks: seq<nat>)
    requires fetcher.Valid()
    modifies fetcher, fetcher.world
    ensures fetcher.Valid() && old(fetcher.log) <= fetcher.log
    ensures |fetcher.log| <= |old(fetcher.log)| + 2 * |candidates|
    ensures reached <= |candidates| && (reached < |candidates| ==> fetcher.requestsMade >= fetcher.budget)
    ensures Cuts(marks, reached, fetcher.log) && marks[0] == |old(fetcher.log)| && marks[reached] == |fetcher.log|
    ensures forall k :: 0 <= k < reached ==> marks[k] < fetcher.budget
    ensures AllTaken(fetcher, candidates[..reached], direct, parse, marks, fetcher.log, fetcher.robots)
    ensures updated == Updates(candidates[..reached], marks, now, parse, fetcher.log)
    ensures forall m :: m in updated ==> Earned(updated[m], m, candidates, direct, now, parse, fetcher.log)
  {
    updated, reached, marks := map[], 0, [|fetcher.log|];
    for i := 0 to |candidates|
      invariant fetcher.Valid() && old(fetcher.log) <= fetcher.log && |fetcher.log| <= |old(fetcher.log)| + 2 * i
      invariant reached == i && Cuts(marks, i, fetcher.log)
      invariant marks[0] == |old(fetcher.log)| && marks[i] == |fetcher.log|
      invariant forall k :: 0 <= k < i ==> marks[k] < fetcher.budget
      invariant AllTaken(fetcher, candidates[..i], direct, parse, marks, fetcher.log, fetcher.robots)
      invariant updated == Updates(candidates[..i], marks, now, parse, fetcher.log)
    {
      if fetcher.budget - fetcher.requestsMade <= 0 {
        break;
      }
      ghost var before, settled := fetcher.log, fetcher.robots;
      var found: Option<Facts> := None;
      if MayFetch(candidates[i], direct) {
        found := FetchOne(candidates[i], fetcher, direct, now, parse);
      }
      TakeTurn(fetcher, candidates, i, direct, now, parse, marks, before, fetcher.log, settled, fetcher.robots);
      marks := marks + [|fetcher.log|];
      reached := reached + 1;
      if found.Some? {
        updated := updated[candidates[i].matchId := found.value];
      }
    }
    UpdatesAreEarned(fetcher, candidates[..reached], direct, now, parse, marks, fetcher.log, fetcher.robots);
    forall m | m in updated ensures Earned(updated[m], m, candidates, direct, now, parse, fetcher.log) {
      var c :| c in candidates[..reached] && EarnedBy(c, updated[m], m, direct, now, parse, fetcher.log);
    }
  }

  /** One candidate: a usable answer is a success with a body, or a definite absence; anything else leaves it alone. */
  method FetchOne(f: Facts, fetcher: LiveFetcher, ghost direct: set<string>, now: int, parse: string -> Fetching.Url)
    returns (found: Option<Facts>)
    requires fetcher.Valid() && MayFetch(f, direct) && fetcher.requestsMade < fetcher.budget
    modifies fetcher, fetcher.world
    ensures fetcher.Valid() && fetcher.Extends() && |fetcher.log| <= |old(fetcher.log)| + 2
    ensures found == Finding(f, now, fetcher.log[|old(fetcher.log)|..], parse(f.url))
    ensures TurnTaken(fetcher, f, direct, parse, fetcher.log[|old(fetcher.log)|..], |fetcher.log|, fetcher.robots)
  {
    var status, size, outcome := fetcher.Fetch(parse(f.url));
    ghost var answers := fetcher.log[|old(fetcher.log)|..];
    assert answers != [] ==> answers[|answers| - 1] == fetcher.log[|fetcher.log| - 1];
    assert forall i :: 0 <= i < |answers| ==> answers[i] == fetcher.log[|old(fetcher.log)| + i];
    if outcome != Fetched || status.None? {
      return None;
    }
    if 200 <= status.value < 300 && size > 200 {
      return Some(Seen(f, now));
    }
    if status.value == 404 || status.value == 410 {
      return Some(Gone(f, now));
    }
    return None;
  }

  /** The live fetch alone never confirms a delisting: an update of a match without earlier absences is ACTIVE,
      misread, or waits for its second look. */
  lemma OneFetchNeverConfirms(c: Facts, f: Facts, m: int, direct: set<string>, now: int, parse: string -> Fetching.Url,
                              log: seq<Fetching.LogEntry>, recentDays: int, invalidDomains: set<string>, gap: int)
    requires EarnedBy(c, f, m, direct, now, parse, log) && c.notListedAt == [] && gap > 0
    ensures Classify(f, now, recentDays, invalidDomains, gap).state != ConfirmedDelisted
    ensures f == Gone(c, now) && !IsMisread(f, invalidDomains) ==>
      Classify(f, now, recentDays, invalidDomains, gap) == Classification(Unknown, SingleAbsence(1, now, now), true)
  {
    ConfirmedExactly(f, now, recentDays, invalidDomains, gap);
    if f == Gone(c, now) {
      assert f.notListedAt == [now];
    }
  }
}
