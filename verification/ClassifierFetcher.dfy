/** `LiveFetcher` of scripts/classify_match_set.py. */
module ClassifierFetcher {
  import opened Wrappers
  import opened Fetching

  const MIN_REQUEST_INTERVAL_SECONDS := 0.5

  datatype Outcome = OutOfBudget | RobotsDisallowed | Fetched

  class LiveFetcher {
    const world: World
    const budget: int
    const canFetch: (string, Url) -> bool
    var requestsMade: nat
    var log: seq<LogEntry>
    var robots: map<string, Verdict>
    var lastRequestAt: map<string, real>
    /** When each logged request was admitted by the rate limiter. */
    ghost var admitted: seq<real>
    /** The text each logged request brought back. */
    ghost var served: seq<string>
    /** How long the log was when each robots verdict was settled. */
    ghost var settledAt: map<string, nat>

    constructor (world: World, budget: int, canFetch: (string, Url) -> bool)
      ensures Valid() && this.world == world && this.budget == budget && this.canFetch == canFetch
      ensures log == [] && robots == map[]
    {
      this.world := world;
      this.budget := budget;
      this.canFetch := canFetch;
      requestsMade := 0;
      log := [];
      robots := map[];
      lastRequestAt := map[];
      admitted := [];
      served := [];
      settledAt := map[];
    }

    /** `cached.can_fetch(...)`, or the conventional answer when there are no rules. */
    predicate Permits(v: Verdict, url: Url) {
      match v
      case BudgetExhausted => false
      case DisallowAll => false
      case NoRules => true
      case Rules(text) => canFetch(text, url)
    }

    ghost predicate Bounded()
      reads this
    {
      requestsMade == |log| == |served| && (requestsMade == 0 || requestsMade <= budget)
    }

    /** Admissions to one origin are spaced, and never later than the limiter's last. */
    ghost predicate Paced()
      reads this, world
    {
      && Spaced(log, admitted, MIN_REQUEST_INTERVAL_SECONDS)
      && (forall i :: 0 <= i < |log| ==>
            log[i].url.origin in lastRequestAt && admitted[i] <= lastRequestAt[log[i].url.origin])
      && (forall o :: o in lastRequestAt ==> lastRequestAt[o] <= world.now)
    }

    /** Every target was requested after its origin's verdict was settled, and that verdict permits it. */
    ghost predicate Polite()
      reads this
    {
      && settledAt.Keys == robots.Keys
      && (forall o :: o in settledAt ==> settledAt[o] <= |log|)
      && (forall i :: 0 <= i < |log| && log[i].purpose == Target ==>
            && log[i].url.origin in robots
            && settledAt[log[i].url.origin] <= i
            && !Forbids(robots[log[i].url.origin], log[i].url))
    }

    /** A verdict that was never asked for or refuses everything, or rules that do not let the URL through. */
    predicate Forbids(v: Verdict, url: Url) {
      v == BudgetExhausted || v == DisallowAll || (v.Rules? && !canFetch(v.text, url))
    }

    ghost predicate Valid()
      reads this, world
    {
      Bounded() && Paced() && Polite()
    }

    /** Nothing logged is rewritten and no verdict ever changes. */
    twostate predicate Extends()
      reads this
    {
      && old(log) <= log
      && (forall o :: o in old(robots) ==> o in robots && robots[o] == old(robots[o]))
    }

    /** What the last robots answer, if there was one, makes of a verdict: its rules after a success, none after
        anything else, and a refusal when there was no budget to ask. */
    ghost predicate Settles(v: Verdict, before: nat)
      reads this
    {
      if |log| <= before || |served| != |log| then v == BudgetExhausted
      else
        var status := log[|log| - 1].status;
        if status.Some? && 200 <= status.value < 300 then v == Rules(served[|log| - 1]) else v == NoRules
    }

    /** The rate limiter has admitted one request to `origin` that has not been made yet. */
    ghost predicate Admits(origin: string)
      reads this
    {
      && origin in lastRequestAt
      && |admitted| == |log|
      && forall i :: 0 <= i < |log| && log[i].url.origin == origin ==>
           lastRequestAt[origin] - admitted[i] >= MIN_REQUEST_INTERVAL_SECONDS
    }

    method RateLimit(origin: string)
      requires Valid()
      modifies this`lastRequestAt, world
      ensures Valid() && Admits(origin)
      ensures origin in old(lastRequestAt) ==>
        lastRequestAt[origin] >= old(lastRequestAt[origin]) + MIN_REQUEST_INTERVAL_SECONDS
      ensures lastRequestAt == old(lastRequestAt)[origin := lastRequestAt[origin]]
    {
      if origin in lastRequestAt {
        var last := lastRequestAt[origin];
        var now := world.Monotonic();
        var elapsed := now - last;
        if elapsed < MIN_REQUEST_INTERVAL_SECONDS {
          world.Sleep(MIN_REQUEST_INTERVAL_SECONDS - elapsed);
        }
      }
      var now := world.Monotonic();
      lastRequestAt := lastRequestAt[origin := now];
    }

    /** One logged GET, or nothing at all when the budget is used up. */
    method RawGet(url: Url, purpose: Purpose) returns (r: Response, made: bool)
      requires Valid() && Admits(url.origin)
      requires purpose == Target ==> url.origin in robots && Permits(robots[url.origin], url)
      requires purpose == Target ==> settledAt[url.origin] <= |log|
      modifies this`requestsMade, this`log, this`admitted, this`served, world
      ensures Valid()
      ensures made <==> old(requestsMade) < budget
      ensures log == if made then old(log) + [LogEntry(url, r.status, r.size, purpose)] else old(log)
      ensures served == if made then old(served) + [r.rules] else old(served)
      ensures made ==> admitted == old(admitted) + [lastRequestAt[url.origin]]
      ensures !made ==> r.status == None && r.size == 0
    {
      if requestsMade >= budget {
        return Response(None, 0, "", None), false;
      }
      requestsMade := requestsMade + 1;
      r := world.Get(url);
      log := log + [LogEntry(url, r.status, r.size, purpose)];
      served := served + [r.rules];
      admitted := admitted + [lastRequestAt[url.origin]];
      made := true;
    }

    /** Whatever was called before: no window of time holds more than its length over the interval, plus one, admissions
        to one origin. */
    lemma WindowsHoldFew(origin: string, t: real, length: real)
      requires Valid() && length >= 0.0
      ensures |Window(log, admitted, origin, t, length)| as real <= length / MIN_REQUEST_INTERVAL_SECONDS + 1.0
    {
      WindowHoldsFew(log, admitted, origin, t, length, MIN_REQUEST_INTERVAL_SECONDS);
    }

    method RobotsAllows(url: Url) returns (allowed: bool)
      requires Valid()
      modifies this, world
      ensures Valid() && Extends()
      ensures url.origin in robots && (allowed <==> Permits(robots[url.origin], url))
      ensures url.origin in old(robots) ==> log == old(log) && robots == old(robots)
      ensures url.origin !in old(robots) ==>
        && robots == old(robots)[url.origin := robots[url.origin]]
        && (|log| > |old(log)| <==> old(requestsMade) < budget)
        && Settles(robots[url.origin], |old(log)|)
      ensures log == old(log)
           || (|log| == |old(log)| + 1 && log[|log| - 1].url == RobotsUrl(url.origin)
               && log[|log| - 1].purpose == Robots)
    {
      var origin := url.origin;
      if origin !in robots {
        if requestsMade >= budget {
          robots := robots[origin := BudgetExhausted];
        } else {
          RateLimit(origin);
          var r, made := RawGet(RobotsUrl(origin), Robots);
          robots := robots[origin :=
            if r.status.Some? && 200 <= r.status.value < 300 then Rules(r.rules) else NoRules];
        }
        settledAt := settledAt[origin := |log|];
      }
      allowed := Permits(robots[origin], url);
    }

    /** The robots check would take the last request of the budget. */
    predicate RobotsTakeTheLast(origin: string)
      reads this
    {
      origin !in robots && requestsMade + 1 == budget
    }

    /** Fetch `url` if budget and robots allow. An outcome of `Fetched` stands for a logged request to the target,
        unless the robots check took the last of the budget: then it comes with no status and nothing but the robots
        request. */
    method Fetch(url: Url) returns (status: Option<int>, size: nat, outcome: Outcome)
      requires Valid()
      modifies this, world
      ensures Valid() && Extends()
      ensures outcome == OutOfBudget <==> old(requestsMade) >= budget
      ensures outcome == OutOfBudget ==> log == old(log) && robots == old(robots)
      ensures outcome != OutOfBudget ==> url.origin in robots
      ensures outcome == RobotsDisallowed ==>
        Forbids(robots[url.origin], url) && forall i :: |old(log)| <= i < |log| ==> log[i].purpose == Robots
      ensures outcome == Fetched ==> !Forbids(robots[url.origin], url)
      ensures status.Some? ==>
        outcome == Fetched && log != [] && log[|log| - 1] == LogEntry(url, status, size, Target) && |old(log)| < |log|
      ensures outcome == Fetched ==>
        if old(RobotsTakeTheLast(url.origin)) then
          && status == None && size == 0 && |log| == |old(log)| + 1
          && forall i :: |old(log)| <= i < |log| ==> log[i].purpose == Robots
        else
          |old(log)| < |log| && log[|log| - 1] == LogEntry(url, status, size, Target)
      ensures |log| <= |old(log)| + 2
    {
      if requestsMade >= budget {
        return None, 0, OutOfBudget;
      }
      var allowed := RobotsAllows(url);
      if !allowed {
        return None, 0, RobotsDisallowed;
      }
      RateLimit(url.origin);
      var r, made := RawGet(url, Target);
      return r.status, r.size, Fetched;
    }
  }
}
