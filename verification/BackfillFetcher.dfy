/** `LiveFetcher` of scripts/migrate_stech_identifiers.py, with its 429 backoff. */
module BackfillFetcher {
  import opened Wrappers
  import opened Fetching

  const REQUEST_HARD_CAP := 2000
  const MIN_REQUEST_INTERVAL_FLOOR := 0.5
  const RETRY_ON_429 := 3

  /** `RETRY_BACKOFF_SECONDS[min(attempt, len - 1)]` */
  function Backoff(attempt: nat): real {
    if attempt == 0 then 5.0 else if attempt == 1 then 15.0 else 45.0
  }

  datatype Note = OutOfBudget | RobotsDisallowed | RateLimited429 | BadStatus | Answered

  /** The entry logs this answer. */
  predicate Answers(e: LogEntry, r: Response) {
    e.status == r.status && e.size == r.size
  }

  /** When an answer was in, and the delay that a 429 asked for in `Retry-After` (zero if it asked for none). */
  datatype Reply = Reply(at: real, asked: real)

  function AskedBy(r: Response): real {
    if r.status == Some(429) && r.retryAfter.Some? then r.retryAfter.value else 0.0
  }

  /** Entry `i` retries entry `i - 1`: only after a 429, and only once its backoff and whatever delay it asked for have
      passed since the answer. */
  ghost predicate RetriesLast(log: seq<LogEntry>, admitted: seq<real>, answered: seq<Reply>, start: nat, i: int)
    requires start < i < |log| == |admitted| == |answered|
  {
    && log[i - 1].status == Some(429)
    && admitted[i] >= answered[i - 1].at + (if i == start + 1 then 5.0 else if i == start + 2 then 15.0 else 45.0)
    && admitted[i] >= answered[i - 1].at + answered[i - 1].asked
  }

  /** From entry `start` on, the log holds the attempts at one URL. */
  ghost predicate Retries(log: seq<LogEntry>, admitted: seq<real>, answered: seq<Reply>, start: nat, url: Url,
                          purpose: Purpose)
    requires start <= |log| == |admitted| == |answered|
  {
    && (forall i :: start <= i < |log| ==> log[i].url == url && log[i].purpose == purpose)
    && (forall i :: start < i < |log| ==> RetriesLast(log, admitted, answered, start, i))
  }

  lemma RetriesGrow(log: seq<LogEntry>, admitted: seq<real>, answered: seq<Reply>, start: nat, e: LogEntry, at: real,
                    done: Reply)
    requires start < |log| == |admitted| == |answered|
    requires Retries(log, admitted, answered, start, e.url, e.purpose)
    requires log[|log| - 1].status == Some(429)
    requires at >= answered[|log| - 1].at + Backoff(|log| - start - 1)
      && at >= answered[|log| - 1].at + answered[|log| - 1].asked
    ensures Retries(log + [e], admitted + [at], answered + [done], start, e.url, e.purpose)
  {
    forall i | start < i < |log| + 1
      ensures RetriesLast(log + [e], admitted + [at], answered + [done], start, i)
    {
      if i < |log| { assert RetriesLast(log, admitted, answered, start, i); }
    }
  }

  class LiveFetcher {
    const world: World
    const budget: int
    const minInterval: real
    const canFetch: (string, Url) -> bool
    var requestsMade: nat
    var rateLimited: nat
    var log: seq<LogEntry>
    var robots: map<string, Verdict>
    var lastRequestAt: map<string, real>
    var retryAfter: map<Url, real>
    /** When each logged request was admitted by the rate limiter, and when its answer was in. */
    ghost var admitted: seq<real>
    ghost var answered: seq<Reply>
    /** The text each logged request brought back. */
    ghost var served: seq<string>
    /** How long the log was when each robots verdict was settled. */
    ghost var settledAt: map<string, nat>

    constructor (world: World, budget: int, minInterval: real, canFetch: (string, Url) -> bool)
      ensures Valid() && this.world == world
      ensures this.budget <= REQUEST_HARD_CAP && this.budget <= budget
      ensures this.minInterval >= MIN_REQUEST_INTERVAL_FLOOR && this.minInterval >= minInterval
      ensures log == [] && robots == map[]
    {
      this.world := world;
      this.budget := if budget < REQUEST_HARD_CAP then budget else REQUEST_HARD_CAP;
      this.minInterval := if minInterval > MIN_REQUEST_INTERVAL_FLOOR then minInterval else MIN_REQUEST_INTERVAL_FLOOR;
      this.canFetch := canFetch;
      requestsMade := 0;
      rateLimited := 0;
      log := [];
      robots := map[];
      lastRequestAt := map[];
      retryAfter := map[];
      admitted := [];
      answered := [];
      served := [];
      settledAt := map[];
    }

    predicate Permits(v: Verdict, url: Url) {
      match v
      case BudgetExhausted => false
      case DisallowAll => false
      case NoRules => true
      case Rules(text) => canFetch(text, url)
    }

    predicate Last(url: Url, purpose: Purpose, status: Option<int>)
      reads this
    {
      log != [] && log[|log| - 1].url == url && log[|log| - 1].purpose == purpose && log[|log| - 1].status == status
    }

    /** Since the log had `start` entries the document was answered badly, by no 429, or the budget is gone. */
    predicate BadAnswer(url: Url, start: nat)
      reads this
    {
      if log != [] && log[|log| - 1].url == url && log[|log| - 1].purpose == Target
         && log[|log| - 1].status != Some(429)
      then |log| > start && !(log[|log| - 1].status == Some(200) && log[|log| - 1].size > 0)
      else requestsMade >= budget
    }

    ghost predicate Bounded()
      reads this
    {
      requestsMade == |log| == |served| && (requestsMade == 0 || requestsMade <= budget)
    }

    ghost predicate Paced()
      reads this, world
    {
      && Spaced(log, admitted, minInterval)
      && |answered| == |log|
      && (forall i :: 0 <= i < |log| ==>
            log[i].url.origin in lastRequestAt && admitted[i] <= lastRequestAt[log[i].url.origin])
      && (forall o :: o in lastRequestAt ==> lastRequestAt[o] <= world.now)
    }

    ghost predicate Polite()
      reads this
    {
      && settledAt.Keys == robots.Keys
      && (forall o :: o in settledAt ==> settledAt[o] <= |log|)
      && (forall i :: 0 <= i < |log| && log[i].purpose == Target ==>
            && log[i].url.origin in robots
            && settledAt[log[i].url.origin] <= i
            && !Forbids(robots[log[i].url.origin], log[i].url))
    }

    /** A verdict that was never asked for or refuses everything, or rules that do not let the URL through. */
    predicate Forbids(v: Verdict, url: Url) {
      v == BudgetExhausted || v == DisallowAll || (v.Rules? && !canFetch(v.text, url))
    }

    /** What the last robots answer, if there was one, makes of a verdict: its rules after a 200 with a body, a refusal
        after a 401 or a 403 or when there was no budget to ask, and none after anything else. */
    ghost predicate Settles(v: Verdict, before: nat)
      reads this
    {
      if |log| <= before || |served| != |log| then v == BudgetExhausted
      else
        var e := log[|log| - 1];
        if e.status == Some(200) && e.size > 0 then v == Rules(served[|log| - 1])
        else if e.status == Some(401) || e.status == Some(403) then v == DisallowAll
        else v == NoRules
    }

    /** The answer's text is the last one served. */
    ghost predicate Serves(r: Response)
      reads this
    {
      r.status.Some? ==> served != [] && served[|served| - 1] == r.rules
    }

    ghost predicate Valid()
      reads this, world
    {
      minInterval >= MIN_REQUEST_INTERVAL_FLOOR && Bounded() && Paced() && Polite()
    }

    /** Nothing logged is rewritten and no verdict ever changes. */
    twostate predicate Extends()
      reads this
    {
      && old(log) <= log && |old(admitted)| <= |admitted| && |old(answered)| <= |answered|
      && (forall o :: o in old(robots) ==> o in robots && robots[o] == old(robots[o]))
    }

    ghost predicate Admits(origin: string)
      reads this
    {
      && origin in lastRequestAt
      && |admitted| == |log|
      && forall i :: 0 <= i < |log| && log[i].url.origin == origin ==>
        lastRequestAt[origin] - admitted[i] >= minInterval
    }

    method RateLimit(origin: string)
      requires Valid()
      modifies this`lastRequestAt, world
      ensures Valid() && Admits(origin)
      ensures old(world.now) <= lastRequestAt[origin] == world.now
      ensures origin in old(lastRequestAt) ==> lastRequestAt[origin] >= old(lastRequestAt[origin]) + minInterval
      ensures lastRequestAt == old(lastRequestAt)[origin := lastRequestAt[origin]]
    {
      if origin in lastRequestAt {
        var previous := lastRequestAt[origin];
        var now := world.Monotonic();
        var elapsed := now - previous;
        if elapsed < minInterval {
          world.Sleep(minInterval - elapsed);
        }
      }
      var now := world.Monotonic();
      lastRequestAt := lastRequestAt[origin := now];
    }

    /** A delay that the last answer asked for is noted for its URL. */
    ghost predicate Notes(url: Url)
      reads this
    {
      answered != [] && (answered[|answered| - 1].asked != 0.0 ==>
          url in retryAfter && retryAfter[url] == answered[|answered| - 1].asked)
    }

    /** The admitted request itself: counted, made and logged. */
    method Issue(url: Url, purpose: Purpose) returns (r: Response)
      requires Valid() && Admits(url.origin) && requestsMade < budget
      requires purpose == Target ==> url.origin in robots && Permits(robots[url.origin], url)
      modifies this`requestsMade, this`log, this`admitted, this`answered, this`served, this`retryAfter, world
      ensures Valid() && world.now >= old(world.now)
      ensures log == old(log) + [LogEntry(url, r.status, r.size, purpose)]
      ensures served == old(served) + [r.rules]
      ensures admitted == old(admitted) + [lastRequestAt[url.origin]]
      ensures answered == old(answered) + [Reply(world.now, AskedBy(r))] && Notes(url)
    {
      requestsMade := requestsMade + 1;
      r := GetAndNote(url);
      SpacedPush(log, admitted, LogEntry(url, r.status, r.size, purpose), lastRequestAt[url.origin], minInterval);
      log := log + [LogEntry(url, r.status, r.size, purpose)];
      admitted := admitted + [lastRequestAt[url.origin]];
      served := served + [r.rules];
      answered := answered + [Reply(world.now, AskedBy(r))];
    }

    method GetAndNote(url: Url) returns (r: Response)
      modifies this`retryAfter, world
      ensures world.now >= old(world.now)
      ensures AskedBy(r) != 0.0 ==> url in retryAfter && retryAfter[url] == AskedBy(r)
    {
      r := world.Get(url);
      if r.status == Some(429) && r.retryAfter.Some? {
        retryAfter := retryAfter[url := r.retryAfter.value];
      }
    }

    /** One rate-limited, logged GET, or nothing at all when the budget is used up. */
    method RawGet(url: Url, purpose: Purpose) returns (r: Response)
      requires Valid()
      requires purpose == Target ==> url.origin in robots && Permits(robots[url.origin], url)
      modifies this`requestsMade, this`log, this`admitted, this`answered, this`served,
               this`lastRequestAt, this`retryAfter, world
      ensures Valid() && world.now >= old(world.now)
      ensures old(requestsMade) >= budget ==>
        r == Response(None, 0, "", None) && log == old(log) && admitted == old(admitted) && answered == old(answered)
      ensures old(requestsMade) < budget ==>
        && log == old(log) + [LogEntry(url, r.status, r.size, purpose)]
        && served == old(served) + [r.rules]
        && |admitted| == |old(admitted)| + 1
        && admitted == old(admitted) + [admitted[|old(admitted)|]]
        && admitted[|old(admitted)|] >= old(world.now)
        && answered == old(answered) + [Reply(world.now, AskedBy(r))] && Notes(url)
    {
      if requestsMade >= budget {
        return Response(None, 0, "", None);
      }
      RateLimit(url.origin);
      r := Issue(url, purpose);
    }

    /** The last entry logs this answer, or it is a 429 whose retry the budget no longer allowed. */
    predicate AnsweredOrCut(r: Response)
      reads this
    {
      log != [] && (Answers(log[|log| - 1], r)
                    || (r.status == None && log[|log| - 1].status == Some(429) && requestsMade >= budget))
    }

    /** `RawGet` plus retries on 429: at most three, each only after a 429 and only after its backoff and any longer
        delay that it asked for have passed. */
    method GetWithBackoff(url: Url, purpose: Purpose) returns (r: Response)
      requires Valid()
      requires purpose == Target ==> url.origin in robots && Permits(robots[url.origin], url)
      modifies this`requestsMade, this`rateLimited, this`log, this`admitted, this`answered, this`served,
               this`lastRequestAt, this`retryAfter, world
      ensures Valid() && old(log) <= log && old(admitted) <= admitted && old(answered) <= answered
      ensures |log| <= |old(log)| + 1 + RETRY_ON_429
      ensures old(requestsMade) >= budget ==> log == old(log) && r.status == None
      ensures old(requestsMade) < budget ==> |log| > |old(log)|
      ensures Retries(log, admitted, answered, |old(log)|, url, purpose)
      ensures r.status.Some? ==> |log| > |old(log)| && Answers(log[|log| - 1], r)
      ensures |log| > |old(log)| ==> AnsweredOrCut(r)
      ensures r.status == Some(429) ==> |log| == |old(log)| + 1 + RETRY_ON_429
      ensures Serves(r)
    {
      ghost var start, funded := |log|, requestsMade < budget;
      r := RawGet(url, purpose);
      var attempt := 0;
      while r.status == Some(429) && attempt < RETRY_ON_429
        invariant Valid() && 0 <= attempt <= RETRY_ON_429
        invariant old(log) <= log && old(admitted) <= admitted && old(answered) <= answered
        invariant |log| <= start + 1 + attempt
        invariant funded ==> |log| > start
        invariant !funded ==> log == old(log) && r.status == None
        invariant r.status.Some? ==> |log| == start + 1 + attempt && Answers(log[|log| - 1], r)
        invariant |log| > start ==> AnsweredOrCut(r)
        invariant Serves(r)
        invariant r.status.Some? ==> Notes(url)
        invariant r.status.Some? ==> answered[|log| - 1].at <= world.now
        invariant Retries(log, admitted, answered, start, url, purpose)
      {
        r := Retry(url, purpose, attempt, start);
        attempt := attempt + 1;
      }
    }

    /** The longer of the table's delay and one that a response asked for, which is then forgotten. */
    method Delay(url: Url, attempt: nat) returns (delay: real)
      modifies this`retryAfter
      ensures delay == if url in old(retryAfter) && old(retryAfter[url]) > Backoff(attempt) then old(retryAfter[url])
        else Backoff(attempt)
      ensures retryAfter == old(retryAfter) - {url}
    {
      delay := Backoff(attempt);
      if url in retryAfter {
        var asked := retryAfter[url];
        retryAfter := retryAfter - {url};
        delay := if asked > delay then asked else delay;
      }
    }

    /** One turn of the backoff loop: wait as long as the table and any `Retry-After` ask, then try again. */
    method Retry(url: Url, purpose: Purpose, attempt: nat, ghost start: nat) returns (r: Response)
      requires Valid()
      requires purpose == Target ==> url.origin in robots && Permits(robots[url.origin], url)
      requires |log| == start + 1 + attempt && Retries(log, admitted, answered, start, url, purpose)
      requires log[|log| - 1].status == Some(429) && answered[|log| - 1].at <= world.now && Notes(url)
      modifies this`requestsMade, this`rateLimited, this`log, this`admitted, this`answered, this`served,
               this`lastRequestAt, this`retryAfter, world
      ensures Valid() && old(log) <= log && old(admitted) <= admitted && old(answered) <= answered
      ensures Retries(log, admitted, answered, start, url, purpose)
      ensures |log| <= |old(log)| + 1
      ensures r.status.Some? ==>
        |log| == |old(log)| + 1 && Answers(log[|log| - 1], r) && answered[|log| - 1].at <= world.now
      ensures |log| > |old(log)| ==> Answers(log[|log| - 1], r)
      ensures Serves(r)
      ensures |log| == |old(log)| ==> r.status == None && requestsMade >= budget
      ensures |log| > |old(log)| ==> Notes(url)
      ensures url in old(retryAfter) && |log| > |old(log)| ==>
        admitted[|log| - 1] >= old(answered[|log| - 1]).at + old(retryAfter[url])
    {
      rateLimited := rateLimited + 1;
      var delay := Delay(url, attempt);
      world.Sleep(delay);
      r := RawGet(url, purpose);
      if |log| > |old(log)| {
        RetriesGrow(old(log), old(admitted), old(answered), start, log[|old(log)|], admitted[|old(log)|],
                    answered[|old(log)|]);
      }
    }

    /** Whatever was called before: no window of time holds more than its length over the interval, plus one, admissions
        to one origin. */
    lemma WindowsHoldFew(origin: string, t: real, length: real)
      requires Valid() && length >= 0.0
      ensures |Window(log, admitted, origin, t, length)| as real <= length / minInterval + 1.0
    {
      WindowHoldsFew(log, admitted, origin, t, length, minInterval);
    }

    /** Ask an origin for its rules, if there is budget left. */
    method AskForRules(origin: string) returns (verdict: Verdict)
      requires Valid()
      modifies this`requestsMade, this`rateLimited, this`log, this`admitted, this`answered, this`served,
               this`lastRequestAt, this`retryAfter, world
      ensures Valid() && old(log) <= log && old(admitted) <= admitted && old(answered) <= answered
      ensures Settles(verdict, |old(log)|)
      ensures |log| > |old(log)| <==> old(requestsMade) < budget
      ensures |log| <= |old(log)| + 1 + RETRY_ON_429
      ensures forall i :: |old(log)| <= i < |log| ==> log[i].url == RobotsUrl(origin) && log[i].purpose == Robots
    {
      if requestsMade >= budget {
        return BudgetExhausted;
      }
      var r := GetWithBackoff(RobotsUrl(origin), Robots);
      verdict :=
        if r.status == Some(200) && r.size > 0 then Rules(r.rules)
        else if r.status == Some(401) || r.status == Some(403) then DisallowAll
        else NoRules;
    }

    /** Ask an origin for its rules, once. */
    method Settle(origin: string)
      requires Valid() && origin !in robots
      modifies this, world
      ensures Valid() && Extends()
      ensures origin in robots && robots == old(robots)[origin := robots[origin]]
        && Settles(robots[origin], |old(log)|)
      ensures |log| > |old(log)| <==> old(requestsMade) < budget
      ensures |log| <= |old(log)| + 1 + RETRY_ON_429
      ensures forall i :: |old(log)| <= i < |log| ==> log[i].url == RobotsUrl(origin) && log[i].purpose == Robots
    {
      var verdict := AskForRules(origin);
      robots := robots[origin := verdict];
      settledAt := settledAt[origin := |log|];
    }

    method RobotsAllows(url: Url) returns (allowed: bool)
      requires Valid()
      modifies this, world
      ensures Valid() && Extends()
      ensures url.origin in robots && (allowed <==> Permits(robots[url.origin], url))
      ensures url.origin in old(robots) ==> log == old(log) && robots == old(robots)
      ensures url.origin !in old(robots) ==>
        && robots == old(robots)[url.origin := robots[url.origin]]
        && (|log| > |old(log)| <==> old(requestsMade) < budget)
        && Settles(robots[url.origin], |old(log)|)
      ensures |log| <= |old(log)| + 1 + RETRY_ON_429
      ensures forall i :: |old(log)| <= i < |log| ==> log[i].url == RobotsUrl(url.origin) && log[i].purpose == Robots
    {
      if url.origin !in robots {
        Settle(url.origin);
      }
      allowed := Permits(robots[url.origin], url);
    }

    /** `product_json`, up to the parsing of the document. */
    method ProductJson(url: Url) returns (note: Note)
      requires Valid()
      modifies this, world
      ensures Valid() && Extends()
      ensures note == OutOfBudget <==> old(requestsMade) >= budget
      ensures note == OutOfBudget ==> log == old(log) && robots == old(robots)
      ensures note != OutOfBudget ==> url.origin in robots
      ensures note == RobotsDisallowed ==>
        Forbids(robots[url.origin], url) && forall i :: |old(log)| <= i < |log| ==> log[i].purpose == Robots
      ensures note !in {OutOfBudget, RobotsDisallowed} ==> !Forbids(robots[url.origin], url)
      ensures note == Answered ==> Last(url, Target, Some(200)) && log[|log| - 1].size > 0
      ensures note == RateLimited429 ==> Last(url, Target, Some(429))
      ensures note == BadStatus ==> BadAnswer(url, |old(log)|)
      ensures |log| <= |old(log)| + 2 * (1 + RETRY_ON_429)
    {
      if requestsMade >= budget {
        return OutOfBudget;
      }
      var allowed := RobotsAllows(url);
      if !allowed {
        return RobotsDisallowed;
      }
      note := Ask(url);
    }

    /** A permitted request for a document, and what its last answer amounts to. */
    method Ask(url: Url) returns (note: Note)
      requires Valid() && url.origin in robots && Permits(robots[url.origin], url)
      requires requestsMade >= budget ==> log != [] && log[|log| - 1].purpose == Robots
      modifies this`requestsMade, this`rateLimited, this`log, this`admitted, this`answered, this`served,
               this`lastRequestAt, this`retryAfter, world
      ensures Valid() && Extends()
      ensures note in {Answered, RateLimited429, BadStatus}
      ensures note == Answered ==> Last(url, Target, Some(200)) && log[|log| - 1].size > 0
      ensures note == RateLimited429 ==> Last(url, Target, Some(429))
      ensures note == BadStatus ==> BadAnswer(url, |old(log)|)
      ensures |log| <= |old(log)| + 1 + RETRY_ON_429
    {
      var r := GetWithBackoff(url, Target);
      if r.status == Some(429) {
        return RateLimited429;
      }
      if r.status != Some(200) || r.size == 0 {
        return BadStatus;
      }
      return Answered;
    }
  }
}
