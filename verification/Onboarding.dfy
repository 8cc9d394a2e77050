/**
 The guarded, one-transaction apply of scripts/onboard_competitor.py.

 A `Session` holds the rows as its transaction sees them beside the rows that are
 committed.  The steps of the apply write the working rows one after the other,
 so a later refusal can find an earlier row already changed; only commit and
 rollback decide what the database keeps.
 */
module Onboarding {
  import opened Wrappers

  type Id = string

  datatype Strategy = DirectOnly | DirectThenProxy | ProxyFirst | ResidentialOnly | BrowserFallback

  const TIERS := [DirectOnly, DirectThenProxy, ProxyFirst, ResidentialOnly, BrowserFallback]

  /** `_ACCESS_STRATEGY_RANK` */
  function Rank(s: Strategy): (r: nat)
    ensures r < |TIERS| && TIERS[r] == s
  {
    match s
    case DirectOnly => 0
    case DirectThenProxy => 1
    case ProxyFirst => 2
    case ResidentialOnly => 3
    case BrowserFallback => 4
  }

  datatype Competitor = Competitor(
    workspaceId: Id, domain: string, name: string, defaultPolicy: Option<Id>, defaultProfile: Option<Id>)

  /** A null workspace marks a row that every workspace shares. */
  datatype Policy = Policy(workspaceId: Option<Id>, name: string, strategy: Strategy, proxyFirst: bool,
                           proxyOnRetry: bool)

  datatype Rule = Rule(
    workspaceId: Id, competitorId: Id, domain: string, urlPattern: Option<string>, policyId: Id,
    concurrency: int, perMinute: int, cooldown: int, enabled: bool)

  datatype Profile = Profile(
    workspaceId: Option<Id>, name: string,
    priceSelector: Option<string>, priceJsonPath: Option<string>, currencyJsonPath: Option<string>)

  datatype Db = Db(
    competitors: map<Id, Competitor>, policies: map<Id, Policy>, rules: map<Id, Rule>, profiles: map<Id, Profile>)

  datatype Recommendation = Recommendation(strategy: Strategy, perMinute: int, concurrency: int, cooldown: int)

  datatype ExtractionConfig = ExtractionConfig(
    hasMethod: bool, priceSelector: Option<string>, priceJsonPath: Option<string>, currencyJsonPath: Option<string>)

  datatype Request = Request(
    workspaceId: Id, domain: string, name: string, competitorId: Option<Id>,
    recommendation: Recommendation, extraction: ExtractionConfig, updateExisting: bool, allowDowngrade: bool)

  /** Primary keys for the rows an apply may create. */
  datatype NewIds = NewIds(competitor: Id, policy: Id, rule: Id, profile: Id)

  datatype Refusal = UnknownCompetitor | PolicyDowngrade | RuleDowngrade | RuleKeyTaken

  datatype Result<T> = Ok(value: T) | Err(why: Refusal)

  /** `FieldDiff`: one field's stored and recommended value. */
  datatype FieldDiff =
    | StrategyDiff(was: Strategy, now: Strategy)
    | NumberDiff(field: string, stored: int, proposed: int)
    | TextDiff(field: string, text: string)

  /** What one get-or-create-or-update step reports. */
  datatype Touched = Touched(id: Id, created: bool, updated: bool, diff: seq<FieldDiff>)

  // ----- differences

  function PolicyDiff(p: Policy, r: Recommendation): seq<FieldDiff> {
    if p.strategy == r.strategy then [] else [StrategyDiff(p.strategy, r.strategy)]
  }

  predicate PolicyDiffIsDowngrade(diff: seq<FieldDiff>) {
    exists i :: 0 <= i < |diff| && diff[i].StrategyDiff? && Rank(diff[i].now) < Rank(diff[i].was)
  }

  function NumberChange(field: string, was: int, now: int): seq<FieldDiff> {
    if was != now then [NumberDiff(field, was, now)] else []
  }

  function RuleDiff(e: Rule, r: Recommendation): seq<FieldDiff> {
    NumberChange("max_requests_per_minute", e.perMinute, r.perMinute)
    + NumberChange("max_concurrent_requests", e.concurrency, r.concurrency)
    + NumberChange("cooldown_seconds", e.cooldown, r.cooldown)
  }

  predicate Loosens(d: FieldDiff) {
    d.NumberDiff?
    && if d.field == "cooldown_seconds" then d.proposed < d.stored
       else (d.field == "max_requests_per_minute" || d.field == "max_concurrent_requests") && d.proposed > d.stored
  }

  predicate RuleDiffIsDowngrade(diff: seq<FieldDiff>) {
    exists i :: 0 <= i < |diff| && Loosens(diff[i])
  }

  function Gap(field: string, stored: Option<string>, found: Option<string>): seq<FieldDiff> {
    if stored.None? && found.Some? then [TextDiff(field, found.value)] else []
  }

  function ProfileDiff(p: Profile, c: ExtractionConfig): seq<FieldDiff> {
    if !c.hasMethod then []
    else
      Gap("price_selector", p.priceSelector, c.priceSelector)
      + Gap("price_json_path", p.priceJsonPath, c.priceJsonPath)
      + Gap("currency_json_path", p.currencyJsonPath, c.currencyJsonPath)
  }

  /** `setattr` for each entry of a profile diff. */
  function SetField(p: Profile, d: FieldDiff): Profile {
    if !d.TextDiff? then p
    else if d.field == "price_selector" then p.(priceSelector := Some(d.text))
    else if d.field == "price_json_path" then p.(priceJsonPath := Some(d.text))
    else if d.field == "currency_json_path" then p.(currencyJsonPath := Some(d.text))
    else p
  }

  function SetFields(p: Profile, diff: seq<FieldDiff>): Profile
    decreases |diff|
  {
    if diff == [] then p else SetFields(SetField(p, diff[0]), diff[1..])
  }

  // ----- keys

  function PolicyName(domain: string): string { domain + "-access-policy" }

  function ProfileName(domain: string): string { domain + "-profile" }

  predicate IsCompetitorOf(c: Competitor, ws: Id, domain: string) {
    c.workspaceId == ws && c.domain == domain
  }

  predicate IsPolicyNamed(p: Policy, ws: Id, name: string) {
    p.workspaceId == Some(ws) && p.name == name
  }

  predicate IsProfileNamed(p: Profile, ws: Id, name: string) {
    p.workspaceId == Some(ws) && p.name == name
  }

  predicate IsDomainRule(r: Rule, ws: Id, competitor: Id, domain: string) {
    r.workspaceId == ws && r.competitorId == competitor && r.domain == domain && r.urlPattern.None?
  }

  function Folded(pattern: Option<string>): string {
    if pattern.Some? then pattern.value else ""
  }

  predicate SameRuleKey(a: Rule, b: Rule) {
    a.workspaceId == b.workspaceId && a.competitorId == b.competitorId && a.domain == b.domain
    && Folded(a.urlPattern) == Folded(b.urlPattern)
  }

  ghost predicate CompetitorsKeyed(t: map<Id, Competitor>) {
    forall a, b :: a in t && b in t && IsCompetitorOf(t[a], t[b].workspaceId, t[b].domain) ==> a == b
  }

  ghost predicate PoliciesKeyed(t: map<Id, Policy>) {
    forall a, b :: a in t && b in t && t[a].workspaceId == t[b].workspaceId && t[a].name == t[b].name ==> a == b
  }

  ghost predicate ProfilesKeyed(t: map<Id, Profile>) {
    forall a, b :: a in t && b in t && t[a].workspaceId == t[b].workspaceId && t[a].name == t[b].name ==> a == b
  }

  ghost predicate RulesKeyed(t: map<Id, Rule>) {
    forall a, b :: a in t && b in t && SameRuleKey(t[a], t[b]) ==> a == b
  }

  /** The unique indexes of the four tables. */
  ghost predicate Keyed(db: Db) {
    CompetitorsKeyed(db.competitors) && PoliciesKeyed(db.policies) && RulesKeyed(db.rules) && ProfilesKeyed(db.profiles)
  }

  ghost predicate Unused(db: Db, n: NewIds) {
    n.competitor !in db.competitors && n.policy !in db.policies && n.rule !in db.rules && n.profile !in db.profiles
  }

  // ----- the rows a step writes

  function NewPolicy(q: Request): Policy {
    var s := q.recommendation.strategy;
    Policy(Some(q.workspaceId), PolicyName(q.domain), s, s in {ProxyFirst, ResidentialOnly}, s != DirectOnly)
  }

  function Escalated(p: Policy, s: Strategy): Policy {
    p.(strategy := s, proxyFirst := s in {ProxyFirst, ResidentialOnly}, proxyOnRetry := s != DirectOnly)
  }

  function NewRule(q: Request, competitor: Id, policy: Id): Rule {
    Rule(q.workspaceId, competitor, q.domain, None, policy,
         q.recommendation.concurrency, q.recommendation.perMinute, q.recommendation.cooldown, true)
  }

  function Retuned(e: Rule, policy: Id, r: Recommendation): Rule {
    e.(policyId := policy, concurrency := r.concurrency, perMinute := r.perMinute, cooldown := r.cooldown)
  }

  function NewProfile(q: Request): Profile {
    Profile(Some(q.workspaceId), ProfileName(q.domain),
            q.extraction.priceSelector, q.extraction.priceJsonPath, q.extraction.currencyJsonPath)
  }

  // ----- what each step leaves, and reports

  datatype Step<R> = Step(rows: map<Id, R>, touched: Touched)

  ghost function CompetitorStep(t: map<Id, Competitor>, q: Request, newId: Id): Result<Step<Competitor>> {
    if q.competitorId.Some? then
      var id := q.competitorId.value;
      if id in t && t[id].workspaceId == q.workspaceId then Ok(Step(t, Touched(id, false, false, [])))
        else Err(UnknownCompetitor)
    else if exists id :: id in t && IsCompetitorOf(t[id], q.workspaceId, q.domain) then
      var id :| id in t && IsCompetitorOf(t[id], q.workspaceId, q.domain);
      Ok(Step(t, Touched(id, false, false, [])))
    else
      Ok(Step(t[newId := Competitor(q.workspaceId, q.domain, q.name, None, None)], Touched(newId, true, false, [])))
  }

  /** The step on an existing policy. */
  function PolicyUpdate(t: map<Id, Policy>, q: Request, id: Id): Result<Step<Policy>>
    requires id in t
  {
    var diff := PolicyDiff(t[id], q.recommendation);
    if diff == [] || !q.updateExisting then Ok(Step(t, Touched(id, false, false, diff)))
    else if !q.allowDowngrade && PolicyDiffIsDowngrade(diff) then Err(PolicyDowngrade)
    else Ok(Step(t[id := Escalated(t[id], q.recommendation.strategy)], Touched(id, false, true, diff)))
  }

  ghost function PolicyStep(t: map<Id, Policy>, q: Request, newId: Id): Result<Step<Policy>> {
    if exists id :: id in t && IsPolicyNamed(t[id], q.workspaceId, PolicyName(q.domain)) then
      var id :| id in t && IsPolicyNamed(t[id], q.workspaceId, PolicyName(q.domain));
      PolicyUpdate(t, q, id)
    else
      Ok(Step(t[newId := NewPolicy(q)], Touched(newId, true, false, [])))
  }

  function RuleUpdate(t: map<Id, Rule>, q: Request, policy: Id, id: Id): Result<Step<Rule>>
    requires id in t
  {
    var diff := RuleDiff(t[id], q.recommendation);
    if diff == [] || !q.updateExisting then Ok(Step(t, Touched(id, false, false, diff)))
    else if !q.allowDowngrade && RuleDiffIsDowngrade(diff) then Err(RuleDowngrade)
    else Ok(Step(t[id := Retuned(t[id], policy, q.recommendation)], Touched(id, false, true, diff)))
  }

  /** The lookup wants a null pattern, but the index folds null and the empty pattern: the INSERT can be refused. */
  ghost function RuleStep(t: map<Id, Rule>, q: Request, competitor: Id, policy: Id, newId: Id): Result<Step<Rule>> {
    if exists id :: id in t && IsDomainRule(t[id], q.workspaceId, competitor, q.domain) then
      var id :| id in t && IsDomainRule(t[id], q.workspaceId, competitor, q.domain);
      RuleUpdate(t, q, policy, id)
    else if exists id :: id in t && SameRuleKey(t[id], NewRule(q, competitor, policy)) then
      Err(RuleKeyTaken)
    else
      Ok(Step(t[newId := NewRule(q, competitor, policy)], Touched(newId, true, false, [])))
  }

  function ProfileUpdate(t: map<Id, Profile>, q: Request, id: Id): Step<Profile>
    requires id in t
  {
    var diff := ProfileDiff(t[id], q.extraction);
    if diff == [] || !q.updateExisting then Step(t, Touched(id, false, false, diff))
    else Step(t[id := SetFields(t[id], diff)], Touched(id, false, true, diff))
  }

  ghost function ProfileStep(t: map<Id, Profile>, q: Request, newId: Id): Step<Profile> {
    if exists id :: id in t && IsProfileNamed(t[id], q.workspaceId, ProfileName(q.domain)) then
      var id :| id in t && IsProfileNamed(t[id], q.workspaceId, ProfileName(q.domain));
      ProfileUpdate(t, q, id)
    else
      Step(t[newId := NewProfile(q)], Touched(newId, true, false, []))
  }

  function Defaulted(t: map<Id, Competitor>, id: Id, policy: Id, profile: Id): map<Id, Competitor> {
    if id in t then t[id := t[id].(defaultPolicy := Some(policy), defaultProfile := Some(profile))] else t
  }

  datatype Applied = Applied(db: Db, competitor: Touched, policy: Touched, rule: Touched, profile: Touched)

  /** The whole apply: the rows and the report, or the reason for refusing. */
  ghost function Apply(db: Db, q: Request, n: NewIds): Result<Applied> {
    var c := CompetitorStep(db.competitors, q, n.competitor);
    if c.Err? then Err(c.why) else
    var p := PolicyStep(db.policies, q, n.policy);
    if p.Err? then Err(p.why) else
    var r := RuleStep(db.rules, q, c.value.touched.id, p.value.touched.id, n.rule);
    if r.Err? then Err(r.why) else
    var s := ProfileStep(db.profiles, q, n.profile);
    Ok(Applied(
      Db(Defaulted(c.value.rows, c.value.touched.id, p.value.touched.id, s.touched.id), p.value.rows, r.value.rows,
         s.rows),
      c.value.touched, p.value.touched, r.value.touched, s.touched))
  }

  // ----- the session

  class Session {
    var committed: Db
    var competitors: map<Id, Competitor>
    var policies: map<Id, Policy>
    var rules: map<Id, Rule>
    var profiles: map<Id, Profile>

    function Working(): Db
      reads this
    {
      Db(competitors, policies, rules, profiles)
    }

    constructor (db: Db)
      ensures committed == db && Working() == db
    {
      committed := db;
      competitors, policies, rules, profiles := db.competitors, db.policies, db.rules, db.profiles;
    }

    method GetOrCreateCompetitor(q: Request, newId: Id) returns (r: Result<Touched>)
      requires CompetitorsKeyed(competitors)
      modifies this`competitors
      ensures var s := CompetitorStep(old(competitors), q, newId);
        if s.Ok? then r == Ok(s.value.touched) && competitors == s.value.rows
        else r == Err(s.why) && competitors == old(competitors)
    {
      if q.competitorId.Some? {
        var id := q.competitorId.value;
        if id in competitors && competitors[id].workspaceId == q.workspaceId {
          return Ok(Touched(id, false, false, []));
        }
        return Err(UnknownCompetitor);
      }
      if id :| id in competitors && IsCompetitorOf(competitors[id], q.workspaceId, q.domain) {
        return Ok(Touched(id, false, false, []));
      }
      competitors := competitors[newId := Competitor(q.workspaceId, q.domain, q.name, None, None)];
      return Ok(Touched(newId, true, false, []));
    }

    method GetOrCreateOrUpdateAccessPolicy(q: Request, newId: Id) returns (r: Result<Touched>)
      requires PoliciesKeyed(policies)
      modifies this`policies
      ensures var s := PolicyStep(old(policies), q, newId);
        if s.Ok? then r == Ok(s.value.touched) && policies == s.value.rows
        else r == Err(s.why) && policies == old(policies)
    {
      if id :| id in policies && IsPolicyNamed(policies[id], q.workspaceId, PolicyName(q.domain)) {
        var diff := PolicyDiff(policies[id], q.recommendation);
        if diff == [] || !q.updateExisting {
          return Ok(Touched(id, false, false, diff));
        }
        if !q.allowDowngrade && PolicyDiffIsDowngrade(diff) {
          return Err(PolicyDowngrade);
        }
        policies := policies[id := Escalated(policies[id], q.recommendation.strategy)];
        return Ok(Touched(id, false, true, diff));
      }
      policies := policies[newId := NewPolicy(q)];
      return Ok(Touched(newId, true, false, []));
    }

    method GetOrCreateOrUpdateDomainAccessRule(q: Request, competitor: Id, policy: Id, newId: Id)
      returns (r: Result<Touched>)
      requires RulesKeyed(rules)
      modifies this`rules
      ensures var s := RuleStep(old(rules), q, competitor, policy, newId);
        if s.Ok? then r == Ok(s.value.touched) && rules == s.value.rows
        else r == Err(s.why) && rules == old(rules)
    {
      if id :| id in rules && IsDomainRule(rules[id], q.workspaceId, competitor, q.domain) {
        var diff := RuleDiff(rules[id], q.recommendation);
        if diff == [] || !q.updateExisting {
          return Ok(Touched(id, false, false, diff));
        }
        if !q.allowDowngrade && RuleDiffIsDowngrade(diff) {
          return Err(RuleDowngrade);
        }
        rules := rules[id := Retuned(rules[id], policy, q.recommendation)];
        return Ok(Touched(id, false, true, diff));
      }
      if exists id :: id in rules && SameRuleKey(rules[id], NewRule(q, competitor, policy)) {
        return Err(RuleKeyTaken);
      }
      rules := rules[newId := NewRule(q, competitor, policy)];
      return Ok(Touched(newId, true, false, []));
    }

    method GetOrCreateOrUpdateScrapeProfile(q: Request, newId: Id) returns (r: Touched)
      requires ProfilesKeyed(profiles)
      modifies this`profiles
      ensures var s := ProfileStep(old(profiles), q, newId);
        r == s.touched && profiles == s.rows
    {
      if id :| id in profiles && IsProfileNamed(profiles[id], q.workspaceId, ProfileName(q.domain)) {
        var diff := ProfileDiff(profiles[id], q.extraction);
        if diff == [] || !q.updateExisting {
          return Touched(id, false, false, diff);
        }
        var row, i := profiles[id], 0;
        while i < |diff|
          invariant 0 <= i <= |diff|
          invariant SetFields(row, diff[i..]) == SetFields(profiles[id], diff)
        {
          assert diff[i..][1..] == diff[i + 1..];
          row := SetField(row, diff[i]);
          i := i + 1;
        }
        profiles := profiles[id := row];
        return Touched(id, false, true, diff);
      }
      profiles := profiles[newId := NewProfile(q)];
      return Touched(newId, true, false, []);
    }

    /** `apply_onboarding`: writes the working rows only.  A refusal leaves whatever the earlier steps wrote. */
    method ApplyOnboarding(q: Request, n: NewIds) returns (r: Result<Applied>)
      requires Keyed(Working())
      modifies this`competitors, this`policies, this`rules, this`profiles
      ensures r == Apply(old(Working()), q, n)
      ensures r.Ok? ==> Working() == r.value.db
      ensures r.Err? ==> Working() == LeftBehind(old(Working()), q, n)
    {
      var c := GetOrCreateCompetitor(q, n.competitor);
      if c.Err? { return Err(c.why); }
      var p := GetOrCreateOrUpdateAccessPolicy(q, n.policy);
      if p.Err? { return Err(p.why); }
      var d := GetOrCreateOrUpdateDomainAccessRule(q, c.value.id, p.value.id, n.rule);
      if d.Err? { return Err(d.why); }
      var s := GetOrCreateOrUpdateScrapeProfile(q, n.profile);
      competitors := Defaulted(competitors, c.value.id, p.value.id, s.id);
      return Ok(Applied(Working(), c.value, p.value, d.value, s));
    }

    /** The transaction of `main`: commit what the apply wrote, or roll everything back. */
    method Onboard(q: Request, n: NewIds) returns (r: Result<Applied>)
      requires Keyed(committed) && Working() == committed
      modifies this
      ensures r == Apply(old(committed), q, n)
      ensures committed == (if r.Ok? then r.value.db else old(committed)) && Working() == committed
    {
      r := ApplyOnboarding(q, n);
      if r.Ok? {
        committed := Working();
      } else {
        competitors, policies, rules, profiles :=
            committed.competitors, committed.policies, committed.rules, committed.profiles;
      }
    }
  }

  /** The working rows at the moment a refused apply raises. */
  ghost function LeftBehind(db: Db, q: Request, n: NewIds): Db {
    var c := CompetitorStep(db.competitors, q, n.competitor);
    if c.Err? then db else
    var p := PolicyStep(db.policies, q, n.policy);
    if p.Err? then db.(competitors := c.value.rows)
    else db.(competitors := c.value.rows, policies := p.value.rows)
  }

  // ----- the lookups have one answer

  lemma PolicyFound(t: map<Id, Policy>, q: Request, newId: Id, id: Id)
    requires PoliciesKeyed(t) && id in t && IsPolicyNamed(t[id], q.workspaceId, PolicyName(q.domain))
    ensures PolicyStep(t, q, newId) == PolicyUpdate(t, q, id)
  {}

  lemma RuleFound(t: map<Id, Rule>, q: Request, competitor: Id, policy: Id, newId: Id, id: Id)
    requires RulesKeyed(t) && id in t && IsDomainRule(t[id], q.workspaceId, competitor, q.domain)
    ensures RuleStep(t, q, competitor, policy, newId) == RuleUpdate(t, q, policy, id)
  {}

  lemma ProfileFound(t: map<Id, Profile>, q: Request, newId: Id, id: Id)
    requires ProfilesKeyed(t) && id in t && IsProfileNamed(t[id], q.workspaceId, ProfileName(q.domain))
    ensures ProfileStep(t, q, newId) == ProfileUpdate(t, q, id)
  {}

  lemma CompetitorFound(t: map<Id, Competitor>, q: Request, newId: Id, id: Id)
    requires CompetitorsKeyed(t) && id in t && q.competitorId.None? && IsCompetitorOf(t[id], q.workspaceId, q.domain)
    ensures CompetitorStep(t, q, newId) == Ok(Step(t, Touched(id, false, false, [])))
  {}

  // ----- the downgrade tests mean what they say

  lemma PolicyDowngradeExactly(p: Policy, r: Recommendation)
    ensures PolicyDiff(p, r) == [] <==> p.strategy == r.strategy
    ensures PolicyDiffIsDowngrade(PolicyDiff(p, r)) <==> Rank(r.strategy) < Rank(p.strategy)
  {
    var d := PolicyDiff(p, r);
    if d != [] { assert d[0].StrategyDiff?; }
  }

  predicate IsLooser(r: Recommendation, e: Rule) {
    r.perMinute > e.perMinute || r.concurrency > e.concurrency || r.cooldown < e.cooldown
  }

  predicate Follows(e: Rule, r: Recommendation) {
    e.perMinute == r.perMinute && e.concurrency == r.concurrency && e.cooldown == r.cooldown
  }

  /** One looser number is enough, however much the others tighten. */
  lemma RuleDowngradeExactly(e: Rule, r: Recommendation)
    ensures RuleDiff(e, r) == [] <==> Follows(e, r)
    ensures RuleDiffIsDowngrade(RuleDiff(e, r)) <==> IsLooser(r, e)
  {
    var a := NumberChange("max_requests_per_minute", e.perMinute, r.perMinute);
    var b := NumberChange("max_concurrent_requests", e.concurrency, r.concurrency);
    var c := NumberChange("cooldown_seconds", e.cooldown, r.cooldown);
    var d := RuleDiff(e, r);
    assert d == a + b + c;
    assert r.perMinute > e.perMinute ==> Loosens(a[0]) && d[0] == a[0];
    assert r.concurrency > e.concurrency ==> Loosens(b[0]) && d[|a|] == b[0];
    assert r.cooldown < e.cooldown ==> Loosens(c[0]) && d[|a| + |b|] == c[0];
  }

  function Filled(stored: Option<string>, found: Option<string>): Option<string> {
    if stored.None? then found else stored
  }

  /** Applying a profile diff fills the gaps that the probe can fill and nothing else. */
  lemma ProfileUpdateFillsGaps(p: Profile, c: ExtractionConfig)
    requires c.hasMethod
    ensures SetFields(p, ProfileDiff(p, c)) ==
      p.(priceSelector := Filled(p.priceSelector, c.priceSelector),
         priceJsonPath := Filled(p.priceJsonPath, c.priceJsonPath),
         currencyJsonPath := Filled(p.currencyJsonPath, c.currencyJsonPath))
  {
    var x := Gap("price_selector", p.priceSelector, c.priceSelector);
    var y := Gap("price_json_path", p.priceJsonPath, c.priceJsonPath);
    var z := Gap("currency_json_path", p.currencyJsonPath, c.currencyJsonPath);
    assert ProfileDiff(p, c) == x + (y + z);
    SetOneGap(p, "price_selector", p.priceSelector, c.priceSelector, y + z);
    var p1 := p.(priceSelector := Filled(p.priceSelector, c.priceSelector));
    SetOneGap(p1, "price_json_path", p.priceJsonPath, c.priceJsonPath, z);
    var p2 := p1.(priceJsonPath := Filled(p.priceJsonPath, c.priceJsonPath));
    assert z + [] == z;
    SetOneGap(p2, "currency_json_path", p.currencyJsonPath, c.currencyJsonPath, []);
  }

  lemma SetOneGap(p: Profile, field: string, stored: Option<string>, found: Option<string>, rest: seq<FieldDiff>)
    ensures SetFields(p, Gap(field, stored, found) + rest) ==
      SetFields(if stored.None? && found.Some? then SetField(p, TextDiff(field, found.value)) else p, rest)
  {
    var g := Gap(field, stored, found);
    if g == [] {
      assert g + rest == rest;
    } else {
      assert (g + rest)[1..] == rest;
    }
  }

  // ----- nothing is loosened silently

  ghost predicate TiersHold(before: map<Id, Policy>, after: map<Id, Policy>) {
    forall id :: id in before ==> id in after && Rank(before[id].strategy) <= Rank(after[id].strategy)
  }

  ghost predicate RatesHold(before: map<Id, Rule>, after: map<Id, Rule>) {
    forall id :: id in before ==>
      && id in after && after[id].perMinute <= before[id].perMinute
      && after[id].concurrency <= before[id].concurrency && after[id].cooldown >= before[id].cooldown
  }

  predicate StillHas(before: Option<string>, after: Option<string>) {
    before.Some? ==> after == before
  }

  ghost predicate FieldsHold(before: map<Id, Profile>, after: map<Id, Profile>) {
    forall id :: id in before ==>
      && id in after
      && StillHas(before[id].priceSelector, after[id].priceSelector)
      && StillHas(before[id].priceJsonPath, after[id].priceJsonPath)
      && StillHas(before[id].currencyJsonPath, after[id].currencyJsonPath)
  }

  lemma TiersAreKept(t: map<Id, Policy>, q: Request, newId: Id)
    requires !q.allowDowngrade && newId !in t && PolicyStep(t, q, newId).Ok?
    ensures TiersHold(t, PolicyStep(t, q, newId).value.rows)
  {
    var id := PolicyStep(t, q, newId).value.touched.id;
    if id in t { PolicyDowngradeExactly(t[id], q.recommendation); }
  }

  lemma RatesAreKept(t: map<Id, Rule>, q: Request, competitor: Id, policy: Id, newId: Id)
    requires !q.allowDowngrade && newId !in t && RuleStep(t, q, competitor, policy, newId).Ok?
    ensures RatesHold(t, RuleStep(t, q, competitor, policy, newId).value.rows)
  {
    var id := RuleStep(t, q, competitor, policy, newId).value.touched.id;
    if id in t { RuleDowngradeExactly(t[id], q.recommendation); }
  }

  lemma FieldsAreKept(t: map<Id, Profile>, q: Request, newId: Id)
    requires newId !in t
    ensures FieldsHold(t, ProfileStep(t, q, newId).rows)
  {
    var id := ProfileStep(t, q, newId).touched.id;
    if id in t && q.extraction.hasMethod { ProfileUpdateFillsGaps(t[id], q.extraction); }
  }

  /** Without permission to downgrade, no apply lowers any policy's tier or loosens any rule; with or without it, no
      populated profile field is ever overwritten and no row is lost. */
  lemma NothingIsLoosened(db: Db, q: Request, n: NewIds)
    requires Unused(db, n) && Apply(db, q, n).Ok?
    ensures var after := Apply(db, q, n).value.db;
      && (!q.allowDowngrade ==> TiersHold(db.policies, after.policies) && RatesHold(db.rules, after.rules))
      && FieldsHold(db.profiles, after.profiles)
      && db.policies.Keys <= after.policies.Keys && db.rules.Keys <= after.rules.Keys
  {
    FieldsAreKept(db.profiles, q, n.profile);
    if !q.allowDowngrade {
      TiersAreKept(db.policies, q, n.policy);
      var c := CompetitorStep(db.competitors, q, n.competitor).value.touched.id;
      RatesAreKept(db.rules, q, c, PolicyStep(db.policies, q, n.policy).value.touched.id, n.rule);
    }
  }

  // ----- exactly when an apply is refused

  ghost predicate LowersTier(db: Db, q: Request) {
    exists id :: id in db.policies
      && db.policies[id].workspaceId == Some(q.workspaceId) && db.policies[id].name == q.domain + "-access-policy"
      && Rank(q.recommendation.strategy) < Rank(db.policies[id].strategy)
  }

  predicate IsPlainRule(r: Rule, q: Request, competitor: Id) {
    r.workspaceId == q.workspaceId && r.competitorId == competitor && r.domain == q.domain && r.urlPattern == None
  }

  ghost predicate LoosensRule(db: Db, q: Request, competitor: Id) {
    exists id :: id in db.rules && IsPlainRule(db.rules[id], q, competitor) && IsLooser(q.recommendation, db.rules[id])
  }

  ghost predicate HasDomainRule(db: Db, q: Request, competitor: Id) {
    exists id :: id in db.rules && IsPlainRule(db.rules[id], q, competitor)
  }

  /** A rule for the same domain whose pattern is the empty string. */
  ghost predicate HasBlankRule(db: Db, q: Request, competitor: Id) {
    exists id :: id in db.rules
      && db.rules[id].workspaceId == q.workspaceId && db.rules[id].competitorId == competitor
      && db.rules[id].domain == q.domain && db.rules[id].urlPattern == Some("")
  }

  predicate KnowsCompetitor(db: Db, q: Request) {
    q.competitorId.Some? ==>
      q.competitorId.value in db.competitors && db.competitors[q.competitorId.value].workspaceId == q.workspaceId
  }

  ghost function CompetitorId(db: Db, q: Request, n: NewIds): Id
    requires KnowsCompetitor(db, q)
  {
    CompetitorStep(db.competitors, q, n.competitor).value.touched.id
  }

  lemma PolicyRefusedExactly(db: Db, q: Request, newId: Id)
    requires PoliciesKeyed(db.policies)
    ensures PolicyStep(db.policies, q, newId).Err? <==> q.updateExisting && !q.allowDowngrade && LowersTier(db, q)
  {
    forall id | id in db.policies && IsPolicyNamed(db.policies[id], q.workspaceId, PolicyName(q.domain))
      ensures PolicyStep(db.policies, q, newId) == PolicyUpdate(db.policies, q, id)
      ensures PolicyUpdate(db.policies, q, id).Err? <==>
        q.updateExisting && !q.allowDowngrade && Rank(q.recommendation.strategy) < Rank(db.policies[id].strategy)
    {
      PolicyFound(db.policies, q, newId, id);
      PolicyDowngradeExactly(db.policies[id], q.recommendation);
    }
  }

  lemma RuleRefusedExactly(db: Db, q: Request, competitor: Id, policy: Id, newId: Id)
    requires RulesKeyed(db.rules)
    ensures var r := RuleStep(db.rules, q, competitor, policy, newId);
      && (r.Err? <==>
            || (q.updateExisting && !q.allowDowngrade && LoosensRule(db, q, competitor))
            || (!HasDomainRule(db, q, competitor) && HasBlankRule(db, q, competitor)))
      && (r.Err? ==> r.why == if HasDomainRule(db, q, competitor) then RuleDowngrade else RuleKeyTaken)
  {
    forall id | id in db.rules && IsDomainRule(db.rules[id], q.workspaceId, competitor, q.domain)
      ensures RuleStep(db.rules, q, competitor, policy, newId) == RuleUpdate(db.rules, q, policy, id)
      ensures RuleUpdate(db.rules, q, policy, id).Err? <==>
        q.updateExisting && !q.allowDowngrade && IsLooser(q.recommendation, db.rules[id])
    {
      RuleFound(db.rules, q, competitor, policy, newId, id);
      RuleDowngradeExactly(db.rules[id], q.recommendation);
    }
  }

  /** An apply is refused exactly for an unknown competitor, a lower tier or a looser rule that nobody permitted, or a
      blank-pattern rule that holds the key the new rule needs. */
  lemma RefusedExactly(db: Db, q: Request, n: NewIds)
    requires Keyed(db)
    ensures Apply(db, q, n).Ok? <==>
      && KnowsCompetitor(db, q)
      && (q.updateExisting && !q.allowDowngrade ==> !LowersTier(db, q) && !LoosensRule(db, q, CompetitorId(db, q, n)))
      && (HasDomainRule(db, q, CompetitorId(db, q, n)) || !HasBlankRule(db, q, CompetitorId(db, q, n)))
    ensures Apply(db, q, n).Err? ==>
      Apply(db, q, n).why ==
        if !KnowsCompetitor(db, q) then UnknownCompetitor
        else if q.updateExisting && !q.allowDowngrade && LowersTier(db, q) then PolicyDowngrade
        else if HasDomainRule(db, q, CompetitorId(db, q, n)) then RuleDowngrade
        else RuleKeyTaken
  {
    PolicyRefusedExactly(db, q, n.policy);
    if KnowsCompetitor(db, q) && PolicyStep(db.policies, q, n.policy).Ok? {
      RuleRefusedExactly(db, q, CompetitorId(db, q, n), PolicyStep(db.policies, q, n.policy).value.touched.id, n.rule);
    }
  }

  // ----- what a successful apply establishes

  /** The proxy switches that belong to a tier. */
  predicate SwitchesFit(p: Policy) {
    (p.proxyFirst <==> p.strategy == ProxyFirst || p.strategy == ResidentialOnly)
      && (p.proxyOnRetry <==> p.strategy != DirectOnly)
  }

  lemma PolicyStepKeeps(t: map<Id, Policy>, q: Request, newId: Id)
    requires PoliciesKeyed(t) && newId !in t && PolicyStep(t, q, newId).Ok?
    ensures var s := PolicyStep(t, q, newId).value; var id := s.touched.id;
      && PoliciesKeyed(s.rows)
      && id in s.rows && IsPolicyNamed(s.rows[id], q.workspaceId, PolicyName(q.domain))
      && (id in t <==> !s.touched.created)
      && (forall k :: k in t && k != id ==> k in s.rows && s.rows[k] == t[k])
      && (q.updateExisting || s.touched.created ==> s.rows[id].strategy == q.recommendation.strategy)
      && (s.touched.updated || s.touched.created ==> SwitchesFit(s.rows[id]))
      && (!q.updateExisting && id in t ==> s.rows == t)
  {
    if id :| id in t && IsPolicyNamed(t[id], q.workspaceId, PolicyName(q.domain)) {
      PolicyFound(t, q, newId, id);
      PolicyDowngradeExactly(t[id], q.recommendation);
    }
  }

  lemma RuleStepKeeps(t: map<Id, Rule>, q: Request, competitor: Id, policy: Id, newId: Id)
    requires RulesKeyed(t) && newId !in t && RuleStep(t, q, competitor, policy, newId).Ok?
    ensures var s := RuleStep(t, q, competitor, policy, newId).value; var id := s.touched.id;
      && RulesKeyed(s.rows)
      && id in s.rows && IsDomainRule(s.rows[id], q.workspaceId, competitor, q.domain)
      && (id in t <==> !s.touched.created)
      && (forall k :: k in t && k != id ==> k in s.rows && s.rows[k] == t[k])
      && (q.updateExisting || s.touched.created ==> Follows(s.rows[id], q.recommendation))
      && (!q.updateExisting && id in t ==> s.rows == t)
      && (s.rows[id].policyId == policy <==>
            s.touched.created || (q.updateExisting && !Follows(t[id], q.recommendation)) || t[id].policyId == policy)
  {
    if id :| id in t && IsDomainRule(t[id], q.workspaceId, competitor, q.domain) {
      RuleFound(t, q, competitor, policy, newId, id);
      RuleDowngradeExactly(t[id], q.recommendation);
    }
  }

  lemma ProfileStepKeeps(t: map<Id, Profile>, q: Request, newId: Id)
    requires ProfilesKeyed(t) && newId !in t
    ensures var s := ProfileStep(t, q, newId); var id := s.touched.id;
      && ProfilesKeyed(s.rows)
      && id in s.rows && IsProfileNamed(s.rows[id], q.workspaceId, ProfileName(q.domain))
      && (id in t <==> !s.touched.created)
      && (forall k :: k in t && k != id ==> k in s.rows && s.rows[k] == t[k])
      && (q.updateExisting || s.touched.created ==> ProfileDiff(s.rows[id], q.extraction) == [])
      && (!q.updateExisting && id in t ==> s.rows == t)
  {
    if id :| id in t && IsProfileNamed(t[id], q.workspaceId, ProfileName(q.domain)) {
      ProfileFound(t, q, newId, id);
      if q.extraction.hasMethod { ProfileUpdateFillsGaps(t[id], q.extraction); }
    }
  }

  lemma CompetitorStepKeeps(t: map<Id, Competitor>, q: Request, newId: Id)
    requires CompetitorsKeyed(t) && newId !in t && CompetitorStep(t, q, newId).Ok?
    ensures var s := CompetitorStep(t, q, newId).value; var id := s.touched.id;
      && CompetitorsKeyed(s.rows)
      && id in s.rows && s.rows[id].workspaceId == q.workspaceId
      && (id in t <==> !s.touched.created)
      && (if q.competitorId.Some? then id == q.competitorId.value else s.rows[id].domain == q.domain)
      && (forall k :: k in t ==> k in s.rows && s.rows[k] == t[k])
  {}

  /** The unique indexes of all four tables survive. */
  lemma ApplyKeepsKeys(db: Db, q: Request, n: NewIds)
    requires Keyed(db) && Unused(db, n) && Apply(db, q, n).Ok?
    ensures Keyed(Apply(db, q, n).value.db)
  {
    CompetitorStepKeeps(db.competitors, q, n.competitor);
    PolicyStepKeeps(db.policies, q, n.policy);
    var c := CompetitorStep(db.competitors, q, n.competitor).value.touched.id;
    RuleStepKeeps(db.rules, q, c, PolicyStep(db.policies, q, n.policy).value.touched.id, n.rule);
    ProfileStepKeeps(db.profiles, q, n.profile);
  }

  /** After an apply the competitor's defaults are the named policy and profile; every row but the four it names is
      unchanged; and a created or updated policy and rule carry the recommendation. */
  lemma ApplyWires(db: Db, q: Request, n: NewIds)
    requires Keyed(db) && Unused(db, n) && Apply(db, q, n).Ok?
    ensures var a := Apply(db, q, n).value;
      && a.competitor.id in a.db.competitors
      && a.db.competitors[a.competitor.id].defaultPolicy == Some(a.policy.id)
      && a.db.competitors[a.competitor.id].defaultProfile == Some(a.profile.id)
      && a.policy.id in a.db.policies && IsPolicyNamed(a.db.policies[a.policy.id], q.workspaceId, PolicyName(q.domain))
      && a.rule.id in a.db.rules && IsDomainRule(a.db.rules[a.rule.id], q.workspaceId, a.competitor.id, q.domain)
      && (q.updateExisting || a.policy.created ==> a.db.policies[a.policy.id].strategy == q.recommendation.strategy)
      && (a.policy.updated || a.policy.created ==> SwitchesFit(a.db.policies[a.policy.id]))
      && (q.updateExisting || a.rule.created ==> Follows(a.db.rules[a.rule.id], q.recommendation))
      && a.profile.id in a.db.profiles
      && IsProfileNamed(a.db.profiles[a.profile.id], q.workspaceId, ProfileName(q.domain))
      && (q.updateExisting || a.profile.created ==> ProfileDiff(a.db.profiles[a.profile.id], q.extraction) == [])
    ensures var a := Apply(db, q, n).value;
      && (forall k :: k in db.competitors && k != a.competitor.id ==>
        k in a.db.competitors && a.db.competitors[k] == db.competitors[k])
      && (forall k :: k in db.policies && k != a.policy.id ==> k in a.db.policies && a.db.policies[k] == db.policies[k])
      && (forall k :: k in db.rules && k != a.rule.id ==> k in a.db.rules && a.db.rules[k] == db.rules[k])
      && (forall k :: k in db.profiles && k != a.profile.id ==>
        k in a.db.profiles && a.db.profiles[k] == db.profiles[k])
  {
    CompetitorStepKeeps(db.competitors, q, n.competitor);
    PolicyStepKeeps(db.policies, q, n.policy);
    var c := CompetitorStep(db.competitors, q, n.competitor).value.touched.id;
    RuleStepKeeps(db.rules, q, c, PolicyStep(db.policies, q, n.policy).value.touched.id, n.rule);
    ProfileStepKeeps(db.profiles, q, n.profile);
  }

  /** An update that finds the numbers already right leaves the rule's policy reference as it was, even when that names
      another policy: the rule ends at the applied policy exactly when it is new, was retuned, or was already there. */
  lemma RuleFollowsPolicyExactly(db: Db, q: Request, n: NewIds)
    requires Keyed(db) && Unused(db, n) && Apply(db, q, n).Ok?
    ensures var a := Apply(db, q, n).value;
      && a.rule.id in a.db.rules && (a.rule.created <==> a.rule.id !in db.rules)
      && (a.db.rules[a.rule.id].policyId == a.policy.id <==>
            a.rule.id in db.rules && (!q.updateExisting || Follows(db.rules[a.rule.id], q.recommendation)) ==>
              db.rules[a.rule.id].policyId == a.policy.id)
  {
    var c := CompetitorStep(db.competitors, q, n.competitor).value.touched.id;
    RuleStepKeeps(db.rules, q, c, PolicyStep(db.policies, q, n.policy).value.touched.id, n.rule);
  }

  // ----- what a successful apply reports and writes, row by row

  /** The rest of a policy row follows from its tier. */
  predicate IsTiered(p: Policy, ws: Id, domain: string, s: Strategy) {
    && p.workspaceId == Some(ws) && p.name == domain + "-access-policy" && p.strategy == s
    && (p.proxyFirst <==> s == ProxyFirst || s == ResidentialOnly) && (p.proxyOnRetry <==> s != DirectOnly)
  }

  /** The policy named after the domain: reported as different exactly when it existed with another strategy, updates on
      or off; written exactly when it is new or an update finds it different. */
  ghost predicate PolicyLanded(was: map<Id, Policy>, now: map<Id, Policy>, p: Touched, q: Request, newId: Id) {
    var wanted := q.recommendation.strategy;
    && now.Keys == was.Keys + {p.id} && (forall k :: k in was && k != p.id ==> now[k] == was[k])
    && (p.created <==> p.id !in was)
    && (p.created ==>
          && p.id == newId && !p.updated && p.diff == [] && IsTiered(now[p.id], q.workspaceId, q.domain, wanted)
          && forall k :: k in was ==>
               !(was[k].workspaceId == Some(q.workspaceId) && was[k].name == q.domain + "-access-policy"))
    && (!p.created ==>
          && was[p.id].workspaceId == Some(q.workspaceId) && was[p.id].name == q.domain + "-access-policy"
          && p.diff == (if was[p.id].strategy == wanted then [] else [StrategyDiff(was[p.id].strategy, wanted)])
          && (p.updated <==> q.updateExisting && was[p.id].strategy != wanted)
          && (if p.updated then IsTiered(now[p.id], q.workspaceId, q.domain, wanted) else now[p.id] == was[p.id]))
  }

  lemma PolicyStepLands(t: map<Id, Policy>, q: Request, newId: Id)
    requires PoliciesKeyed(t) && newId !in t && PolicyStep(t, q, newId).Ok?
    ensures PolicyLanded(t, PolicyStep(t, q, newId).value.rows, PolicyStep(t, q, newId).value.touched, q, newId)
  {
    if id :| id in t && IsPolicyNamed(t[id], q.workspaceId, PolicyName(q.domain)) {
      PolicyFound(t, q, newId, id);
    } else {
      forall k | k in t ensures !(t[k].workspaceId == Some(q.workspaceId) && t[k].name == q.domain + "-access-policy") {
        assert !IsPolicyNamed(t[k], q.workspaceId, PolicyName(q.domain));
      }
    }
  }

  /** Exactly one entry for each number that differs, in a fixed order. */
  ghost predicate ListsNumbers(diff: seq<FieldDiff>, e: Rule, r: Recommendation) {
    && (forall d :: d in diff <==>
          || (e.perMinute != r.perMinute && d == NumberDiff("max_requests_per_minute", e.perMinute, r.perMinute))
          || (e.concurrency != r.concurrency
              && d == NumberDiff("max_concurrent_requests", e.concurrency, r.concurrency))
          || (e.cooldown != r.cooldown && d == NumberDiff("cooldown_seconds", e.cooldown, r.cooldown)))
    && (forall i, j :: 0 <= i < j < |diff| ==> diff[i] != diff[j])
    && (forall i :: 0 <= i < |diff| && diff[i].NumberDiff? ==>
          && (diff[i].field == "max_requests_per_minute" ==> i == 0)
          && (diff[i].field == "cooldown_seconds" ==> i == |diff| - 1))
  }

  lemma NumbersAreListed(e: Rule, r: Recommendation)
    ensures ListsNumbers(RuleDiff(e, r), e, r)
  {}

  predicate IsTunedRule(r: Rule, q: Request, competitor: Id, policy: Id, enabled: bool) {
    && r.workspaceId == q.workspaceId && r.competitorId == competitor && r.domain == q.domain && r.urlPattern.None?
    && r.policyId == policy && r.enabled == enabled
    && r.perMinute == q.recommendation.perMinute && r.concurrency == q.recommendation.concurrency
    && r.cooldown == q.recommendation.cooldown
  }

  /** The competitor's rule for the whole domain: every differing number is reported, updates on or off. */
  ghost predicate RuleLanded(was: map<Id, Rule>, now: map<Id, Rule>, r: Touched, q: Request, c: Id, policy: Id,
                             newId: Id)
  {
    && now.Keys == was.Keys + {r.id} && (forall k :: k in was && k != r.id ==> now[k] == was[k])
    && (r.created <==> r.id !in was)
    && (r.created ==>
          && r.id == newId && !r.updated && r.diff == [] && IsTunedRule(now[r.id], q, c, policy, true)
          && forall k :: k in was ==> !IsPlainRule(was[k], q, c))
    && (!r.created ==>
          && IsPlainRule(was[r.id], q, c)
          && ListsNumbers(r.diff, was[r.id], q.recommendation)
          && (r.updated <==> q.updateExisting && r.diff != [])
          && (if r.updated then IsTunedRule(now[r.id], q, c, policy, was[r.id].enabled) else now[r.id] == was[r.id]))
  }

  lemma RuleStepLands(t: map<Id, Rule>, q: Request, c: Id, policy: Id, newId: Id)
    requires RulesKeyed(t) && newId !in t && RuleStep(t, q, c, policy, newId).Ok?
    ensures var s := RuleStep(t, q, c, policy, newId).value;
      RuleLanded(t, s.rows, s.touched, q, c, policy, newId)
  {
    if id :| id in t && IsDomainRule(t[id], q.workspaceId, c, q.domain) {
      RuleFound(t, q, c, policy, newId, id);
      NumbersAreListed(t[id], q.recommendation);
    } else {
      forall k | k in t ensures !IsPlainRule(t[k], q, c) {
        assert !IsDomainRule(t[k], q.workspaceId, c, q.domain);
      }
    }
  }

  /** Exactly one entry for each empty field that a probe with a method can fill, in a fixed order. */
  ghost predicate ListsGaps(diff: seq<FieldDiff>, p: Profile, c: ExtractionConfig) {
    && (forall field, text :: TextDiff(field, text) in diff <==>
          && c.hasMethod
          && (|| (field == "price_selector" && p.priceSelector == None && c.priceSelector == Some(text))
              || (field == "price_json_path" && p.priceJsonPath == None && c.priceJsonPath == Some(text))
              || (field == "currency_json_path" && p.currencyJsonPath == None && c.currencyJsonPath == Some(text))))
    && (forall i, j :: 0 <= i < j < |diff| ==> diff[i] != diff[j])
    && (forall i :: 0 <= i < |diff| ==>
          && diff[i].TextDiff?
          && (diff[i].field == "price_selector" ==> i == 0)
          && (diff[i].field == "currency_json_path" ==> i == |diff| - 1))
  }

  lemma GapsAreListed(p: Profile, c: ExtractionConfig)
    ensures ListsGaps(ProfileDiff(p, c), p, c)
  {}

  predicate IsNamedProfile(p: Profile, q: Request) {
    p.workspaceId == Some(q.workspaceId) && p.name == q.domain + "-profile"
  }

  /** A populated field stays; an empty one takes what a probe with a method found. */
  predicate IsGapFilled(was: Profile, now: Profile, c: ExtractionConfig) {
    && now.workspaceId == was.workspaceId && now.name == was.name
    && now.priceSelector == (if was.priceSelector.None? && c.hasMethod then c.priceSelector else was.priceSelector)
    && now.priceJsonPath == (if was.priceJsonPath.None? && c.hasMethod then c.priceJsonPath else was.priceJsonPath)
    && now.currencyJsonPath
       == (if was.currencyJsonPath.None? && c.hasMethod then c.currencyJsonPath else was.currencyJsonPath)
  }

  /** The profile named after the domain: every gap that the probe can fill is reported, updates on or off. */
  ghost predicate ProfileLanded(was: map<Id, Profile>, now: map<Id, Profile>, p: Touched, q: Request, newId: Id) {
    && now.Keys == was.Keys + {p.id} && (forall k :: k in was && k != p.id ==> now[k] == was[k])
    && (p.created <==> p.id !in was)
    && (p.created ==>
          && p.id == newId && !p.updated && p.diff == [] && IsNamedProfile(now[p.id], q)
          && now[p.id].priceSelector == q.extraction.priceSelector
          && now[p.id].priceJsonPath == q.extraction.priceJsonPath
          && now[p.id].currencyJsonPath == q.extraction.currencyJsonPath
          && forall k :: k in was ==> !IsNamedProfile(was[k], q))
    && (!p.created ==>
          && IsNamedProfile(was[p.id], q)
          && ListsGaps(p.diff, was[p.id], q.extraction)
          && (p.updated <==> q.updateExisting && p.diff != [])
          && (if p.updated then IsGapFilled(was[p.id], now[p.id], q.extraction) else now[p.id] == was[p.id]))
  }

  lemma ProfileStepLands(t: map<Id, Profile>, q: Request, newId: Id)
    requires ProfilesKeyed(t) && newId !in t
    ensures ProfileLanded(t, ProfileStep(t, q, newId).rows, ProfileStep(t, q, newId).touched, q, newId)
  {
    if id :| id in t && IsProfileNamed(t[id], q.workspaceId, ProfileName(q.domain)) {
      ProfileFound(t, q, newId, id);
      GapsAreListed(t[id], q.extraction);
      if q.extraction.hasMethod { ProfileUpdateFillsGaps(t[id], q.extraction); }
    } else {
      forall k | k in t ensures !IsNamedProfile(t[k], q) {
        assert !IsProfileNamed(t[k], q.workspaceId, ProfileName(q.domain));
      }
    }
  }

  /** The competitor asked for, found by its domain or new, with both defaults repointed and nothing else changed. */
  ghost predicate CompetitorLanded(was: map<Id, Competitor>, now: map<Id, Competitor>, c: Touched, q: Request,
                                   policy: Id, profile: Id, newId: Id)
  {
    && now.Keys == was.Keys + {c.id} && (forall k :: k in was && k != c.id ==> now[k] == was[k])
    && (c.created <==> c.id !in was) && !c.updated && c.diff == []
    && now[c.id].defaultPolicy == Some(policy) && now[c.id].defaultProfile == Some(profile)
    && now[c.id].workspaceId == q.workspaceId
    && (c.id in was ==>
          && now[c.id].name == was[c.id].name && now[c.id].domain == was[c.id].domain
          && was[c.id].workspaceId == q.workspaceId)
    && (q.competitorId.Some? ==> q.competitorId == Some(c.id) && c.id in was)
    && (q.competitorId.None? ==> now[c.id].domain == q.domain)
    && (c.created ==>
          && c.id == newId && now[c.id].name == q.name
          && forall k :: k in was ==> !(was[k].workspaceId == q.workspaceId && was[k].domain == q.domain))
  }

  lemma CompetitorStepLands(t: map<Id, Competitor>, q: Request, newId: Id, policy: Id, profile: Id)
    requires CompetitorsKeyed(t) && newId !in t && CompetitorStep(t, q, newId).Ok?
    ensures var s := CompetitorStep(t, q, newId).value;
      CompetitorLanded(t, Defaulted(s.rows, s.touched.id, policy, profile), s.touched, q, policy, profile, newId)
  {
    CompetitorStepKeeps(t, q, newId);
    if CompetitorStep(t, q, newId).value.touched.created {
      forall k | k in t ensures !(t[k].workspaceId == q.workspaceId && t[k].domain == q.domain) {
        assert !IsCompetitorOf(t[k], q.workspaceId, q.domain);
      }
    }
  }

  /** Whether or not updates are on, a successful apply reports every difference between the stored rows and what was
      recommended, writes exactly the rows it reports as created or updated, and changes nothing else. */
  lemma ApplyReportsDifferences(db: Db, q: Request, n: NewIds)
    requires Keyed(db) && Unused(db, n) && Apply(db, q, n).Ok?
    ensures var a := Apply(db, q, n).value;
      && CompetitorLanded(db.competitors, a.db.competitors, a.competitor, q, a.policy.id, a.profile.id, n.competitor)
      && PolicyLanded(db.policies, a.db.policies, a.policy, q, n.policy)
      && RuleLanded(db.rules, a.db.rules, a.rule, q, a.competitor.id, a.policy.id, n.rule)
      && ProfileLanded(db.profiles, a.db.profiles, a.profile, q, n.profile)
  {
    var a := Apply(db, q, n).value;
    CompetitorStepLands(db.competitors, q, n.competitor, a.policy.id, a.profile.id);
    PolicyStepLands(db.policies, q, n.policy);
    RuleStepLands(db.rules, q, a.competitor.id, a.policy.id, n.rule);
    ProfileStepLands(db.profiles, q, n.profile);
  }

  // ----- repeating an apply

  lemma PolicyStepTwice(t: map<Id, Policy>, q: Request, f: Id, g: Id)
    requires PoliciesKeyed(t) && f !in t && PolicyStep(t, q, f).Ok?
    ensures var s := PolicyStep(t, q, f).value;
      && PolicyStep(s.rows, q, g).Ok?
      && (var u := PolicyStep(s.rows, q, g).value;
          && u.rows == s.rows && u.touched.id == s.touched.id && !u.touched.created && !u.touched.updated
          && (q.updateExisting ==> u.touched.diff == []))
  {
    PolicyStepKeeps(t, q, f);
    var s := PolicyStep(t, q, f).value;
    PolicyFound(s.rows, q, g, s.touched.id);
    PolicyDowngradeExactly(s.rows[s.touched.id], q.recommendation);
  }

  lemma RuleStepTwice(t: map<Id, Rule>, q: Request, competitor: Id, policy: Id, f: Id, g: Id)
    requires RulesKeyed(t) && f !in t && RuleStep(t, q, competitor, policy, f).Ok?
    ensures var s := RuleStep(t, q, competitor, policy, f).value;
      && RuleStep(s.rows, q, competitor, policy, g).Ok?
      && (var u := RuleStep(s.rows, q, competitor, policy, g).value;
          && u.rows == s.rows && u.touched.id == s.touched.id && !u.touched.created && !u.touched.updated
          && (q.updateExisting ==> u.touched.diff == []))
  {
    RuleStepKeeps(t, q, competitor, policy, f);
    var s := RuleStep(t, q, competitor, policy, f).value;
    RuleFound(s.rows, q, competitor, policy, g, s.touched.id);
    RuleDowngradeExactly(s.rows[s.touched.id], q.recommendation);
  }

  lemma ProfileStepTwice(t: map<Id, Profile>, q: Request, f: Id, g: Id)
    requires ProfilesKeyed(t) && f !in t
    ensures var s := ProfileStep(t, q, f); var u := ProfileStep(s.rows, q, g);
      && u.rows == s.rows && u.touched.id == s.touched.id && !u.touched.created && !u.touched.updated
      && (q.updateExisting ==> u.touched.diff == [])
  {
    ProfileStepKeeps(t, q, f);
    var s := ProfileStep(t, q, f);
    ProfileFound(s.rows, q, g, s.touched.id);
  }

  lemma CompetitorStepTwice(t: map<Id, Competitor>, q: Request, f: Id, g: Id, policy: Id, profile: Id)
    requires CompetitorsKeyed(t) && f !in t && CompetitorStep(t, q, f).Ok?
    ensures var s := CompetitorStep(t, q, f).value; var rows := Defaulted(s.rows, s.touched.id, policy, profile);
      && CompetitorStep(rows, q, g) == Ok(Step(rows, Touched(s.touched.id, false, false, [])))
      && Defaulted(rows, s.touched.id, policy, profile) == rows
  {
    CompetitorStepKeeps(t, q, f);
    var s := CompetitorStep(t, q, f).value;
    var rows := Defaulted(s.rows, s.touched.id, policy, profile);
    if q.competitorId.None? { CompetitorFound(rows, q, g, s.touched.id); }
  }

  /** Repeating an apply that succeeded succeeds and changes nothing, whatever ids it could mint; with updates on it
      also finds no difference left to report. */
  lemma ApplyTwice(db: Db, q: Request, n: NewIds, m: NewIds)
    requires Keyed(db) && Unused(db, n) && Apply(db, q, n).Ok?
    ensures var first := Apply(db, q, n).value;
      && Apply(first.db, q, m).Ok?
      && (var second := Apply(first.db, q, m).value;
          && second.db == first.db
          && !second.policy.updated && !second.rule.updated && !second.profile.updated
          && !second.competitor.created && !second.policy.created && !second.rule.created && !second.profile.created
          && (q.updateExisting ==> second.policy.diff == [] && second.rule.diff == [] && second.profile.diff == []))
  {
    var first := Apply(db, q, n).value;
    CompetitorStepTwice(db.competitors, q, n.competitor, m.competitor, first.policy.id, first.profile.id);
    PolicyStepTwice(db.policies, q, n.policy, m.policy);
    RuleStepTwice(db.rules, q, first.competitor.id, first.policy.id, n.rule, m.rule);
    ProfileStepTwice(db.profiles, q, n.profile, m.profile);
  }

  // ----- what a refusal leaves in the session

  ghost predicate HasPolicy(db: Db, q: Request) {
    exists id :: id in db.policies && IsPolicyNamed(db.policies[id], q.workspaceId, PolicyName(q.domain))
  }

  ghost predicate PolicyAgrees(db: Db, q: Request) {
    exists id :: id in db.policies && IsPolicyNamed(db.policies[id], q.workspaceId, PolicyName(q.domain))
                 && db.policies[id].strategy == q.recommendation.strategy
  }

  /** The refusal is raised with the session's rows still untouched exactly when the competitor already existed and,
      past the policy step, the policy existed and needed no update. */
  lemma RefusedBeforeAnyWriteExactly(db: Db, q: Request, n: NewIds)
    requires Keyed(db) && Unused(db, n) && Apply(db, q, n).Err?
    ensures LeftBehind(db, q, n) == db <==>
      || !KnowsCompetitor(db, q)
      || (CompetitorId(db, q, n) in db.competitors
          && ((q.updateExisting && !q.allowDowngrade && LowersTier(db, q))
              || PolicyAgrees(db, q) || (HasPolicy(db, q) && !q.updateExisting)))
  {
    PolicyRefusedExactly(db, q, n.policy);
    var c := CompetitorStep(db.competitors, q, n.competitor);
    if c.Ok? {
      CompetitorStepKeeps(db.competitors, q, n.competitor);
      PolicyWritesExactly(db, q, n.policy);
    }
  }

  lemma PolicyWritesExactly(db: Db, q: Request, newId: Id)
    requires PoliciesKeyed(db.policies) && newId !in db.policies
    ensures PolicyStep(db.policies, q, newId).Ok? ==>
      (PolicyStep(db.policies, q, newId).value.rows == db.policies <==>
         PolicyAgrees(db, q) || (HasPolicy(db, q) && !q.updateExisting))
  {
    if id :| id in db.policies && IsPolicyNamed(db.policies[id], q.workspaceId, PolicyName(q.domain)) {
      PolicyFound(db.policies, q, newId, id);
      PolicyDowngradeExactly(db.policies[id], q.recommendation);
    }
  }

  /** A concrete refusal that comes after the policy row was already written. */
  lemma RefusalAfterAWrite() returns (db: Db, q: Request, n: NewIds)
    ensures Keyed(db) && Unused(db, n)
    ensures Apply(db, q, n) == Err(RuleDowngrade) && LeftBehind(db, q, n).policies != db.policies
  {
    var r := Recommendation(ProxyFirst, 10, 1, 2);
    q := Request("w", "d", "d", None, r, ExtractionConfig(false, None, None, None), true, false);
    n := NewIds("c2", "p2", "r2", "s2");
    var policy := Policy(Some("w"), PolicyName("d"), DirectOnly, false, false);
    var rule := Rule("w", "c", "d", None, "p", 1, 5, 2, true);
    db := Db(map["c" := Competitor("w", "d", "d", None, None)], map["p" := policy], map["r" := rule], map[]);
    CompetitorFound(db.competitors, q, n.competitor, "c");
    PolicyFound(db.policies, q, n.policy, "p");
    PolicyDowngradeExactly(policy, r);
    RuleFound(db.rules, q, "c", "p", n.rule, "r");
    RuleDowngradeExactly(rule, r);
  }

  // ----- the tier a competitor ends up with

  /** The policy named after the domain will rank below `rank`: its stored tier does and stays, or the recommended one
      does and is written, because updates are on or because the policy is new. */
  ghost predicate NamedEndsBelow(db: Db, q: Request, rank: nat) {
    if q.updateExisting || !HasPolicy(db, q) then Rank(q.recommendation.strategy) < rank
    else
      exists id :: id in db.policies && IsPolicyNamed(db.policies[id], q.workspaceId, PolicyName(q.domain))
                   && Rank(db.policies[id].strategy) < rank
  }

  lemma NamedEndsBelowExactly(db: Db, q: Request, newId: Id, rank: nat)
    requires PoliciesKeyed(db.policies) && newId !in db.policies && PolicyStep(db.policies, q, newId).Ok?
    ensures var s := PolicyStep(db.policies, q, newId).value;
      s.touched.id in s.rows && (Rank(s.rows[s.touched.id].strategy) < rank <==> NamedEndsBelow(db, q, rank))
  {
    PolicyStepKeeps(db.policies, q, newId);
    if id :| id in db.policies && IsPolicyNamed(db.policies[id], q.workspaceId, PolicyName(q.domain)) {
      PolicyFound(db.policies, q, newId, id);
    }
  }

  /** No policy row is lowered, but the competitor is always repointed at the policy named after the domain: its default
      drops exactly when that policy will rank below its former default, which is then another policy. */
  lemma CompetitorTierDropsExactly(db: Db, q: Request, n: NewIds)
    requires Keyed(db) && Unused(db, n) && Apply(db, q, n).Ok? && !q.allowDowngrade
    requires var c := Apply(db, q, n).value.competitor.id;
      c in db.competitors && db.competitors[c].defaultPolicy.Some?
      && db.competitors[c].defaultPolicy.value in db.policies
    ensures var a := Apply(db, q, n).value;
      var was := db.competitors[a.competitor.id].defaultPolicy.value;
      && a.competitor.id in a.db.competitors && a.db.competitors[a.competitor.id].defaultPolicy == Some(a.policy.id)
      && a.policy.id in a.db.policies
      && (Rank(a.db.policies[a.policy.id].strategy) < Rank(db.policies[was].strategy) <==>
            NamedEndsBelow(db, q, Rank(db.policies[was].strategy)))
      && (NamedEndsBelow(db, q, Rank(db.policies[was].strategy)) ==> a.policy.id != was)
  {
    var was := db.competitors[Apply(db, q, n).value.competitor.id].defaultPolicy.value;
    NamedEndsBelowExactly(db, q, n.policy, Rank(db.policies[was].strategy));
    TiersAreKept(db.policies, q, n.policy);
    ApplyWires(db, q, n);
  }

  /** Without any permission to downgrade, a competitor that was hand-set to the browser tier ends at direct access. */
  lemma CompetitorTierCanDrop() returns (db: Db, q: Request, n: NewIds)
    ensures Keyed(db) && Unused(db, n) && !q.allowDowngrade && Apply(db, q, n).Ok?
    ensures var a := Apply(db, q, n).value;
      && a.competitor.id in db.competitors
      && db.competitors[a.competitor.id].defaultPolicy == Some("hand")
      && "hand" in db.policies && db.policies["hand"].strategy == BrowserFallback
      && a.db.competitors[a.competitor.id].defaultPolicy == Some(a.policy.id)
      && a.db.policies[a.policy.id].strategy == DirectOnly
  {
    q := Request("w", "d", "d", None, Recommendation(DirectOnly, 10, 1, 2), ExtractionConfig(false, None, None, None),
                 false, false);
    n := NewIds("c2", "p2", "r2", "s2");
    db := Db(map["c" := Competitor("w", "d", "d", Some("hand"), None)],
             map["hand" := Policy(Some("w"), "hand-tuned", BrowserFallback, false, true)], map[], map[]);
    CompetitorFound(db.competitors, q, n.competitor, "c");
    assert PolicyName("d")[0] != "hand-tuned"[0];
    ApplyWires(db, q, n);
  }

  // ----- the tier behind a rule

  /** The rules' numbers are guarded, their policy references are not. A rule whose policy exists keeps one at least as
      high, whichever rule it is, except in exactly one case: it is the rule of the request, its numbers are being
      retuned, and the recommended tier ranks below that of the policy it leaves. */
  lemma RuleTierDropsExactly(db: Db, q: Request, n: NewIds, rule: Id)
    requires Keyed(db) && Unused(db, n) && Apply(db, q, n).Ok? && !q.allowDowngrade
    requires rule in db.rules && db.rules[rule].policyId in db.policies
    ensures var a := Apply(db, q, n).value;
      && rule in a.db.rules && a.db.rules[rule].policyId in a.db.policies
      && (Rank(a.db.policies[a.db.rules[rule].policyId].strategy)
          < Rank(db.policies[db.rules[rule].policyId].strategy) <==>
            && IsDomainRule(db.rules[rule], q.workspaceId, a.competitor.id, q.domain)
            && q.updateExisting && !Follows(db.rules[rule], q.recommendation)
            && Rank(q.recommendation.strategy) < Rank(db.policies[db.rules[rule].policyId].strategy))
  {
    var a := Apply(db, q, n).value;
    ApplyWires(db, q, n);
    TiersAreKept(db.policies, q, n.policy);
    RulePolicyMovesExactly(db.rules, q, a.competitor.id, a.policy.id, n.rule, rule);
  }

  /** A rule that was there keeps its policy reference, unless it is the rule of the request and is retuned. */
  lemma RulePolicyMovesExactly(t: map<Id, Rule>, q: Request, competitor: Id, policy: Id, newId: Id, rule: Id)
    requires RulesKeyed(t) && newId !in t && rule in t && RuleStep(t, q, competitor, policy, newId).Ok?
    ensures var rows := RuleStep(t, q, competitor, policy, newId).value.rows;
      && rule in rows
      && rows[rule].policyId
         == if IsDomainRule(t[rule], q.workspaceId, competitor, q.domain)
               && q.updateExisting && !Follows(t[rule], q.recommendation) then policy
            else t[rule].policyId
  {
    if IsDomainRule(t[rule], q.workspaceId, competitor, q.domain) {
      RuleFound(t, q, competitor, policy, newId, rule);
      RuleDowngradeExactly(t[rule], q.recommendation);
    } else {
      RuleStepKeeps(t, q, competitor, policy, newId);
    }
  }

  /** An update without any permission to downgrade tightens the rule's numbers and moves it from the browser tier to
      direct access, while the competitor's own default stays where it was. */
  lemma RuleTierCanDrop() returns (db: Db, q: Request, n: NewIds)
    ensures Keyed(db) && Unused(db, n) && q.updateExisting && !q.allowDowngrade && Apply(db, q, n).Ok?
    ensures var a := Apply(db, q, n).value;
      && a.competitor.id in db.competitors && db.competitors[a.competitor.id].defaultPolicy == Some(a.policy.id)
      && a.rule.id in db.rules && db.rules[a.rule.id].policyId in db.policies
      && db.policies[db.rules[a.rule.id].policyId].strategy == BrowserFallback
      && a.rule.id in a.db.rules && a.db.rules[a.rule.id].policyId in a.db.policies
      && a.db.policies[a.db.rules[a.rule.id].policyId].strategy == DirectOnly
  {
    q := Request("w", "d", "d", None, Recommendation(DirectOnly, 10, 1, 2), ExtractionConfig(false, None, None, None),
                 true, false);
    n := NewIds("c2", "p2", "r2", "s2");
    var named := Policy(Some("w"), PolicyName("d"), DirectOnly, false, false);
    var hand := Policy(Some("w"), "hand-tuned", BrowserFallback, false, true);
    var rule := Rule("w", "c", "d", None, "hand", 1, 60, 2, true);
    db := Db(map["c" := Competitor("w", "d", "d", Some("p"), None)], map["p" := named, "hand" := hand],
             map["r" := rule], map[]);
    assert PolicyName("d")[0] != "hand-tuned"[0];
    CompetitorFound(db.competitors, q, n.competitor, "c");
    PolicyFound(db.policies, q, n.policy, "p");
    PolicyDowngradeExactly(named, q.recommendation);
    RuleFound(db.rules, q, "c", "p", n.rule, "r");
    RuleDowngradeExactly(rule, q.recommendation);
  }
}
