/**
 Which access policy is in force for a URL, libs/shared/app_shared/access/resolution.py,
 and what an onboarding does to its tier.  The competitor's default policy takes no
 part in this: the chain is the most specific enabled domain rule, the workspace's
 default and the global default.
 */
module EffectiveAccess {
  import opened Wrappers
  import opened Ordering
  import opened Onboarding

  // ----- the resolution

  predicate Occurs(pattern: string, url: string) {
    exists i :: 0 <= i <= |url| - |pattern| && OccursAt(pattern, url, i)
  }

  predicate OccursAt(pattern: string, url: string, i: nat) {
    i + |pattern| <= |url| && url[i..i + |pattern|] == pattern
  }

  /** What is asked: the URL of one of a competitor's targets, under the competitor's registered domain. */
  datatype Target = Target(workspaceId: Id, competitorId: Id, domain: string, url: string)

  predicate Applies(r: Rule, t: Target) {
    r.enabled && r.workspaceId == t.workspaceId && r.competitorId == t.competitorId && r.domain == t.domain
  }

  predicate IsPatternRule(r: Rule, t: Target) {
    Applies(r, t) && r.urlPattern.Some? && Occurs(r.urlPattern.value, t.url)
  }

  predicate IsPlainRule(r: Rule, t: Target) {
    Applies(r, t) && r.urlPattern.None?
  }

  /** The sort key of `select_domain_rule`: the longest pattern first, then the smallest id. */
  predicate Precedes(rules: map<Id, Rule>, a: Id, b: Id)
    requires a in rules && b in rules
  {
    var m, n := |Folded(rules[a].urlPattern)|, |Folded(rules[b].urlPattern)|;
    m > n || (m == n && StrLeq(a, b))
  }

  function Candidates(rules: map<Id, Rule>, t: Target): map<Id, Rule> {
    if exists id :: id in rules && IsPatternRule(rules[id], t) then PatternRules(rules, t)
    else map id | id in rules && IsPlainRule(rules[id], t) :: rules[id]
  }

  function PatternRules(rules: map<Id, Rule>, t: Target): map<Id, Rule> {
    map id | id in rules && IsPatternRule(rules[id], t) :: rules[id]
  }

  ghost predicate IsFirst(candidates: map<Id, Rule>, id: Id) {
    id in candidates && forall other :: other in candidates ==> Precedes(candidates, id, other)
  }

  /** `select_domain_rule` */
  ghost function SelectDomainRule(rules: map<Id, Rule>, t: Target): Option<Id> {
    var candidates := Candidates(rules, t);
    if exists id :: IsFirst(candidates, id) then
      var id :| IsFirst(candidates, id);
      Some(id)
    else None
  }

  predicate Visible(policies: map<Id, Policy>, ws: Id, id: Id) {
    id in policies && (policies[id].workspaceId == Some(ws) || policies[id].workspaceId == None)
  }

  const WORKSPACE_DEFAULT := "default"
  const GLOBAL_DEFAULT := "global_default"

  predicate IsNamed(p: Policy, ws: Option<Id>, name: string) {
    p.workspaceId == ws && p.name == name
  }

  ghost function PolicyNamed(policies: map<Id, Policy>, ws: Option<Id>, name: string): Option<Id> {
    if exists id :: id in policies && IsNamed(policies[id], ws, name) then
      var id :| id in policies && IsNamed(policies[id], ws, name);
      Some(id)
    else None
  }

  predicate Qualifies(policies: map<Id, Policy>, ws: Id, candidate: Option<Id>) {
    candidate.Some? && Visible(policies, ws, candidate.value)
  }

  /** `resolve_effective_policy`: the first candidate that is set and visible. */
  function Resolve(policies: map<Id, Policy>, ws: Id, rule: Option<Id>, workspace: Option<Id>,
                   global: Option<Id>): (r: Option<Id>)
    ensures r.Some? ==> Visible(policies, ws, r.value)
  {
    if Qualifies(policies, ws, rule) then rule
    else if Qualifies(policies, ws, workspace) then workspace
    else if Qualifies(policies, ws, global) then global
    else None
  }

  ghost function RulePolicy(db: Db, t: Target): Option<Id> {
    var selected := SelectDomainRule(db.rules, t);
    if selected.Some? && selected.value in db.rules then Some(db.rules[selected.value].policyId) else None
  }

  ghost function InForce(db: Db, t: Target): Option<Id> {
    Resolve(db.policies, t.workspaceId, RulePolicy(db, t),
            PolicyNamed(db.policies, Some(t.workspaceId), WORKSPACE_DEFAULT),
            PolicyNamed(db.policies, None, GLOBAL_DEFAULT))
  }

  ghost function TierInForce(db: Db, t: Target): Option<nat> {
    var p := InForce(db, t);
    if p.Some? && p.value in db.policies then Some(Rank(db.policies[p.value].strategy)) else None
  }

  // ----- the selection has one answer

  lemma PrecedesIsOrder(rules: map<Id, Rule>, a: Id, b: Id, c: Id)
    requires a in rules && b in rules && c in rules
    ensures Precedes(rules, a, b) || Precedes(rules, b, a)
    ensures Precedes(rules, a, b) && Precedes(rules, b, a) ==> a == b
    ensures Precedes(rules, a, b) && Precedes(rules, b, c) ==> Precedes(rules, a, c)
  {
    StrLeqTotal(a, b);
    if StrLeq(a, b) && StrLeq(b, a) { StrLeqAntisymmetric(a, b); }
    if StrLeq(a, b) && StrLeq(b, c) { StrLeqTransitive(a, b, c); }
  }

  lemma {:induction false} FirstOf(rules: map<Id, Rule>, pool: set<Id>) returns (id: Id)
    requires pool != {} && pool <= rules.Keys
    ensures id in pool && forall other :: other in pool ==> Precedes(rules, id, other)
    decreases |pool|
  {
    var x :| x in pool;
    var rest := pool - {x};
    id := x;
    PrecedesIsOrder(rules, x, x, x);
    if rest == {} {
      assert forall other :: other in pool ==> other == x || other in rest;
    } else {
      var best := FirstOf(rules, rest);
      PrecedesIsOrder(rules, x, best, best);
      if !Precedes(rules, x, best) { id := best; }
      forall other | other in pool
        ensures Precedes(rules, id, other)
      {
        if other != x {
          assert other in rest;
          PrecedesIsOrder(rules, x, best, other);
        }
      }
    }
  }

  /** Some rule is selected exactly when there is a candidate, and it is the one that precedes all others. */
  lemma SelectsTheFirst(rules: map<Id, Rule>, t: Target)
    ensures var candidates := Candidates(rules, t); var selected := SelectDomainRule(rules, t);
      && (selected.Some? <==> candidates != map[])
      && (selected.Some? ==> selected.value in rules && IsFirst(candidates, selected.value))
      && forall id :: IsFirst(candidates, id) ==> selected == Some(id)
  {
    var candidates := Candidates(rules, t);
    if candidates != map[] {
      var id := FirstOf(candidates, candidates.Keys);
      assert IsFirst(candidates, id);
    }
    forall a, b | IsFirst(candidates, a) && IsFirst(candidates, b)
      ensures a == b
    {
      PrecedesIsOrder(candidates, a, b, b);
    }
  }

  lemma SameCandidatesSamePolicy(before: Db, after: Db, t: Target)
    requires Candidates(after.rules, t) == Candidates(before.rules, t)
    ensures RulePolicy(after, t) == RulePolicy(before, t)
  {
    SelectsTheFirst(before.rules, t);
    SelectsTheFirst(after.rules, t);
    var selected := SelectDomainRule(before.rules, t);
    if selected.Some? {
      var id, candidates := selected.value, Candidates(before.rules, t);
      assert candidates[id] == before.rules[id] && Candidates(after.rules, t)[id] == after.rules[id];
    }
  }

  /** With no pattern rule and one plain rule, that one is in force. */
  lemma PlainRuleIsSelected(db: Db, t: Target, id: Id)
    requires RulesKeyed(db.rules) && id in db.rules && IsPlainRule(db.rules[id], t) && !HasPatternRule(db, t)
    ensures RulePolicy(db, t) == Some(db.rules[id].policyId)
  {
    SelectsTheFirst(db.rules, t);
    var candidates := Candidates(db.rules, t);
    assert id in candidates;
    var selected := SelectDomainRule(db.rules, t).value;
    assert SameRuleKey(db.rules[selected], db.rules[id]);
  }

  lemma PolicyNamedIs(policies: map<Id, Policy>, ws: Option<Id>, name: string, id: Id)
    requires PoliciesKeyed(policies) && id in policies && IsNamed(policies[id], ws, name)
    ensures PolicyNamed(policies, ws, name) == Some(id)
  {}

  // ----- what an onboarding does to the tier in force

  ghost predicate HasPatternRule(db: Db, t: Target) {
    exists id :: id in db.rules && IsPatternRule(db.rules[id], t)
  }

  /** The apply puts the policy named after the domain in force: the target is the request's own, no pattern rule takes
      precedence, and the plain rule is created or, if it is enabled, retuned. */
  ghost predicate PutsNamedInForce(db: Db, q: Request, competitor: Id, t: Target) {
    && t.workspaceId == q.workspaceId && t.competitorId == competitor && t.domain == q.domain
    && !HasPatternRule(db, t)
    && (HasDomainRule(db, q, competitor) ==>
          q.updateExisting
          && exists id :: id in db.rules && IsDomainRule(db.rules[id], q.workspaceId, competitor, q.domain)
                          && db.rules[id].enabled && !Follows(db.rules[id], q.recommendation))
  }

  /** No rule refers to the id that a new policy would get. */
  ghost predicate Unmentioned(db: Db, n: NewIds) {
    forall r :: r in db.rules ==> db.rules[r].policyId != n.policy
  }

  /** At most one row differs, and it is a plain one in both. */
  ghost predicate OnlyPlainTouched(before: map<Id, Rule>, after: map<Id, Rule>, touched: Id) {
    && after.Keys == before.Keys + {touched} && after[touched].urlPattern == None
    && (touched in before ==> before[touched].urlPattern == None)
    && (forall k :: k in before && k != touched ==> after[k] == before[k])
  }

  /** Pattern rules stay as they were. */
  lemma PatternRulesStay(before: map<Id, Rule>, after: map<Id, Rule>, touched: Id, t: Target)
    requires OnlyPlainTouched(before, after, touched)
    ensures PatternRules(after, t) == PatternRules(before, t)
    ensures (exists id :: id in after && IsPatternRule(after[id], t)) <==>
      (exists id :: id in before && IsPatternRule(before[id], t))
  {
    if id :| id in before && IsPatternRule(before[id], t) {
      assert id in after && after[id] == before[id];
    }
  }

  /** So do the candidates, unless no pattern rule takes precedence and the plain row differs where it applies. */
  lemma CandidatesStay(before: map<Id, Rule>, after: map<Id, Rule>, touched: Id, t: Target)
    requires OnlyPlainTouched(before, after, touched)
    requires (exists id :: id in before && IsPatternRule(before[id], t))
          || (touched in before && after[touched] == before[touched])
          || (!IsPlainRule(after[touched], t) && (touched in before ==> !IsPlainRule(before[touched], t)))
    ensures Candidates(after, t) == Candidates(before, t)
  {
    PatternRulesStay(before, after, touched, t);
  }

  /** The touched rule is the one plain rule of the request: created at the given policy, retuned to it, or as it
      was. */
  lemma RuleStepTouches(t: map<Id, Rule>, q: Request, competitor: Id, policy: Id, newId: Id)
    requires RulesKeyed(t) && newId !in t && RuleStep(t, q, competitor, policy, newId).Ok?
    ensures var s := RuleStep(t, q, competitor, policy, newId).value; var id := s.touched.id;
      && s.rows.Keys == t.Keys + {id}
      && (id in t <==> exists k :: k in t && IsDomainRule(t[k], q.workspaceId, competitor, q.domain))
      && (if id !in t then s.rows[id] == NewRule(q, competitor, policy)
          else
            && IsDomainRule(t[id], q.workspaceId, competitor, q.domain)
            && s.rows[id] == if q.updateExisting && !Follows(t[id], q.recommendation)
              then Retuned(t[id], policy, q.recommendation) else t[id])
      && forall k :: k in t && k != id ==> s.rows[k] == t[k]
  {
    if id :| id in t && IsDomainRule(t[id], q.workspaceId, competitor, q.domain) {
      RuleFound(t, q, competitor, policy, newId, id);
      RuleDowngradeExactly(t[id], q.recommendation);
    }
  }

  lemma TouchedRuleIs(db: Db, q: Request, n: NewIds)
    requires Keyed(db) && Unused(db, n) && Apply(db, q, n).Ok?
    ensures var a := Apply(db, q, n).value; var id := a.rule.id;
      && a.db.rules.Keys == db.rules.Keys + {id} && id in a.db.rules
      && (id in db.rules <==> HasDomainRule(db, q, a.competitor.id))
      && (if id !in db.rules then a.db.rules[id] == NewRule(q, a.competitor.id, a.policy.id)
          else
            && IsDomainRule(db.rules[id], q.workspaceId, a.competitor.id, q.domain)
            && a.db.rules[id] ==
                 (if q.updateExisting && !Follows(db.rules[id], q.recommendation)
                  then Retuned(db.rules[id], a.policy.id, q.recommendation)
                  else db.rules[id]))
      && OnlyPlainTouched(db.rules, a.db.rules, id)
  {
    var a := Apply(db, q, n).value;
    RuleStepTouches(db.rules, q, a.competitor.id, a.policy.id, n.rule);
  }

  /** Unless the named policy is put in force, the rules select the same policy as before. */
  lemma SelectionStays(db: Db, q: Request, n: NewIds, t: Target)
    requires Keyed(db) && Unused(db, n) && Apply(db, q, n).Ok?
    requires !PutsNamedInForce(db, q, Apply(db, q, n).value.competitor.id, t)
    ensures RulePolicy(Apply(db, q, n).value.db, t) == RulePolicy(db, t)
  {
    var a := Apply(db, q, n).value;
    TouchedRuleIs(db, q, n);
    if !HasPatternRule(db, t) { TouchedRowApplies(db, q, n, t); }
    CandidatesStay(db.rules, a.db.rules, a.rule.id, t);
    SameCandidatesSamePolicy(db, a.db, t);
  }

  lemma TouchedRowApplies(db: Db, q: Request, n: NewIds, t: Target)
    requires Keyed(db) && Unused(db, n) && Apply(db, q, n).Ok? && !HasPatternRule(db, t)
    ensures var a := Apply(db, q, n).value; var id := a.rule.id;
      && id in a.db.rules
      && (PutsNamedInForce(db, q, a.competitor.id, t) <==>
            IsPlainRule(a.db.rules[id], t)
            && (id in db.rules ==> q.updateExisting && !Follows(db.rules[id], q.recommendation)))
      && (id in db.rules ==> (IsPlainRule(db.rules[id], t) <==> IsPlainRule(a.db.rules[id], t)))
  {
    var a := Apply(db, q, n).value;
    TouchedRuleIs(db, q, n);
    forall k | k in db.rules && IsDomainRule(db.rules[k], q.workspaceId, a.competitor.id, q.domain)
      ensures k == a.rule.id
    {
      assert a.rule.id in db.rules && SameRuleKey(db.rules[k], db.rules[a.rule.id]);
    }
  }

  lemma SelectionMoves(db: Db, q: Request, n: NewIds, t: Target)
    requires Keyed(db) && Unused(db, n) && Apply(db, q, n).Ok?
    requires PutsNamedInForce(db, q, Apply(db, q, n).value.competitor.id, t)
    ensures RulePolicy(Apply(db, q, n).value.db, t) == Some(Apply(db, q, n).value.policy.id)
  {
    var a := Apply(db, q, n).value;
    TouchedRuleIs(db, q, n);
    TouchedRowApplies(db, q, n, t);
    PatternRulesStay(db.rules, a.db.rules, a.rule.id, t);
    ApplyKeepsKeys(db, q, n);
    PlainRuleIsSelected(a.db, t, a.rule.id);
  }

  /** The named policy is no default, and no other policy changes. */
  lemma PoliciesStay(db: Db, q: Request, n: NewIds, ws: Id)
    requires Keyed(db) && Unused(db, n) && Apply(db, q, n).Ok?
    ensures var after := Apply(db, q, n).value.db.policies;
      && PolicyNamed(after, Some(ws), WORKSPACE_DEFAULT) == PolicyNamed(db.policies, Some(ws), WORKSPACE_DEFAULT)
      && PolicyNamed(after, None, GLOBAL_DEFAULT) == PolicyNamed(db.policies, None, GLOBAL_DEFAULT)
      && (forall id :: id != n.policy ==> (Visible(after, ws, id) <==> Visible(db.policies, ws, id)))
  {
    var a := Apply(db, q, n).value;
    ApplyKeepsKeys(db, q, n);
    TouchedPolicyIs(db, q, n);
    assert |PolicyName(q.domain)| > |WORKSPACE_DEFAULT|;
    SameNamed(db.policies, a.db.policies, a.policy.id, Some(ws), WORKSPACE_DEFAULT);
    SameNamed(db.policies, a.db.policies, a.policy.id, None, GLOBAL_DEFAULT);
  }

  lemma TouchedPolicyIs(db: Db, q: Request, n: NewIds)
    requires Keyed(db) && Unused(db, n) && Apply(db, q, n).Ok?
    ensures var a := Apply(db, q, n).value; var id := a.policy.id;
      && a.db.policies.Keys == db.policies.Keys + {id} && id in a.db.policies
      && IsPolicyNamed(a.db.policies[id], q.workspaceId, PolicyName(q.domain))
      && (if id in db.policies then IsPolicyNamed(db.policies[id], q.workspaceId, PolicyName(q.domain))
          else id == n.policy)
      && (forall k :: k in db.policies && k != id ==> a.db.policies[k] == db.policies[k])
  {
    PolicyStepKeeps(db.policies, q, n.policy);
    if id :| id in db.policies && IsPolicyNamed(db.policies[id], q.workspaceId, PolicyName(q.domain)) {
      PolicyFound(db.policies, q, n.policy, id);
    }
  }

  lemma SameNamed(before: map<Id, Policy>, after: map<Id, Policy>, touched: Id, ws: Option<Id>, name: string)
    requires PoliciesKeyed(before) && PoliciesKeyed(after) && touched in after && after.Keys == before.Keys + {touched}
    requires forall k :: k in before && k != touched ==> after[k] == before[k]
    requires !IsNamed(after[touched], ws, name) && (touched in before ==> !IsNamed(before[touched], ws, name))
    ensures PolicyNamed(after, ws, name) == PolicyNamed(before, ws, name)
  {
    if id :| id in before && IsNamed(before[id], ws, name) {
      PolicyNamedIs(before, ws, name, id);
      PolicyNamedIs(after, ws, name, id);
    }
  }

  /** For every URL of every competitor that has a policy in force: without permission to downgrade, an onboarding
      lowers the tier in force in exactly one case. It puts the policy named after the domain in force, by creating the
      plain rule or by retuning an enabled one, and that policy will rank below the tier there was, be that a rule's,
      the workspace default's or the global default's. */
  lemma TierInForceDropsExactly(db: Db, q: Request, n: NewIds, t: Target)
    requires Keyed(db) && Unused(db, n) && Unmentioned(db, n) && Apply(db, q, n).Ok? && !q.allowDowngrade
    requires TierInForce(db, t).Some?
    ensures var a := Apply(db, q, n).value;
      && TierInForce(a.db, t).Some?
      && (TierInForce(a.db, t).value < TierInForce(db, t).value <==>
            PutsNamedInForce(db, q, a.competitor.id, t) && NamedEndsBelow(db, q, TierInForce(db, t).value))
  {
    var a := Apply(db, q, n).value;
    if PutsNamedInForce(db, q, a.competitor.id, t) {
      InForceMoves(db, q, n, t);
      NamedEndsBelowExactly(db, q, n.policy, TierInForce(db, t).value);
    } else {
      InForceStays(db, q, n, t);
      TiersAreKept(db.policies, q, n.policy);
    }
  }

  lemma InForceMoves(db: Db, q: Request, n: NewIds, t: Target)
    requires Keyed(db) && Unused(db, n) && Apply(db, q, n).Ok?
    requires PutsNamedInForce(db, q, Apply(db, q, n).value.competitor.id, t)
    ensures InForce(Apply(db, q, n).value.db, t) == Some(Apply(db, q, n).value.policy.id)
  {
    SelectionMoves(db, q, n, t);
    TouchedPolicyIs(db, q, n);
  }

  lemma InForceStays(db: Db, q: Request, n: NewIds, t: Target)
    requires Keyed(db) && Unused(db, n) && Unmentioned(db, n) && Apply(db, q, n).Ok?
    requires !PutsNamedInForce(db, q, Apply(db, q, n).value.competitor.id, t)
    ensures InForce(Apply(db, q, n).value.db, t) == InForce(db, t)
  {
    var after := Apply(db, q, n).value.db;
    SelectionStays(db, q, n, t);
    PoliciesStay(db, q, n, t.workspaceId);
    RulePolicyIsMentioned(db, t);
    DefaultsAreOld(db, t.workspaceId);
    ResolveStays(db.policies, after.policies, t.workspaceId, n.policy, RulePolicy(db, t),
                 PolicyNamed(db.policies, Some(t.workspaceId), WORKSPACE_DEFAULT),
                 PolicyNamed(db.policies, None, GLOBAL_DEFAULT));
  }

  lemma DefaultsAreOld(db: Db, ws: Id)
    ensures forall w, name :: PolicyNamed(db.policies, w, name).Some? ==>
      PolicyNamed(db.policies, w, name).value in db.policies
  {}

  lemma ResolveStays(before: map<Id, Policy>, after: map<Id, Policy>, ws: Id, newId: Id, rule: Option<Id>,
                     workspace: Option<Id>, global: Option<Id>)
    requires forall id :: id != newId ==> (Visible(after, ws, id) <==> Visible(before, ws, id))
    requires rule != Some(newId) && workspace != Some(newId) && global != Some(newId)
    ensures Resolve(after, ws, rule, workspace, global) == Resolve(before, ws, rule, workspace, global)
  {}

  lemma RulePolicyIsMentioned(db: Db, t: Target)
    ensures RulePolicy(db, t).Some? ==> exists r :: r in db.rules && db.rules[r].policyId == RulePolicy(db, t).value
  {}

  /** A first onboarding, with neither updates nor permission to downgrade: the new rule takes the competitor's URLs
      from the workspace default's browser tier to direct access. */
  lemma FirstRuleCanDropTheTier() returns (db: Db, q: Request, n: NewIds, t: Target)
    ensures Keyed(db) && Unused(db, n) && Unmentioned(db, n) && !q.updateExisting && !q.allowDowngrade
      && Apply(db, q, n).Ok?
    ensures TierInForce(db, t) == Some(Rank(BrowserFallback))
    ensures TierInForce(Apply(db, q, n).value.db, t).Some?
      && TierInForce(Apply(db, q, n).value.db, t).value < Rank(BrowserFallback)
  {
    q := Request("w", "d", "d", None, Recommendation(DirectOnly, 10, 1, 2), ExtractionConfig(false, None, None, None),
                 false, false);
    n := NewIds("c2", "p2", "r2", "s2");
    t := Target("w", "c", "d", "https://d/item");
    var standard := Policy(Some("w"), WORKSPACE_DEFAULT, BrowserFallback, false, true);
    db := Db(map["c" := Competitor("w", "d", "d", None, None)], map["def" := standard], map[], map[]);
    assert |PolicyName("d")| > |WORKSPACE_DEFAULT|;
    CompetitorFound(db.competitors, q, n.competitor, "c");
    SelectsTheFirst(db.rules, t);
    PolicyNamedIs(db.policies, Some("w"), WORKSPACE_DEFAULT, "def");
    assert PutsNamedInForce(db, q, "c", t) && NamedEndsBelow(db, q, Rank(BrowserFallback));
    TierInForceDropsExactly(db, q, n, t);
  }

  // ----- the resolution, told in the rows

  /** An enabled rule of the competitor under this domain. */
  predicate IsOwnRule(r: Rule, t: Target) {
    r.enabled && r.workspaceId == t.workspaceId && r.competitorId == t.competitorId && r.domain == t.domain
  }

  /** Its pattern is a part of the URL. */
  ghost predicate Hits(r: Rule, t: Target) {
    IsOwnRule(r, t) && r.urlPattern.Some? && IsPartOf(r.urlPattern.value, t.url)
  }

  ghost predicate IsPartOf(pattern: string, url: string) {
    exists before, after :: url == before + pattern + after
  }

  lemma OccursExactly(pattern: string, url: string)
    ensures Occurs(pattern, url) <==> IsPartOf(pattern, url)
  {
    if i :| 0 <= i <= |url| - |pattern| && OccursAt(pattern, url, i) {
      assert url == url[..i] + pattern + url[i + |pattern|..];
    }
    if before, after :| url == before + pattern + after {
      assert OccursAt(pattern, url, |before|);
    }
  }

  /** The longest pattern that hits, or a rule without one where none hits; the smallest id among equals. */
  ghost predicate IsMostSpecific(rules: map<Id, Rule>, t: Target, id: Id) {
    && id in rules
    && if Hits(rules[id], t) then
         forall o :: o in rules && Hits(rules[o], t) ==>
           var (mine, other) := (|rules[id].urlPattern.value|, |rules[o].urlPattern.value|);
           other < mine || (other == mine && StrLeq(id, o))
       else
         && IsOwnRule(rules[id], t) && rules[id].urlPattern == None
         && forall o :: o in rules ==>
              !Hits(rules[o], t) && (IsOwnRule(rules[o], t) && rules[o].urlPattern == None ==> StrLeq(id, o))
  }

  lemma HitsExactly(rules: map<Id, Rule>, t: Target)
    ensures forall id :: id in rules ==> (IsPatternRule(rules[id], t) <==> Hits(rules[id], t))
  {
    forall id | id in rules && rules[id].urlPattern.Some?
      ensures IsPatternRule(rules[id], t) <==> Hits(rules[id], t)
    {
      OccursExactly(rules[id].urlPattern.value, t.url);
    }
  }

  /** The rule selected for a URL is the most specific enabled one, and none is selected only if none applies. */
  lemma SelectedRuleExactly(rules: map<Id, Rule>, t: Target)
    ensures forall id :: SelectDomainRule(rules, t) == Some(id) <==> IsMostSpecific(rules, t, id)
    ensures SelectDomainRule(rules, t) == None <==>
      forall id :: id in rules ==> !Hits(rules[id], t) && !(IsOwnRule(rules[id], t) && rules[id].urlPattern == None)
  {
    HitsExactly(rules, t);
    SelectsTheFirst(rules, t);
    var candidates := Candidates(rules, t);
    forall id
      ensures IsFirst(candidates, id) <==> IsMostSpecific(rules, t, id)
    {
      if id in candidates { FirstExactly(rules, t, id); }
    }
    if id :| id in rules && (Hits(rules[id], t) || (IsOwnRule(rules[id], t) && rules[id].urlPattern == None)) {
      assert IsPatternRule(rules[id], t) || IsPlainRule(rules[id], t);
      SomeCandidate(rules, t, id);
    }
  }

  lemma SomeCandidate(rules: map<Id, Rule>, t: Target, id: Id)
    requires id in rules && (IsPatternRule(rules[id], t) || IsPlainRule(rules[id], t))
    ensures Candidates(rules, t) != map[]
  {
    if p :| p in rules && IsPatternRule(rules[p], t) {
      assert p in Candidates(rules, t);
    } else {
      assert id in Candidates(rules, t);
    }
  }

  lemma FirstExactly(rules: map<Id, Rule>, t: Target, id: Id)
    requires id in Candidates(rules, t)
    requires forall o :: o in rules ==> (IsPatternRule(rules[o], t) <==> Hits(rules[o], t))
    ensures IsFirst(Candidates(rules, t), id) <==> IsMostSpecific(rules, t, id)
  {
    var candidates := Candidates(rules, t);
    if Hits(rules[id], t) {
      assert IsPatternRule(rules[id], t);
      assert candidates == PatternRules(rules, t);
      forall o | o in rules ensures o in candidates <==> Hits(rules[o], t) {}
    } else {
      forall o | o in rules
        ensures !Hits(rules[o], t) && (o in candidates <==> IsOwnRule(rules[o], t) && rules[o].urlPattern == None)
      {
        assert IsPatternRule(rules[o], t) <==> Hits(rules[o], t);
      }
    }
    if IsFirst(candidates, id) {
      forall o | o in candidates ensures Precedes(candidates, id, o) {}
    }
  }

  /** The policy in force: that of the selected rule, else the workspace's `default`, else the `global_default`; one
      that the workspace does not see is passed over. */
  lemma PolicyInForceExactly(db: Db, t: Target)
    ensures var (selected, p, ws) := (SelectDomainRule(db.rules, t), InForce(db, t), Some(t.workspaceId));
      if selected.Some? && selected.value in db.rules && db.rules[selected.value].policyId in db.policies
         && db.policies[db.rules[selected.value].policyId].workspaceId in {ws, None}
      then p == Some(db.rules[selected.value].policyId)
      else if exists id :: id in db.policies && db.policies[id].workspaceId == ws && db.policies[id].name == "default"
      then
        p.Some? && p.value in db.policies
        && db.policies[p.value].workspaceId == ws && db.policies[p.value].name == "default"
      else if exists id ::
                id in db.policies && db.policies[id].workspaceId == None && db.policies[id].name == "global_default"
      then
        p.Some? && p.value in db.policies
        && db.policies[p.value].workspaceId == None && db.policies[p.value].name == "global_default"
      else p == None
  {
    NamedExactly(db.policies, Some(t.workspaceId), "default");
    NamedExactly(db.policies, None, "global_default");
  }

  lemma NamedExactly(policies: map<Id, Policy>, ws: Option<Id>, name: string)
    ensures var p := PolicyNamed(policies, ws, name);
      && (p.Some? ==>
            p.value in policies && policies[p.value].workspaceId == ws && policies[p.value].name == name)
      && (p.Some? <==> exists id :: id in policies && policies[id].workspaceId == ws && policies[id].name == name)
  {
    if id :| id in policies && policies[id].workspaceId == ws && policies[id].name == name {
      assert IsNamed(policies[id], ws, name);
    }
  }
}
