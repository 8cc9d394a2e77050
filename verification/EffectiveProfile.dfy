/**
 Which scrape profile is in force for a match, libs/shared/app_shared/profiles/resolution.py,
 and what an onboarding does to its extraction fields.  The chain is the match's own
 override, the competitor's default, the workspace's default and the global default;
 the domain strategy between the first two never supplies one.
 */
module EffectiveProfile {
  import opened Wrappers
  import opened Onboarding

  datatype Field = PriceSelector | PriceJsonPath | CurrencyJsonPath

  function Stored(p: Profile, f: Field): Option<string> {
    match f
    case PriceSelector => p.priceSelector
    case PriceJsonPath => p.priceJsonPath
    case CurrencyJsonPath => p.currencyJsonPath
  }

  function Proposed(c: ExtractionConfig, f: Field): Option<string> {
    match f
    case PriceSelector => c.priceSelector
    case PriceJsonPath => c.priceJsonPath
    case CurrencyJsonPath => c.currencyJsonPath
  }

  // ----- the resolution

  /** What is asked: a match of a competitor, with its own override and its workspace's default. */
  datatype Target = Target(workspaceId: Id, competitorId: Id, override: Option<Id>, workspaceDefault: Option<Id>)

  const GLOBAL_DEFAULT := "global_default"

  predicate Visible(profiles: map<Id, Profile>, ws: Id, id: Id) {
    id in profiles && (profiles[id].workspaceId == Some(ws) || profiles[id].workspaceId == None)
  }

  predicate Qualifies(profiles: map<Id, Profile>, ws: Id, candidate: Option<Id>) {
    candidate.Some? && Visible(profiles, ws, candidate.value)
  }

  /** `resolve_group` */
  function ResolveGroup(profiles: map<Id, Profile>, ws: Id, competitor: Option<Id>, workspace: Option<Id>,
                        global: Option<Id>)
    : Option<Id>
  {
    if Qualifies(profiles, ws, competitor) then competitor
    else if Qualifies(profiles, ws, workspace) then workspace
    else if Qualifies(profiles, ws, global) then global
    else None
  }

  /** `apply_match_override` on top of the group's result. */
  function Resolve(profiles: map<Id, Profile>, t: Target, competitor: Option<Id>, global: Option<Id>): (r: Option<Id>)
    ensures r.Some? ==> Visible(profiles, t.workspaceId, r.value)
  {
    if Qualifies(profiles, t.workspaceId, t.override) then t.override
    else ResolveGroup(profiles, t.workspaceId, competitor, t.workspaceDefault, global)
  }

  function CompetitorDefault(db: Db, t: Target): Option<Id> { DefaultIn(db.competitors, t) }

  /** Read within the workspace. */
  function DefaultIn(competitors: map<Id, Competitor>, t: Target): Option<Id> {
    if t.competitorId in competitors && competitors[t.competitorId].workspaceId == t.workspaceId
    then competitors[t.competitorId].defaultProfile
    else None
  }

  predicate IsGlobalDefault(p: Profile) { p.workspaceId == None && p.name == GLOBAL_DEFAULT }

  ghost function GlobalDefault(profiles: map<Id, Profile>): Option<Id> {
    if exists id :: id in profiles && IsGlobalDefault(profiles[id]) then
      var id :| id in profiles && IsGlobalDefault(profiles[id]);
      Some(id)
    else None
  }

  ghost function InForce(db: Db, t: Target): Option<Id> {
    Resolve(db.profiles, t, CompetitorDefault(db, t), GlobalDefault(db.profiles))
  }

  /** The field of the profile in force, if there is a profile and it has the field. */
  ghost function FieldInForce(db: Db, t: Target, f: Field): Option<string> {
    var p := InForce(db, t);
    if p.Some? && p.value in db.profiles then Stored(db.profiles[p.value], f) else None
  }

  // ----- the profile a competitor ends up with

  predicate HasProfile(db: Db, q: Request) {
    exists id :: id in db.profiles && IsProfileNamed(db.profiles[id], q.workspaceId, ProfileName(q.domain))
  }

  /** The profile named after the domain will hold `text`: its stored text stays; a gap is filled from the probe with
      updates on, if the probe found a method; and a new row takes what the probe found. */
  ghost predicate NamedEndsWith(db: Db, q: Request, f: Field, text: string) {
    if !HasProfile(db, q) then Proposed(q.extraction, f) == Some(text)
    else
      exists id ::
        && id in db.profiles && IsProfileNamed(db.profiles[id], q.workspaceId, ProfileName(q.domain))
        && (Stored(db.profiles[id], f) == Some(text)
            || (Stored(db.profiles[id], f) == None && q.updateExisting && q.extraction.hasMethod
                && Proposed(q.extraction, f) == Some(text)))
  }

  lemma UpdatedField(t: map<Id, Profile>, q: Request, id: Id, f: Field)
    requires id in t
    ensures ProfileUpdate(t, q, id).rows.Keys == t.Keys
    ensures Stored(ProfileUpdate(t, q, id).rows[id], f) ==
      if Stored(t[id], f) == None && q.updateExisting && q.extraction.hasMethod then Proposed(q.extraction, f)
        else Stored(t[id], f)
  {
    if q.extraction.hasMethod { ProfileUpdateFillsGaps(t[id], q.extraction); }
  }

  lemma NamedEndsWithExactly(db: Db, q: Request, newId: Id, f: Field, text: string)
    requires ProfilesKeyed(db.profiles) && newId !in db.profiles
    ensures var s := ProfileStep(db.profiles, q, newId);
      s.touched.id in s.rows && (Stored(s.rows[s.touched.id], f) == Some(text) <==> NamedEndsWith(db, q, f, text))
  {
    if id :| id in db.profiles && IsProfileNamed(db.profiles[id], q.workspaceId, ProfileName(q.domain)) {
      ProfileFound(db.profiles, q, newId, id);
      UpdatedField(db.profiles, q, id, f);
    }
  }

  /** No profile row loses a populated field, but the competitor is always repointed at the profile named after the
      domain: for each of the three fields, the text its former default held is lost to it exactly when that profile
      ends without it, which is then another row. No permission is asked for. */
  lemma CompetitorFieldLostExactly(db: Db, q: Request, n: NewIds, f: Field)
    requires Keyed(db) && Unused(db, n) && Apply(db, q, n).Ok?
    requires var c := Apply(db, q, n).value.competitor.id;
      && c in db.competitors && db.competitors[c].defaultProfile.Some?
      && db.competitors[c].defaultProfile.value in db.profiles
      && Stored(db.profiles[db.competitors[c].defaultProfile.value], f).Some?
    ensures var a := Apply(db, q, n).value;
      var was := db.competitors[a.competitor.id].defaultProfile.value;
      var text := Stored(db.profiles[was], f).value;
      && a.competitor.id in a.db.competitors && a.db.competitors[a.competitor.id].defaultProfile == Some(a.profile.id)
      && a.profile.id in a.db.profiles
      && (Stored(a.db.profiles[a.profile.id], f) != Some(text) <==> !NamedEndsWith(db, q, f, text))
      && (!NamedEndsWith(db, q, f, text) ==> a.profile.id != was)
  {
    var a := Apply(db, q, n).value;
    var was := db.competitors[a.competitor.id].defaultProfile.value;
    NamedEndsWithExactly(db, q, n.profile, f, Stored(db.profiles[was], f).value);
    FieldsAreKept(db.profiles, q, n.profile);
    ApplyWires(db, q, n);
  }

  /** With updates off, no permission and a probe that found nothing, a hand-tuned selector is lost to its
      competitor. */
  lemma HandTunedSelectorCanBeLost() returns (db: Db, q: Request, n: NewIds)
    ensures Keyed(db) && Unused(db, n) && !q.updateExisting && !q.allowDowngrade && !q.extraction.hasMethod
      && Apply(db, q, n).Ok?
    ensures var a := Apply(db, q, n).value;
      && a.competitor.id in db.competitors && db.competitors[a.competitor.id].defaultProfile == Some("hand")
      && "hand" in db.profiles && db.profiles["hand"].priceSelector == Some(".price")
      && a.competitor.id in a.db.competitors && a.db.competitors[a.competitor.id].defaultProfile == Some(a.profile.id)
      && a.profile.id in a.db.profiles && a.db.profiles[a.profile.id].priceSelector == None
  {
    q := Request("w", "d", "d", None, Recommendation(DirectOnly, 10, 1, 2), ExtractionConfig(false, None, None, None),
                 false, false);
    n := NewIds("c2", "p2", "r2", "s2");
    db := Db(map["c" := Competitor("w", "d", "d", None, Some("hand"))], map[], map[],
             map["hand" := Profile(Some("w"), "hand-tuned", Some(".price"), None, None)]);
    CompetitorFound(db.competitors, q, n.competitor, "c");
    assert ProfileName("d")[0] != "hand-tuned"[0];
    ApplyWires(db, q, n);
  }

  // ----- what an onboarding does to the profile in force

  /** The apply puts the profile named after the domain in force: the match is one of the competitor's, without a
      visible override. */
  predicate PutsNamedInForce(db: Db, q: Request, competitor: Id, t: Target) {
    t.workspaceId == q.workspaceId && t.competitorId == competitor && !Qualifies(db.profiles, t.workspaceId, t.override)
  }

  /** Nothing refers to the id that a new profile would get. */
  ghost predicate Unmentioned(db: Db, n: NewIds, t: Target) {
    && t.override != Some(n.profile) && t.workspaceDefault != Some(n.profile)
    && forall c :: c in db.competitors ==> db.competitors[c].defaultProfile != Some(n.profile)
  }

  /** The profiles step changes only the named profile, which is neither shared nor the global default. */
  lemma TouchedProfileIs(t: map<Id, Profile>, q: Request, newId: Id)
    requires ProfilesKeyed(t) && newId !in t
    ensures var s := ProfileStep(t, q, newId); var id := s.touched.id;
      && s.rows.Keys == t.Keys + {id} && id in s.rows
      && IsProfileNamed(s.rows[id], q.workspaceId, ProfileName(q.domain))
      && (if id in t then IsProfileNamed(t[id], q.workspaceId, ProfileName(q.domain)) else id == newId)
      && forall k :: k in t && k != id ==> s.rows[k] == t[k]
  {
    ProfileStepKeeps(t, q, newId);
    if id :| id in t && IsProfileNamed(t[id], q.workspaceId, ProfileName(q.domain)) {
      ProfileFound(t, q, newId, id);
    }
  }

  lemma VisibilityStays(t: map<Id, Profile>, q: Request, newId: Id, ws: Id)
    requires ProfilesKeyed(t) && newId !in t
    ensures var after := ProfileStep(t, q, newId).rows;
      && (forall id :: id != newId ==> (Visible(after, ws, id) <==> Visible(t, ws, id)))
      && (forall id :: id in t && id in after ==> (IsGlobalDefault(after[id]) <==> IsGlobalDefault(t[id])))
      && (newId in after ==> !IsGlobalDefault(after[newId]))
  {
    TouchedProfileIs(t, q, newId);
  }

  lemma GlobalDefaultStays(t: map<Id, Profile>, q: Request, newId: Id)
    requires ProfilesKeyed(t) && newId !in t
    ensures GlobalDefault(ProfileStep(t, q, newId).rows) == GlobalDefault(t)
  {
    VisibilityStays(t, q, newId, "");
    TouchedProfileIs(t, q, newId);
    ProfileStepKeeps(t, q, newId);
    if id :| id in t && IsGlobalDefault(t[id]) {
      OneGlobalDefault(t, id);
      OneGlobalDefault(ProfileStep(t, q, newId).rows, id);
    }
  }

  lemma OneGlobalDefault(t: map<Id, Profile>, id: Id)
    requires ProfilesKeyed(t) && id in t && IsGlobalDefault(t[id])
    ensures GlobalDefault(t) == Some(id)
  {}

  lemma ResolveStays(before: map<Id, Profile>, after: map<Id, Profile>, t: Target, newId: Id, competitor: Option<Id>,
                     global: Option<Id>)
    requires forall id :: id != newId ==> (Visible(after, t.workspaceId, id) <==> Visible(before, t.workspaceId, id))
    requires t.override != Some(newId) && t.workspaceDefault != Some(newId) && competitor != Some(newId)
      && global != Some(newId)
    ensures Resolve(after, t, competitor, global) == Resolve(before, t, competitor, global)
  {}

  lemma InForceStays(db: Db, q: Request, n: NewIds, t: Target)
    requires Keyed(db) && Unused(db, n) && Unmentioned(db, n, t) && Apply(db, q, n).Ok?
    requires !PutsNamedInForce(db, q, Apply(db, q, n).value.competitor.id, t)
    ensures InForce(Apply(db, q, n).value.db, t) == InForce(db, t)
  {
    var a := Apply(db, q, n).value;
    VisibilityStays(db.profiles, q, n.profile, t.workspaceId);
    GlobalDefaultStays(db.profiles, q, n.profile);
    if !Qualifies(db.profiles, t.workspaceId, t.override) {
      OtherDefaultStays(db, q, n, t);
      ResolveStays(db.profiles, a.db.profiles, t, n.profile, CompetitorDefault(db, t), GlobalDefault(db.profiles));
    }
  }

  lemma OtherDefaultStays(db: Db, q: Request, n: NewIds, t: Target)
    requires Keyed(db) && Unused(db, n) && Apply(db, q, n).Ok?
    requires !(t.workspaceId == q.workspaceId && t.competitorId == Apply(db, q, n).value.competitor.id)
    ensures CompetitorDefault(Apply(db, q, n).value.db, t) == CompetitorDefault(db, t)
  {
    var a := Apply(db, q, n).value;
    StepSparesOthers(db.competitors, q, n.competitor, a.policy.id, a.profile.id, t);
  }

  lemma StepSparesOthers(t: map<Id, Competitor>, q: Request, newId: Id, policy: Id, profile: Id, target: Target)
    requires CompetitorsKeyed(t) && newId !in t && CompetitorStep(t, q, newId).Ok?
    requires !(target.workspaceId == q.workspaceId
               && target.competitorId == CompetitorStep(t, q, newId).value.touched.id)
    ensures var s := CompetitorStep(t, q, newId).value;
      DefaultIn(Defaulted(s.rows, s.touched.id, policy, profile), target) == DefaultIn(t, target)
  {
    CompetitorStepKeeps(t, q, newId);
  }

  lemma InForceMoves(db: Db, q: Request, n: NewIds, t: Target)
    requires Keyed(db) && Unused(db, n) && Unmentioned(db, n, t) && Apply(db, q, n).Ok?
    requires PutsNamedInForce(db, q, Apply(db, q, n).value.competitor.id, t)
    ensures InForce(Apply(db, q, n).value.db, t) == Some(Apply(db, q, n).value.profile.id)
  {
    CompetitorStepKeeps(db.competitors, q, n.competitor);
    TouchedProfileIs(db.profiles, q, n.profile);
    VisibilityStays(db.profiles, q, n.profile, t.workspaceId);
  }

  /** For every match and each field: a text that is in force before an onboarding is in force no longer in exactly one
      case, with or without updates and permission. The match is the competitor's, no override of its own is visible,
      and the profile named after the domain ends without the text, wherever it was in force from: the competitor's
      default, the workspace's or the global one. */
  lemma FieldInForceLostExactly(db: Db, q: Request, n: NewIds, t: Target, f: Field)
    requires Keyed(db) && Unused(db, n) && Unmentioned(db, n, t) && Apply(db, q, n).Ok? && FieldInForce(db, t, f).Some?
    ensures var a := Apply(db, q, n).value; var text := FieldInForce(db, t, f).value;
      FieldInForce(a.db, t, f) != Some(text) <==>
        PutsNamedInForce(db, q, a.competitor.id, t) && !NamedEndsWith(db, q, f, text)
  {
    var a := Apply(db, q, n).value;
    if PutsNamedInForce(db, q, a.competitor.id, t) {
      InForceMoves(db, q, n, t);
      NamedEndsWithExactly(db, q, n.profile, f, FieldInForce(db, t, f).value);
    } else {
      InForceStays(db, q, n, t);
      FieldsAreKept(db.profiles, q, n.profile);
    }
  }

  /** A first onboarding whose probe finds nothing hides the workspace's profile and its selector from the
      competitor. */
  lemma FirstOnboardingCanHideTheProfile() returns (db: Db, q: Request, n: NewIds, t: Target)
    ensures Keyed(db) && Unused(db, n) && Unmentioned(db, n, t) && !q.updateExisting && !q.allowDowngrade
      && Apply(db, q, n).Ok?
    ensures FieldInForce(db, t, PriceSelector) == Some(".price")
    ensures FieldInForce(Apply(db, q, n).value.db, t, PriceSelector) == None
  {
    q := Request("w", "d", "d", None, Recommendation(DirectOnly, 10, 1, 2), ExtractionConfig(false, None, None, None),
                 false, false);
    n := NewIds("c2", "p2", "r2", "s2");
    t := Target("w", "c", None, Some("std"));
    db := Db(map["c" := Competitor("w", "d", "d", None, None)], map[], map[],
             map["std" := Profile(Some("w"), "standard", Some(".price"), None, None)]);
    CompetitorFound(db.competitors, q, n.competitor, "c");
    assert ProfileName("d")[0] != "standard"[0];
    InForceMoves(db, q, n, t);
    ApplyWires(db, q, n);
  }

  // ----- the resolution, told in the rows

  predicate Sees(profiles: map<Id, Profile>, ws: Id, candidate: Option<Id>) {
    candidate.Some? && candidate.value in profiles && profiles[candidate.value].workspaceId in {Some(ws), None}
  }

  /** The profile in force: the match's override, else its competitor's default, else its workspace's, else the
      `global_default`; one that the workspace does not see is passed over. */
  lemma ProfileInForceExactly(db: Db, t: Target)
    ensures var (p, own) := (InForce(db, t),
          if t.competitorId in db.competitors && db.competitors[t.competitorId].workspaceId == t.workspaceId
          then db.competitors[t.competitorId].defaultProfile else None);
      if Sees(db.profiles, t.workspaceId, t.override) then p == t.override
      else if Sees(db.profiles, t.workspaceId, own) then p == own
      else if Sees(db.profiles, t.workspaceId, t.workspaceDefault) then p == t.workspaceDefault
      else if exists id ::
                id in db.profiles && db.profiles[id].workspaceId == None && db.profiles[id].name == "global_default"
      then
        p.Some? && p.value in db.profiles
        && db.profiles[p.value].workspaceId == None && db.profiles[p.value].name == "global_default"
      else p == None
  {
    if id :|
      id in db.profiles && db.profiles[id].workspaceId == None && db.profiles[id].name == "global_default"
    {
      assert IsGlobalDefault(db.profiles[id]);
    }
  }
}
