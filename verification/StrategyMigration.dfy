/**
 The data-moving statements of
 alembic/versions/6e4a9c8f2d10_versioned_strategy_methods.py.

 Every statement runs row by row, in an order nobody promises, and PostgreSQL
 checks a unique index at each row it writes, not at the end of the statement.
 The methods below therefore pick their rows arbitrarily and keep every index at
 every row.  A column that the migration adds is a map without an entry where
 the column is NULL, so dropping the column empties the map.
 */
module StrategyMigration {
  import opened Wrappers
  import opened Ordering

  type Id = string

  datatype Competitor = Competitor(workspaceId: Id, defaultScrapeProfile: Option<Id>)

  /** A row of `domain_strategy_profiles`. */
  datatype Profile = Profile(
    workspaceId: Id, competitorId: Id, access: Option<string>, extraction: Option<string>, confirmed: nat)

  /** A row of `domain_strategy_methods`. */
  datatype Method = Method(
    workspaceId: Id, profile: Id, scrapeProfile: Option<Id>, scrapeProfileVersion: Option<nat>,
    access: string, extraction: Option<string>, priority: nat, proofSampleSize: nat, retired: bool)

  /** A row of `strategy_attempt_stats`; `counters` stands for its other columns. */
  datatype Stat = Stat(profile: Id, kind: string, name: string, counters: seq<nat>)

  datatype Tables = Tables(
    workspaces: map<Id, Option<Id>>,
    competitors: map<Id, Competitor>,
    scrapeProfiles: map<Id, nat>,
    profiles: map<Id, Profile>,
    stats: map<Id, Stat>,
    methods: map<Id, Method>,
    preferred: map<Id, Id>,
    links: map<Id, Id>)

  // ----- constraints

  predicate SameLegacyKey(a: Stat, b: Stat) {
    a.profile == b.profile && a.kind == b.kind && a.name == b.name
  }

  /** The plain `uq_sas_profile_method_type_name`. */
  ghost predicate LegacyUnique(stats: map<Id, Stat>) {
    forall a, b :: a in stats && b in stats && SameLegacyKey(stats[a], stats[b]) ==> a == b
  }

  /** The partial `uq_sas_profile_method_type_name`, where `strategy_method_id IS NULL`. */
  ghost predicate UnlinkedUnique(stats: map<Id, Stat>, links: map<Id, Id>) {
    forall a, b :: a in stats && b in stats && a !in links && b !in links && SameLegacyKey(stats[a], stats[b]) ==>
      a == b
  }

  /** The partial `uq_sas_strategy_method_type`, where `strategy_method_id IS NOT NULL`. */
  ghost predicate LinkedUnique(stats: map<Id, Stat>, links: map<Id, Id>) {
    forall a, b ::
      a in stats && b in stats && a in links && b in links && links[a] == links[b] && stats[a].kind == stats[b].kind
      ==> a == b
  }

  ghost predicate StatIndexes(stats: map<Id, Stat>, links: map<Id, Id>) {
    UnlinkedUnique(stats, links) && LinkedUnique(stats, links)
  }

  predicate SameActivePriority(a: Method, b: Method) {
    !a.retired && !b.retired && a.profile == b.profile && a.priority == b.priority
  }

  /** `uq_dsm_profile_active_priority`. */
  ghost predicate ActivePriorityUnique(methods: map<Id, Method>) {
    forall m, n :: m in methods && n in methods && SameActivePriority(methods[m], methods[n]) ==> m == n
  }

  ghost predicate ValidDefault(t: Tables, d: Option<Id>) {
    d.Some? ==> d.value in t.scrapeProfiles
  }

  /** Foreign keys that hold before and after. */
  ghost predicate References(t: Tables) {
    && (forall w :: w in t.workspaces ==> ValidDefault(t, t.workspaces[w]))
    && (forall c :: c in t.competitors ==> ValidDefault(t, t.competitors[c].defaultScrapeProfile))
    && (forall p :: p in t.profiles ==> t.profiles[p].workspaceId in t.workspaces)
    && StatsHaveProfiles(t)
  }

  ghost predicate StatsHaveProfiles(t: Tables) {
    forall s :: s in t.stats ==> t.stats[s].profile in t.profiles
  }

  ghost predicate OldSchema(t: Tables) {
    References(t) && LegacyUnique(t.stats) && t.methods == map[] && t.preferred == map[] && t.links == map[]
  }

  ghost predicate MethodReferences(t: Tables, m: Method) {
    && m.profile in t.profiles && t.profiles[m.profile].workspaceId == m.workspaceId
    && ValidDefault(t, m.scrapeProfile)
  }

  ghost predicate NewSchema(t: Tables) {
    && References(t)
    && ActivePriorityUnique(t.methods) && StatIndexes(t.stats, t.links)
    && (forall m :: m in t.methods ==> MethodReferences(t, t.methods[m]))
    && (forall p :: p in t.preferred ==> p in t.profiles && t.preferred[p] in t.methods)
    && (forall s :: s in t.links ==> s in t.stats && t.links[s] in t.methods)
  }

  // ----- what the upgrade computes

  predicate SameWorkspaceCompetitor(t: Tables, p: Profile) {
    p.competitorId in t.competitors && t.competitors[p.competitorId].workspaceId == p.workspaceId
  }

  /** The rows that the joins and the WHERE clause of the backfill let through. */
  predicate Backfills(t: Tables, p: Profile) {
    SameWorkspaceCompetitor(t, p) && p.workspaceId in t.workspaces && p.access.Some?
  }

  function Coalesce<T>(a: Option<T>, b: Option<T>): Option<T> {
    if a.Some? then a else b
  }

  function DefaultProfile(t: Tables, p: Profile): Option<Id>
    requires Backfills(t, p)
  {
    Coalesce(t.competitors[p.competitorId].defaultScrapeProfile, t.workspaces[p.workspaceId])
  }

  /** One row of the INSERT ... SELECT; the scrape profile is left-joined. */
  function BackfillRow(t: Tables, id: Id, p: Profile): Method
    requires Backfills(t, p)
  {
    var sp := DefaultProfile(t, p);
    var version := if sp.Some? && sp.value in t.scrapeProfiles then Some(t.scrapeProfiles[sp.value]) else None;
    Method(p.workspaceId, id, sp, version, p.access.value, p.extraction, 0, p.confirmed, false)
  }

  predicate Backfilled(t: Tables, p: Id) {
    p in t.profiles && Backfills(t, t.profiles[p])
  }

  ghost predicate Mints(t: Tables, mint: Id -> Id) {
    forall p, q :: p in t.profiles && q in t.profiles && mint(p) == mint(q) ==> p == q
  }

  /** A statistics row that counts the access or the extraction half of its profile's preferred method. */
  predicate CountsPreferred(t: Tables, s: Stat) {
    && Backfilled(t, s.profile)
    && ( (s.kind == "ACCESS" && Some(s.name) == t.profiles[s.profile].access)
      || (s.kind == "EXTRACTION" && Some(s.name) == t.profiles[s.profile].extraction))
  }

  function MethodsOf(t: Tables, mint: Id -> Id, done: set<Id>): map<Id, Method>
    requires Mints(t, mint)
  {
    map p | p in done && Backfilled(t, p) :: mint(p) := BackfillRow(t, p, t.profiles[p])
  }

  function PreferredOf(t: Tables, mint: Id -> Id, done: set<Id>): map<Id, Id> {
    map p | p in done && Backfilled(t, p) :: mint(p)
  }

  function LinksOf(t: Tables, mint: Id -> Id, done: set<Id>): map<Id, Id> {
    map s | s in done && s in t.stats && CountsPreferred(t, t.stats[s]) :: mint(t.stats[s].profile)
  }

  function Upgraded(t: Tables, mint: Id -> Id): Tables
    requires Mints(t, mint)
  {
    t.(methods := MethodsOf(t, mint, t.profiles.Keys),
       preferred := PreferredOf(t, mint, t.profiles.Keys),
       links := LinksOf(t, mint, t.stats.Keys))
  }

  // ----- what the downgrade computes

  predicate Older(k: Id, s: Id) {
    StrLeq(k, s) && k != s
  }

  predicate HasOlder(stats: map<Id, Stat>, s: Id)
    requires s in stats
  {
    exists k :: k in stats && SameLegacyKey(stats[k], stats[s]) && Older(k, s)
  }

  /** What the self-join DELETE leaves. */
  function Kept(stats: map<Id, Stat>): map<Id, Stat> {
    map s | s in stats && !HasOlder(stats, s) :: stats[s]
  }

  function Downgraded(t: Tables): Tables {
    t.(stats := Kept(t.stats), methods := map[], preferred := map[], links := map[])
  }

  // ----- the migration, statement by statement

  class Database {
    var workspaces: map<Id, Option<Id>>
    var competitors: map<Id, Competitor>
    var scrapeProfiles: map<Id, nat>
    var profiles: map<Id, Profile>
    var stats: map<Id, Stat>
    var methods: map<Id, Method>
    var preferred: map<Id, Id>
    var links: map<Id, Id>

    function Now(): Tables
      reads this
    {
      Tables(workspaces, competitors, scrapeProfiles, profiles, stats, methods, preferred, links)
    }

    /** INSERT INTO domain_strategy_methods ... SELECT. */
    method BackfillMethods(mint: Id -> Id, ghost before: Tables)
      requires Now() == before && methods == map[] && Mints(before, mint)
      modifies this`methods
      ensures methods == MethodsOf(before, mint, before.profiles.Keys)
    {
      var t := Now();
      var todo, done := profiles.Keys, {};
      while todo != {}
        invariant Split(t.profiles.Keys, todo, done)
        invariant methods == MethodsOf(t, mint, done) && ActivePriorityUnique(methods)
        decreases |todo|
      {
        var p :| p in todo;
        InsertOne(t, mint, done, p);
        MethodsKeepIndex(t, mint, done + {p});
        if Backfilled(t, p) {
          methods := methods[mint(p) := BackfillRow(t, p, t.profiles[p])];
        }
        MoveOne(t.profiles.Keys, todo, done, p);
        todo, done := todo - {p}, done + {p};
      }
    }

    /** UPDATE domain_strategy_profiles SET preferred_method_id: if several methods matched, any of them could win. */
    method LinkPreferred(ghost mint: Id -> Id, ghost before: Tables)
      requires Mints(before, mint)
      requires profiles == before.profiles && preferred == map[]
      requires methods == MethodsOf(before, mint, before.profiles.Keys)
      modifies this`preferred
      ensures preferred == PreferredOf(before, mint, before.profiles.Keys)
    {
      var todo, done := profiles.Keys, {};
      while todo != {}
        invariant Split(before.profiles.Keys, todo, done)
        invariant preferred == PreferredOf(before, mint, done)
        decreases |todo|
      {
        var p :| p in todo;
        PreferOne(p, mint, before, done);
        MoveOne(before.profiles.Keys, todo, done, p);
        todo, done := todo - {p}, done + {p};
      }
    }

    method PreferOne(p: Id, ghost mint: Id -> Id, ghost before: Tables, ghost done: set<Id>)
      requires Mints(before, mint) && p in before.profiles
      requires methods == MethodsOf(before, mint, before.profiles.Keys)
      requires preferred == PreferredOf(before, mint, done)
      modifies this`preferred
      ensures preferred == PreferredOf(before, mint, done + {p})
    {
      MethodsOfProfile(before, mint, p);
      PreferStep(before, mint, done, p);
      if m :| m in methods && IsCurrentMethod(methods[m], p) {
        preferred := preferred[p := m];
      }
    }

    /** UPDATE strategy_attempt_stats SET strategy_method_id: both partial indexes hold after every row. */
    method LinkStats(ghost mint: Id -> Id, ghost before: Tables)
      requires Mints(before, mint) && StatsHaveProfiles(before) && LegacyUnique(before.stats)
      requires stats == before.stats && methods == MethodsOf(before, mint, before.profiles.Keys) && links == map[]
      modifies this`links
      ensures links == LinksOf(before, mint, before.stats.Keys)
    {
      var todo, done := stats.Keys, {};
      while todo != {}
        invariant Split(before.stats.Keys, todo, done)
        invariant links == LinksOf(before, mint, done)
        decreases |todo|
      {
        var s :| s in todo;
        LinkOne(s, mint, before, done);
        MoveOne(before.stats.Keys, todo, done, s);
        todo, done := todo - {s}, done + {s};
      }
      assert done == before.stats.Keys;
    }

    method LinkOne(s: Id, ghost mint: Id -> Id, ghost before: Tables, ghost done: set<Id>)
      requires Mints(before, mint) && StatsHaveProfiles(before) && LegacyUnique(before.stats) && s in before.stats
      requires stats == before.stats && methods == MethodsOf(before, mint, before.profiles.Keys)
      requires links == LinksOf(before, mint, done)
      modifies this`links
      ensures links == LinksOf(before, mint, done + {s})
      ensures StatIndexes(before.stats, links)
    {
      AnyPrefixOfLinksIsLegal(before, mint, done + {s});
      MethodsOfProfile(before, mint, stats[s].profile);
      LinkStep(before, mint, done, s);
      if m :| m in methods && IsMethodCounted(methods[m], stats[s]) {
        links := links[s := m];
      }
    }

    method Upgrade(mint: Id -> Id)
      requires OldSchema(Now()) && Mints(Now(), mint)
      modifies this`methods, this`preferred, this`links
      ensures Now() == Upgraded(old(Now()), mint)
    {
      ghost var before := Now();
      BackfillMethods(mint, before);
      assert preferred == map[] && Mints(before, mint);
      LinkPreferred(mint, before);
      assert stats == before.stats && links == map[] && Mints(before, mint);
      assert StatsHaveProfiles(before) && LegacyUnique(before.stats);
      LinkStats(mint, before);
      UpgradedIs(before, mint, Now());
    }

    /** DELETE ... USING: every row is judged against the rows as they were when the statement began. */
    method DeleteNewer()
      modifies this`stats
      ensures stats == Kept(old(stats))
    {
      var snapshot, todo := stats, stats.Keys;
      while todo != {}
        invariant todo <= snapshot.Keys
        invariant stats == map s | s in snapshot && (s in todo || !HasOlder(snapshot, s)) :: snapshot[s]
        decreases |todo|
      {
        var s :| s in todo;
        todo := todo - {s};
        if keeper :| keeper in snapshot && SameLegacyKey(snapshot[keeper], snapshot[s]) && Older(keeper, s) {
          stats := stats - {s};
        }
      }
    }

    method Downgrade()
      modifies this
      ensures Now() == Downgraded(old(Now()))
    {
      DeleteNewer();
      links := map[];
      preferred := map[];
      methods := map[];
    }
  }

  predicate IsCurrentMethod(m: Method, profile: Id) {
    m.profile == profile && m.priority == 0 && !m.retired
  }

  predicate IsMethodCounted(m: Method, s: Stat) {
    && m.profile == s.profile && m.priority == 0
    && ((s.kind == "ACCESS" && s.name == m.access) || (s.kind == "EXTRACTION" && Some(s.name) == m.extraction))
  }

  // ----- upgrade

  /** The rows still to visit and the rows visited, in an order nobody promises. */
  ghost predicate Split(all: set<Id>, todo: set<Id>, done: set<Id>) {
    done == all - todo && todo <= all
  }

  lemma MoveOne(all: set<Id>, todo: set<Id>, done: set<Id>, x: Id)
    requires Split(all, todo, done) && x in todo
    ensures Split(all, todo - {x}, done + {x}) && |todo - {x}| < |todo|
  {}

  lemma LinkStep(t: Tables, mint: Id -> Id, done: set<Id>, s: Id)
    requires s in t.stats
    ensures LinksOf(t, mint, done + {s}) ==
      if CountsPreferred(t, t.stats[s]) then LinksOf(t, mint, done)[s := mint(t.stats[s].profile)]
        else LinksOf(t, mint, done)
  {}

  lemma PreferStep(t: Tables, mint: Id -> Id, done: set<Id>, p: Id)
    ensures PreferredOf(t, mint, done + {p}) ==
      if Backfilled(t, p) then PreferredOf(t, mint, done)[p := mint(p)] else PreferredOf(t, mint, done)
  {}

  lemma InsertOne(t: Tables, mint: Id -> Id, done: set<Id>, p: Id)
    requires Mints(t, mint) && p in t.profiles
    ensures MethodsOf(t, mint, done + {p}) ==
      if Backfilled(t, p) then MethodsOf(t, mint, done)[mint(p) := BackfillRow(t, p, t.profiles[p])]
        else MethodsOf(t, mint, done)
  {}

  /** Whatever rows are already in, they keep `uq_dsm_profile_active_priority`. */
  lemma MethodsKeepIndex(t: Tables, mint: Id -> Id, done: set<Id>)
    requires Mints(t, mint)
    ensures ActivePriorityUnique(MethodsOf(t, mint, done))
    ensures var ms := MethodsOf(t, mint, done);
      forall m, n :: m in ms && n in ms && m != n ==> ms[m].profile != ms[n].profile
  {
    var ms := MethodsOf(t, mint, done);
    forall m | m in ms
      ensures m == mint(ms[m].profile)
    {}
  }

  /** The backfill gives a profile one method, or none, and it counts exactly the rows that `CountsPreferred` names. */
  lemma MethodsOfProfile(t: Tables, mint: Id -> Id, p: Id)
    requires Mints(t, mint) && p in t.profiles
    ensures var ms := MethodsOf(t, mint, t.profiles.Keys);
      && (forall m :: m in ms && ms[m].profile == p ==> Backfilled(t, p) && m == mint(p) && IsCurrentMethod(ms[m], p))
      && (Backfilled(t, p) ==> mint(p) in ms && IsCurrentMethod(ms[mint(p)], p))
      && (Backfilled(t, p) ==> forall s: Stat :: s.profile == p ==>
        (IsMethodCounted(ms[mint(p)], s) <==> CountsPreferred(t, s)))
  {}

  /** Two rows that are linked to one method and have one kind share their whole legacy key. */
  lemma AnyPrefixOfLinksIsLegal(t: Tables, mint: Id -> Id, done: set<Id>)
    requires LegacyUnique(t.stats) && Mints(t, mint)
    ensures StatIndexes(t.stats, LinksOf(t, mint, done))
  {}

  /** Each profile with a preferred access method and a competitor of its own workspace gets exactly one method, which
      is active, has priority zero and is the preferred one; every other profile gets none. */
  lemma OneProvenMethodEach(t: Tables, mint: Id -> Id, p: Id)
    requires OldSchema(t) && Mints(t, mint) && p in t.profiles
    ensures var u := Upgraded(t, mint); var row := t.profiles[p];
      if row.access.Some? && row.competitorId in t.competitors
         && t.competitors[row.competitorId].workspaceId == row.workspaceId then
        && p in u.preferred && u.preferred[p] in u.methods
        && (forall m :: m in u.methods ==> (u.methods[m].profile == p <==> m == u.preferred[p]))
        && (var m := u.methods[u.preferred[p]];
            && m.priority == 0 && !m.retired && Some(m.access) == row.access && m.extraction == row.extraction
            && m.workspaceId == row.workspaceId && m.proofSampleSize == row.confirmed
            && (var own := t.competitors[row.competitorId].defaultScrapeProfile;
                m.scrapeProfile == if own == None then t.workspaces[row.workspaceId] else own)
            && (m.scrapeProfile.Some? ==>
                  m.scrapeProfile.value in t.scrapeProfiles
                  && m.scrapeProfileVersion == Some(t.scrapeProfiles[m.scrapeProfile.value]))
            && (m.scrapeProfile.Some? <==> m.scrapeProfileVersion.Some?))
      else
        p !in u.preferred && forall m :: m in u.methods ==> u.methods[m].profile != p
  {
    MethodsOfProfile(t, mint, p);
    if Backfilled(t, p) {
      assert ValidDefault(t, DefaultProfile(t, t.profiles[p]));
    }
  }

  lemma UpgradedIs(t: Tables, mint: Id -> Id, u: Tables)
    requires Mints(t, mint) && u == t.(methods := u.methods, preferred := u.preferred, links := u.links)
    requires u.methods == MethodsOf(t, mint, t.profiles.Keys)
    requires u.preferred == PreferredOf(t, mint, t.profiles.Keys) && u.links == LinksOf(t, mint, t.stats.Keys)
    ensures u == Upgraded(t, mint)
  {}

  lemma UpgradeGivesNewSchema(t: Tables, mint: Id -> Id)
    requires OldSchema(t) && Mints(t, mint)
    ensures NewSchema(Upgraded(t, mint))
  {
    AnyPrefixOfLinksIsLegal(t, mint, t.stats.Keys);
    MethodsKeepIndex(t, mint, t.profiles.Keys);
    MethodsHaveParents(t, mint);
    NewColumnsNameMethods(t, mint);
    StillReferences(t, Upgraded(t, mint));
  }

  lemma StillReferences(t: Tables, u: Tables)
    requires References(t) && u == t.(methods := u.methods, preferred := u.preferred, links := u.links)
    ensures References(u)
  {}

  lemma MethodsHaveParents(t: Tables, mint: Id -> Id)
    requires References(t) && Mints(t, mint)
    ensures forall m :: m in Upgraded(t, mint).methods ==>
      MethodReferences(Upgraded(t, mint), Upgraded(t, mint).methods[m])
  {
    forall p | Backfilled(t, p)
      ensures MethodReferences(t, BackfillRow(t, p, t.profiles[p]))
    {
      assert ValidDefault(t, DefaultProfile(t, t.profiles[p]));
    }
  }

  lemma NewColumnsNameMethods(t: Tables, mint: Id -> Id)
    requires References(t) && Mints(t, mint)
    ensures forall p :: p in Upgraded(t, mint).preferred ==>
      p in t.profiles && Upgraded(t, mint).preferred[p] in Upgraded(t, mint).methods
    ensures forall s :: s in Upgraded(t, mint).links ==>
      s in t.stats && Upgraded(t, mint).links[s] in Upgraded(t, mint).methods
  {}

  /** A statistics row is linked exactly when it names a half of its profile's preferred method, and then to that
      one. */
  lemma LinksFollowThePreference(t: Tables, mint: Id -> Id, s: Id)
    requires OldSchema(t) && Mints(t, mint) && s in t.stats
    ensures var u := Upgraded(t, mint); var p := t.stats[s].profile;
      && (s in u.links ==> p in u.preferred && u.links[s] == u.preferred[p])
      && (s in u.links <==>
            && p in u.preferred
            && var (m, name) := (u.methods[u.preferred[p]], t.stats[s].name);
               || (t.stats[s].kind == "ACCESS" && m.access == name)
               || (t.stats[s].kind == "EXTRACTION" && m.extraction == Some(name)))
  {
    MethodsOfProfile(t, mint, t.stats[s].profile);
  }

  // ----- downgrade

  ghost predicate IsOldest(stats: map<Id, Stat>, s: Id)
    requires s in stats
  {
    forall k ::
      k in stats
      && stats[k].profile == stats[s].profile && stats[k].kind == stats[s].kind && stats[k].name == stats[s].name
      ==> StrLeq(s, k)
  }

  /** The DELETE keeps exactly the row with the smallest id of every legacy key, unchanged. */
  lemma KeepsExactlyTheOldest(stats: map<Id, Stat>, s: Id)
    requires s in stats
    ensures s in Kept(stats) <==> IsOldest(stats, s)
    ensures s in Kept(stats) ==> Kept(stats)[s] == stats[s]
  {
    forall k | k in stats && SameLegacyKey(stats[k], stats[s])
      ensures StrLeq(s, k) <==> !Older(k, s)
    {
      StrLeqTotal(s, k);
      if StrLeq(s, k) && StrLeq(k, s) { StrLeqAntisymmetric(s, k); }
    }
  }

  /** A chain of older and older rows ends at a kept one. */
  lemma {:induction false} SomeKeeper(stats: map<Id, Stat>, s: Id, pool: set<Id>) returns (k: Id)
    requires s in stats && pool <= stats.Keys
    requires forall x :: x in stats && SameLegacyKey(stats[x], stats[s]) && Older(x, s) ==> x in pool
    ensures k in Kept(stats) && SameLegacyKey(stats[k], stats[s]) && StrLeq(k, s)
    decreases |pool|
  {
    k := s;
    StrLeqTotal(s, s);
    if HasOlder(stats, s) {
      var x :| x in stats && SameLegacyKey(stats[x], stats[s]) && Older(x, s);
      forall y | y in stats && SameLegacyKey(stats[y], stats[x]) && Older(y, x)
        ensures y in pool - {x}
      {
        StrLeqTransitive(y, x, s);
        if y == s { StrLeqAntisymmetric(x, s); }
      }
      assert pool - {x} < pool;
      SmallerSet(pool, x);
      k := SomeKeeper(stats, x, pool - {x});
      StrLeqTransitive(k, x, s);
    }
  }

  lemma SmallerSet<T>(pool: set<T>, x: T)
    requires x in pool
    ensures |pool - {x}| < |pool|
  {}

  /** Every legacy key that had rows keeps exactly one of them. */
  lemma EveryKeyKeepsOne(stats: map<Id, Stat>, s: Id) returns (k: Id)
    requires s in stats
    ensures k in Kept(stats) && StrLeq(k, s)
    ensures stats[k].profile == stats[s].profile && stats[k].kind == stats[s].kind && stats[k].name == stats[s].name
    ensures forall j :: j in Kept(stats) && SameLegacyKey(stats[j], stats[s]) ==> j == k
  {
    k := SomeKeeper(stats, s, stats.Keys);
    KeptIsUnique(stats);
  }

  lemma KeptIsUnique(stats: map<Id, Stat>)
    ensures LegacyUnique(Kept(stats))
  {
    var kept := Kept(stats);
    forall a, b | a in kept && b in kept && SameLegacyKey(kept[a], kept[b])
      ensures a == b
    {
      KeepsExactlyTheOldest(stats, a);
      KeepsExactlyTheOldest(stats, b);
      StrLeqAntisymmetric(a, b);
    }
  }

  /** From any database the new schema allows, the downgrade can restore the old constraint. */
  lemma DowngradeGivesOldSchema(t: Tables)
    requires NewSchema(t)
    ensures OldSchema(Downgraded(t))
  {
    KeptIsUnique(t.stats);
  }

  /** The downgrade loses a statistics row exactly when two rows share a legacy key. */
  lemma DowngradeLosesNothingExactly(t: Tables)
    ensures Downgraded(t).stats == t.stats <==> LegacyUnique(t.stats)
  {
    KeptIsUnique(t.stats);
    if LegacyUnique(t.stats) {
      forall s | s in t.stats
        ensures !HasOlder(t.stats, s)
      {}
    }
  }

  /** The upgrade followed at once by the downgrade gives every table back. */
  lemma UpgradeThenDowngrade(t: Tables, mint: Id -> Id)
    requires OldSchema(t) && Mints(t, mint)
    ensures Downgraded(Upgraded(t, mint)) == t
  {
    DowngradeLosesNothingExactly(Upgraded(t, mint));
  }
}
