/**
 The manifest check of scripts/provision_db_roles.py: what the catalogue shows
 against what the manifest declares.  The catalogue is a sequence of relations in
 the order the query returns them; the manifest is keyed by table name.
 */
module RlsManifest {
  import opened Wrappers
  import opened Ordering

  datatype Class = Workspace | Transitive | System | TenantRoot | Gap

  datatype Entry = Entry(cls: Class, note: string)

  datatype Relation = Relation(
    name: string, isPartition: bool, parent: Option<string>, rls: bool, forced: bool, policies: nat,
    hasWorkspaceId: bool)

  datatype Finding =
    | Unreviewed(names: seq<string>)
    | AllReviewed(count: nat)
    | Absent(names: seq<string>)
    | GapClosed(name: string)
    | KnownGap(name: string, note: string)
    | ClassMismatch(name: string, declared: Class, implied: Class)
    | NotEnforced(members: seq<Relation>)
    | AllEnforced(count: nat)
    | HoldsTenantData(name: string, declared: Class)

  /** `severity == "FAIL"` */
  predicate IsFail(f: Finding) {
    f.Unreviewed? || f.ClassMismatch? || f.NotEnforced? || f.HoldsTenantData?
  }

  predicate Enforced(r: Relation) {
    r.rls && r.forced && r.policies > 0
  }

  /** The class that the catalogue implies. */
  function Classify(r: Relation): Class {
    if r.name == "workspaces" then TenantRoot
    else if r.hasWorkspaceId then Workspace
    else if r.rls then Transitive
    else System
  }

  predicate IsTenantClass(c: Class) {
    c == Workspace || c == Transitive
  }

  ghost predicate DistinctNames(catalog: seq<Relation>) {
    forall i, j :: 0 <= i < j < |catalog| ==> catalog[i].name != catalog[j].name
  }

  /** The relations a manifest lists: everything but partitions. */
  function Parents(catalog: seq<Relation>): map<string, Relation> {
    if catalog == [] then map[]
    else
      var last := catalog[|catalog| - 1];
      var before := Parents(catalog[..|catalog| - 1]);
      if last.isPartition then before else before[last.name := last]
  }

  function Children(catalog: seq<Relation>, name: string): seq<Relation> {
    if catalog == [] then []
    else
      Children(catalog[..|catalog| - 1], name)
      + if catalog[|catalog| - 1].parent == Some(name) then [catalog[|catalog| - 1]] else []
  }

  function Unenforced(family: seq<Relation>): seq<Relation> {
    if family == [] then []
    else
      Unenforced(family[..|family| - 1])
      + if Enforced(family[|family| - 1]) then [] else [family[|family| - 1]]
  }

  // ----- sets in sorted order

  ghost function Listing(s: set<string>): (r: seq<string>)
    ensures multiset(r) == multiset(s)
  {
    if s == {} then []
    else
      var x :| x in s;
      [x] + Listing(s - {x})
  }

  ghost function SortedNames(s: set<string>): seq<string> {
    Sort(Strings(), Listing(s))
  }

  lemma SortedNamesHolds(s: set<string>)
    ensures multiset(SortedNames(s)) == multiset(s)
    ensures forall x :: x in SortedNames(s) <==> x in s
    ensures |SortedNames(s)| == |s|
  {
    assert forall x :: x in SortedNames(s) <==> x in multiset(SortedNames(s));
    assert |SortedNames(s)| == |multiset(SortedNames(s))|;
  }

  method SortNames(s: set<string>) returns (r: seq<string>)
    ensures r == SortedNames(s)
  {
    var todo, listed := s, [];
    while todo != {}
      invariant todo <= s && multiset(listed) == multiset(s - todo)
      decreases |todo|
    {
      var x :| x in todo;
      assert s - (todo - {x}) == (s - todo) + {x};
      todo, listed := todo - {x}, listed + [x];
    }
    assert s - todo == s;
    r := Sort(Strings(), listed);
    StringsAreOrdered(listed);
    SortForgetsOrder(Strings(), listed, Listing(s));
  }

  // ----- the findings

  function Gather<T>(names: seq<string>, f: string -> seq<T>): seq<T> {
    if names == [] then [] else Gather(names[..|names| - 1], f) + f(names[|names| - 1])
  }

  function ClassFindingOf(manifest: map<string, Entry>, parents: map<string, Relation>, name: string): seq<Finding> {
    if name !in manifest || name !in parents then []
    else if manifest[name].cls == Gap then
      (if parents[name].rls then [GapClosed(name)] else [KnownGap(name, manifest[name].note)])
    else if manifest[name].cls != Classify(parents[name]) then
      [ClassMismatch(name, manifest[name].cls, Classify(parents[name]))]
    else []
  }

  function ClassFinding(manifest: map<string, Entry>, parents: map<string, Relation>): string -> seq<Finding> {
    (name: string) => ClassFindingOf(manifest, parents, name)
  }

  function FamilyAt(manifest: map<string, Entry>, parents: map<string, Relation>, catalog: seq<Relation>,
                    name: string): seq<Relation>
  {
    if name !in manifest || name !in parents || !IsTenantClass(manifest[name].cls) then []
    else [parents[name]] + Children(catalog, name)
  }

  function Family(manifest: map<string, Entry>, parents: map<string, Relation>,
                  catalog: seq<Relation>): string -> seq<Relation>
  {
    (name: string) => FamilyAt(manifest, parents, catalog, name)
  }

  function TenantFindingOf(manifest: map<string, Entry>, parents: map<string, Relation>, name: string): seq<Finding> {
    if name !in manifest || name !in parents || IsTenantClass(manifest[name].cls) || !parents[name].hasWorkspaceId
      then []
    else [HoldsTenantData(name, manifest[name].cls)]
  }

  function TenantFinding(manifest: map<string, Entry>, parents: map<string, Relation>): string -> seq<Finding> {
    (name: string) => TenantFindingOf(manifest, parents, name)
  }

  function UnreviewedFinding(names: seq<string>, count: nat): Finding {
    if names != [] then Unreviewed(names) else AllReviewed(count)
  }

  function AbsentFinding(names: seq<string>): seq<Finding> {
    if names != [] then [Absent(names)] else []
  }

  ghost function ReviewFindings(manifest: map<string, Entry>, parents: map<string, Relation>): seq<Finding> {
    [UnreviewedFinding(SortedNames(parents.Keys - manifest.Keys), |parents|)]
    + AbsentFinding(SortedNames(manifest.Keys - parents.Keys))
  }

  function EnforcementFinding(members: seq<Relation>): Finding {
    if Unenforced(members) != [] then NotEnforced(Unenforced(members)) else AllEnforced(|members|)
  }

  /** Everything the check reports, in order. */
  ghost function Findings(manifest: map<string, Entry>, catalog: seq<Relation>): seq<Finding> {
    var parents := Parents(catalog);
    ReviewFindings(manifest, parents)
    + Gather(SortedNames(manifest.Keys * parents.Keys), ClassFinding(manifest, parents))
    + [EnforcementFinding(Gather(SortedNames(manifest.Keys), Family(manifest, parents, catalog)))]
    + Gather(SortedNames(manifest.Keys), TenantFinding(manifest, parents))
  }

  // ----- the check, loop by loop

  method NonPartitions(catalog: seq<Relation>) returns (parents: map<string, Relation>)
    ensures parents == Parents(catalog)
  {
    parents := map[];
    for i := 0 to |catalog|
      invariant parents == Parents(catalog[..i])
    {
      assert catalog[..i + 1][..i] == catalog[..i];
      if !catalog[i].isPartition {
        parents := parents[catalog[i].name := catalog[i]];
      }
    }
    assert catalog[..|catalog|] == catalog;
  }

  method ClassCheck(manifest: map<string, Entry>, parents: map<string, Relation>, names: seq<string>)
    returns (found: seq<Finding>)
    requires forall n :: n in names ==> n in manifest && n in parents
    ensures found == Gather(names, ClassFinding(manifest, parents))
  {
    found := [];
    for i := 0 to |names|
      invariant found == Gather(names[..i], ClassFinding(manifest, parents))
    {
      assert names[..i + 1][..i] == names[..i];
      var name := names[i];
      var entry, rel := manifest[name], parents[name];
      var implied := Classify(rel);
      if entry.cls == Gap {
        if rel.rls {
          found := found + [GapClosed(name)];
        } else {
          found := found + [KnownGap(name, entry.note)];
        }
      } else if entry.cls != implied {
        found := found + [ClassMismatch(name, entry.cls, implied)];
      }
    }
    assert names[..|names|] == names;
  }

  method FamilyOf(rel: Relation, catalog: seq<Relation>) returns (family: seq<Relation>)
    ensures family == [rel] + Children(catalog, rel.name)
  {
    family := [rel];
    for i := 0 to |catalog|
      invariant family == [rel] + Children(catalog[..i], rel.name)
    {
      assert catalog[..i + 1][..i] == catalog[..i];
      if catalog[i].parent == Some(rel.name) {
        family := family + [catalog[i]];
      }
    }
    assert catalog[..|catalog|] == catalog;
  }

  method CollectUnenforced(family: seq<Relation>, unenforced: seq<Relation>, checked: nat, ghost members: seq<Relation>)
    returns (unenforced': seq<Relation>, checked': nat)
    requires unenforced == Unenforced(members) && checked == |members|
    ensures unenforced' == Unenforced(members + family) && checked' == |members + family|
  {
    unenforced', checked' := unenforced, checked;
    assert members + family[..0] == members;
    for i := 0 to |family|
      invariant unenforced' == Unenforced(members + family[..i]) && checked' == checked + i
    {
      assert (members + family[..i + 1])[..|members| + i] == members + family[..i];
      checked' := checked' + 1;
      if !Enforced(family[i]) {
        unenforced' := unenforced' + [family[i]];
      }
    }
    assert family[..|family|] == family;
  }

  method EnforcementCheck(manifest: map<string, Entry>, parents: map<string, Relation>, catalog: seq<Relation>,
                          names: seq<string>)
    returns (finding: Finding)
    requires forall n :: n in names ==> n in manifest
    requires forall n :: n in parents ==> parents[n].name == n
    ensures finding == EnforcementFinding(Gather(names, Family(manifest, parents, catalog)))
  {
    var unenforced, checked := [], 0;
    for i := 0 to |names|
      invariant unenforced == Unenforced(Gather(names[..i], Family(manifest, parents, catalog)))
      invariant checked == |Gather(names[..i], Family(manifest, parents, catalog))|
    {
      assert names[..i + 1][..i] == names[..i];
      var name := names[i];
      if IsTenantClass(manifest[name].cls) && name in parents {
        var family := FamilyOf(parents[name], catalog);
        unenforced, checked := CollectUnenforced(family, unenforced, checked,
                                                 Gather(names[..i], Family(manifest, parents, catalog)));
      } else {
        assert Gather(names[..i + 1], Family(manifest, parents, catalog)) ==
          Gather(names[..i], Family(manifest, parents, catalog));
      }
    }
    assert names[..|names|] == names;
    finding := if unenforced != [] then NotEnforced(unenforced) else AllEnforced(checked);
  }

  method TenantCheck(manifest: map<string, Entry>, parents: map<string, Relation>, names: seq<string>)
    returns (found: seq<Finding>)
    requires forall n :: n in names ==> n in manifest
    ensures found == Gather(names, TenantFinding(manifest, parents))
  {
    found := [];
    for i := 0 to |names|
      invariant found == Gather(names[..i], TenantFinding(manifest, parents))
    {
      assert names[..i + 1][..i] == names[..i];
      var name := names[i];
      if name in parents && !IsTenantClass(manifest[name].cls) && parents[name].hasWorkspaceId {
        found := found + [HoldsTenantData(name, manifest[name].cls)];
      }
    }
    assert names[..|names|] == names;
  }

  /** `_check_manifest` */
  method CheckManifest(manifest: map<string, Entry>, catalog: seq<Relation>) returns (findings: seq<Finding>)
    ensures findings == Findings(manifest, catalog)
  {
    var parents := NonPartitions(catalog);
    ParentsAreNamed(catalog);
    findings := ReviewCheck(manifest, parents);
    var common := SortNames(manifest.Keys * parents.Keys);
    SortedNamesHolds(manifest.Keys * parents.Keys);
    var classes := ClassCheck(manifest, parents, common);
    var all := SortNames(manifest.Keys);
    SortedNamesHolds(manifest.Keys);
    var enforcement := EnforcementCheck(manifest, parents, catalog, all);
    var tenants := TenantCheck(manifest, parents, all);
    findings := findings + classes + [enforcement] + tenants;
  }

  method ReviewCheck(manifest: map<string, Entry>, parents: map<string, Relation>) returns (found: seq<Finding>)
    ensures found == ReviewFindings(manifest, parents)
  {
    var unreviewed := SortNames(parents.Keys - manifest.Keys);
    var first := UnreviewedFinding(unreviewed, |parents|);
    var missing := SortNames(manifest.Keys - parents.Keys);
    found := [first] + AbsentFinding(missing);
  }

  // ----- what a silent check means

  lemma {:induction false} ParentsAreNamed(catalog: seq<Relation>)
    ensures forall n :: n in Parents(catalog) ==>
      Parents(catalog)[n].name == n && !Parents(catalog)[n].isPartition && Parents(catalog)[n] in catalog
  {
    if catalog != [] {
      ParentsAreNamed(catalog[..|catalog| - 1]);
    }
  }

  lemma {:induction false} ParentsExactly(catalog: seq<Relation>, r: Relation)
    requires DistinctNames(catalog) && r in catalog && !r.isPartition
    ensures r.name in Parents(catalog) && Parents(catalog)[r.name] == r
  {
    var n := |catalog| - 1;
    if catalog[n] != r {
      assert r in catalog[..n];
      var i :| 0 <= i < n && catalog[i] == r;
      ParentsExactly(catalog[..n], r);
    }
  }

  lemma {:induction false} InChildren(catalog: seq<Relation>, name: string, x: Relation)
    ensures x in Children(catalog, name) <==> x in catalog && x.parent == Some(name)
  {
    if catalog != [] {
      InChildren(catalog[..|catalog| - 1], name, x);
      assert catalog == catalog[..|catalog| - 1] + [catalog[|catalog| - 1]];
    }
  }

  ghost predicate Silent(findings: seq<Finding>) {
    forall f :: f in findings ==> !IsFail(f)
  }

  ghost predicate AllEnforcedIn(members: seq<Relation>) {
    forall m :: m in members ==> Enforced(m)
  }

  lemma SilentPair(a: seq<Finding>, b: seq<Finding>)
    ensures Silent(a + b) <==> Silent(a) && Silent(b)
  {
    assert forall f :: f in a + b <==> f in a || f in b;
  }

  lemma EnforcedPair(a: seq<Relation>, b: seq<Relation>)
    ensures AllEnforcedIn(a + b) <==> AllEnforcedIn(a) && AllEnforcedIn(b)
  {
    assert forall f :: f in a + b <==> f in a || f in b;
  }

  lemma {:induction false} SilentGather(names: seq<string>, f: string -> seq<Finding>)
    ensures Silent(Gather(names, f)) <==> forall n :: n in names ==> Silent(f(n))
  {
    if names != [] {
      var init, last := names[..|names| - 1], names[|names| - 1];
      SilentGather(init, f);
      SilentPair(Gather(init, f), f(last));
      assert forall n :: n in names <==> n in init || n == last;
    }
  }

  lemma {:induction false} EnforcedGather(names: seq<string>, f: string -> seq<Relation>)
    ensures AllEnforcedIn(Gather(names, f)) <==> forall n :: n in names ==> AllEnforcedIn(f(n))
  {
    if names != [] {
      var init, last := names[..|names| - 1], names[|names| - 1];
      EnforcedGather(init, f);
      EnforcedPair(Gather(init, f), f(last));
      assert forall n :: n in names <==> n in init || n == last;
    }
  }

  lemma {:induction false} NoneUnenforced(members: seq<Relation>)
    ensures Unenforced(members) == [] <==> AllEnforcedIn(members)
  {
    if members != [] {
      var init, last := members[..|members| - 1], members[|members| - 1];
      NoneUnenforced(init);
      EnforcedPair(init, [last]);
      assert members == init + [last];
      assert AllEnforcedIn([last]) <==> Enforced(last);
    }
  }

  // ----- each part of the check, name by name

  ghost predicate ClassAgrees(manifest: map<string, Entry>, parents: map<string, Relation>, n: string) {
    n in manifest && n in parents ==> manifest[n].cls == Gap || manifest[n].cls == Classify(parents[n])
  }

  ghost predicate FamilyEnforced(manifest: map<string, Entry>, parents: map<string, Relation>, catalog: seq<Relation>,
                                 n: string)
  {
    n in manifest && n in parents && IsTenantClass(manifest[n].cls) ==>
      Enforced(parents[n]) && forall c :: c in catalog && c.parent == Some(n) ==> Enforced(c)
  }

  ghost predicate TenantFree(manifest: map<string, Entry>, parents: map<string, Relation>, n: string) {
    n in manifest && n in parents && !IsTenantClass(manifest[n].cls) ==> !parents[n].hasWorkspaceId
  }

  ghost predicate EveryName(parents: map<string, Relation>, holds: string -> bool) {
    forall n :: n in parents ==> holds(n)
  }

  lemma ClassSilence(manifest: map<string, Entry>, parents: map<string, Relation>)
    ensures Silent(Gather(SortedNames(manifest.Keys * parents.Keys), ClassFinding(manifest, parents))) <==>
      EveryName(parents, n => ClassAgrees(manifest, parents, n))
  {
    SilentGather(SortedNames(manifest.Keys * parents.Keys), ClassFinding(manifest, parents));
    SortedNamesHolds(manifest.Keys * parents.Keys);
    forall n ensures Silent(ClassFinding(manifest, parents)(n)) <==> ClassAgrees(manifest, parents, n) {
      SilentClassFinding(manifest, parents, n);
    }
  }

  lemma SilentClassFinding(manifest: map<string, Entry>, parents: map<string, Relation>, n: string)
    ensures Silent(ClassFindingOf(manifest, parents, n)) <==> ClassAgrees(manifest, parents, n)
  {
    var f := ClassFindingOf(manifest, parents, n);
    if f != [] { assert f[0] in f; }
  }

  lemma TenantSilence(manifest: map<string, Entry>, parents: map<string, Relation>)
    ensures Silent(Gather(SortedNames(manifest.Keys), TenantFinding(manifest, parents))) <==>
      EveryName(parents, n => TenantFree(manifest, parents, n))
  {
    SilentGather(SortedNames(manifest.Keys), TenantFinding(manifest, parents));
    SortedNamesHolds(manifest.Keys);
    forall n ensures Silent(TenantFinding(manifest, parents)(n)) <==> TenantFree(manifest, parents, n) {
      SilentTenantFinding(manifest, parents, n);
    }
  }

  lemma SilentTenantFinding(manifest: map<string, Entry>, parents: map<string, Relation>, n: string)
    ensures Silent(TenantFindingOf(manifest, parents, n)) <==> TenantFree(manifest, parents, n)
  {
    var f := TenantFindingOf(manifest, parents, n);
    if f != [] { assert f[0] in f; }
  }

  lemma EnforcementSilence(manifest: map<string, Entry>, parents: map<string, Relation>, catalog: seq<Relation>)
    ensures !IsFail(EnforcementFinding(Gather(SortedNames(manifest.Keys), Family(manifest, parents, catalog)))) <==>
      EveryName(parents, n => FamilyEnforced(manifest, parents, catalog, n))
  {
    var members := Gather(SortedNames(manifest.Keys), Family(manifest, parents, catalog));
    NoneUnenforced(members);
    EnforcedGather(SortedNames(manifest.Keys), Family(manifest, parents, catalog));
    SortedNamesHolds(manifest.Keys);
    forall n
      ensures AllEnforcedIn(Family(manifest, parents, catalog)(n)) <==> FamilyEnforced(manifest, parents, catalog, n)
    {
      EnforcedFamily(manifest, parents, catalog, n);
    }
  }

  lemma EnforcedFamily(manifest: map<string, Entry>, parents: map<string, Relation>, catalog: seq<Relation>, n: string)
    ensures AllEnforcedIn(FamilyAt(manifest, parents, catalog, n)) <==> FamilyEnforced(manifest, parents, catalog, n)
  {
    if n in manifest && n in parents && IsTenantClass(manifest[n].cls) {
      EnforcedPair([parents[n]], Children(catalog, n));
      assert parents[n] in [parents[n]];
      forall x ensures x in Children(catalog, n) <==> x in catalog && x.parent == Some(n) { InChildren(catalog, n, x); }
    }
  }

  lemma ReviewSilence(manifest: map<string, Entry>, parents: map<string, Relation>)
    ensures Silent(ReviewFindings(manifest, parents)) <==> EveryName(parents, n => n in manifest)
  {
    var gone := parents.Keys - manifest.Keys;
    SortedNamesHolds(gone);
    SilentPair([UnreviewedFinding(SortedNames(gone), |parents|)],
               AbsentFinding(SortedNames(manifest.Keys - parents.Keys)));
    SilentOne(UnreviewedFinding(SortedNames(gone), |parents|));
    NoneGone(manifest, parents);
  }

  lemma NoneGone(manifest: map<string, Entry>, parents: map<string, Relation>)
    ensures |parents.Keys - manifest.Keys| == 0 <==> EveryName(parents, n => n in manifest)
  {
    if |parents.Keys - manifest.Keys| == 0 {
      forall n | n in parents ensures n in manifest {
        assert n in manifest || n in parents.Keys - manifest.Keys;
      }
    } else {
      var n :| n in parents.Keys - manifest.Keys;
    }
  }

  lemma SilentOne(f: Finding)
    ensures Silent([f]) <==> !IsFail(f)
  {
    assert f in [f];
  }

  /** What the check demands of one non-partition relation and its direct partitions. */
  ghost predicate Accounted(manifest: map<string, Entry>, catalog: seq<Relation>, r: Relation) {
    && r.name in manifest
    && match manifest[r.name].cls
       case Gap => !r.hasWorkspaceId
       case TenantRoot => r.name == "workspaces" && !r.hasWorkspaceId
       case System => r.name != "workspaces" && !r.hasWorkspaceId && !r.rls
       case Workspace => r.name != "workspaces" && r.hasWorkspaceId && FamilySecure(catalog, r)
       case Transitive => r.name != "workspaces" && !r.hasWorkspaceId && FamilySecure(catalog, r)
  }

  /** The relation and each of its direct partitions have row security enabled and forced, with a policy. */
  ghost predicate FamilySecure(catalog: seq<Relation>, r: Relation) {
    && r.rls && r.forced && r.policies >= 1
    && forall c :: c in catalog && c.parent == Some(r.name) ==> c.rls && c.forced && c.policies >= 1
  }

  ghost predicate AccountedByName(manifest: map<string, Entry>, parents: map<string, Relation>, catalog: seq<Relation>,
                                  n: string)
  {
    && n in manifest && ClassAgrees(manifest, parents, n)
    && FamilyEnforced(manifest, parents, catalog, n) && TenantFree(manifest, parents, n)
  }

  lemma AccountedAgrees(manifest: map<string, Entry>, parents: map<string, Relation>, catalog: seq<Relation>,
                        r: Relation)
    requires r.name in parents && parents[r.name] == r
    ensures Accounted(manifest, catalog, r) <==> AccountedByName(manifest, parents, catalog, r.name)
  {}

  lemma EveryPart(manifest: map<string, Entry>, parents: map<string, Relation>, catalog: seq<Relation>)
    ensures EveryName(parents, n => AccountedByName(manifest, parents, catalog, n)) <==>
      && EveryName(parents, n => n in manifest)
      && EveryName(parents, n => ClassAgrees(manifest, parents, n))
      && EveryName(parents, n => FamilyEnforced(manifest, parents, catalog, n))
      && EveryName(parents, n => TenantFree(manifest, parents, n))
  {
    forall n ensures AccountedByName(manifest, parents, catalog, n) <==>
      n in manifest && ClassAgrees(manifest, parents, n) && FamilyEnforced(manifest, parents, catalog, n)
      && TenantFree(manifest, parents, n)
    {}
  }

  lemma SilentByPart(manifest: map<string, Entry>, catalog: seq<Relation>)
    ensures Silent(Findings(manifest, catalog)) <==>
      EveryName(Parents(catalog), n => AccountedByName(manifest, Parents(catalog), catalog, n))
  {
    var parents := Parents(catalog);
    var a := ReviewFindings(manifest, parents);
    var b := Gather(SortedNames(manifest.Keys * parents.Keys), ClassFinding(manifest, parents));
    var c := EnforcementFinding(Gather(SortedNames(manifest.Keys), Family(manifest, parents, catalog)));
    var d := Gather(SortedNames(manifest.Keys), TenantFinding(manifest, parents));
    SilentParts(a, b, c, d);
    ReviewSilence(manifest, parents);
    ClassSilence(manifest, parents);
    EnforcementSilence(manifest, parents, catalog);
    TenantSilence(manifest, parents);
    EveryPart(manifest, parents, catalog);
  }

  lemma SilentParts(a: seq<Finding>, b: seq<Finding>, c: Finding, d: seq<Finding>)
    ensures Silent(a + b + [c] + d) <==> Silent(a) && Silent(b) && !IsFail(c) && Silent(d)
  {
    SilentPair(a, b);
    SilentPair(a + b, [c]);
    SilentPair(a + b + [c], d);
    assert c in [c];
  }

  /** The check reports no FAIL exactly when every non-partition relation is accounted for. */
  lemma SilentExactly(manifest: map<string, Entry>, catalog: seq<Relation>)
    requires DistinctNames(catalog)
    ensures Silent(Findings(manifest, catalog)) <==>
      forall r :: r in catalog && !r.isPartition ==> Accounted(manifest, catalog, r)
  {
    SilentByPart(manifest, catalog);
    AccountedByRelation(manifest, catalog);
  }

  lemma AccountedByRelation(manifest: map<string, Entry>, catalog: seq<Relation>)
    requires DistinctNames(catalog)
    ensures EveryName(Parents(catalog), n => AccountedByName(manifest, Parents(catalog), catalog, n)) <==>
      forall r :: r in catalog && !r.isPartition ==> Accounted(manifest, catalog, r)
  {
    var parents := Parents(catalog);
    ParentsAreNamed(catalog);
    if EveryName(parents, n => AccountedByName(manifest, parents, catalog, n)) {
      forall r | r in catalog && !r.isPartition
        ensures Accounted(manifest, catalog, r)
      {
        ParentsExactly(catalog, r);
        AccountedAgrees(manifest, parents, catalog, r);
      }
    } else {
      var n :| n in parents && !AccountedByName(manifest, parents, catalog, n);
      AccountedAgrees(manifest, parents, catalog, parents[n]);
    }
  }

  // ----- what the check reports, finding by finding

  /** `n` names a relation of the catalogue that is no partition, and here it is. */
  ghost predicate IsTop(catalog: seq<Relation>, n: string, r: Relation) {
    r in catalog && !r.isPartition && r.name == n
  }

  ghost predicate HasTop(catalog: seq<Relation>, n: string) {
    exists r :: IsTop(catalog, n, r)
  }

  /** `r` is the relation declared under `n` for tenants, or a direct partition of it. */
  ghost predicate IsWatchedUnder(manifest: map<string, Entry>, catalog: seq<Relation>, n: string, r: Relation) {
    && n in manifest && (manifest[n].cls == Workspace || manifest[n].cls == Transitive) && HasTop(catalog, n)
    && (IsTop(catalog, n, r) || (r in catalog && r.parent == Some(n)))
  }

  ghost predicate IsWatched(manifest: map<string, Entry>, catalog: seq<Relation>, r: Relation) {
    exists n :: IsWatchedUnder(manifest, catalog, n, r)
  }

  lemma TopIsParent(catalog: seq<Relation>, n: string)
    requires DistinctNames(catalog)
    ensures n in Parents(catalog) <==> HasTop(catalog, n)
    ensures forall r :: IsTop(catalog, n, r) <==> n in Parents(catalog) && Parents(catalog)[n] == r
  {
    ParentsAreNamed(catalog);
    forall r | IsTop(catalog, n, r)
      ensures n in Parents(catalog) && Parents(catalog)[n] == r
    {
      ParentsExactly(catalog, r);
    }
    if n in Parents(catalog) { assert IsTop(catalog, n, Parents(catalog)[n]); }
  }

  lemma {:induction false} InGather<T>(names: seq<string>, f: string -> seq<T>, x: T)
    ensures x in Gather(names, f) <==> exists n :: n in names && x in f(n)
  {
    if names != [] {
      var init, last := names[..|names| - 1], names[|names| - 1];
      InGather(init, f, x);
      assert forall n :: n in names <==> n in init || n == last;
    }
  }

  lemma OneInGather(names: seq<string>, part: string -> seq<Finding>, f: Finding, n: string)
    requires forall m :: f in part(m) ==> m == n && m in names
    ensures f in Gather(names, part) <==> f in part(n)
  {
    InGather(names, part, f);
  }

  lemma {:induction false} InUnenforced(members: seq<Relation>, r: Relation)
    ensures r in Unenforced(members) <==> r in members && !(r.rls && r.forced && r.policies >= 1)
  {
    if members != [] {
      var init, last := members[..|members| - 1], members[|members| - 1];
      InUnenforced(init, r);
      assert members == init + [last];
    }
  }

  ghost function Watched(manifest: map<string, Entry>, catalog: seq<Relation>): seq<Relation> {
    Gather(SortedNames(manifest.Keys), Family(manifest, Parents(catalog), catalog))
  }

  lemma WatchedAre(manifest: map<string, Entry>, catalog: seq<Relation>, r: Relation)
    requires DistinctNames(catalog)
    ensures r in Watched(manifest, catalog) <==> IsWatched(manifest, catalog, r)
  {
    var parents := Parents(catalog);
    InGather(SortedNames(manifest.Keys), Family(manifest, parents, catalog), r);
    SortedNamesHolds(manifest.Keys);
    forall n
      ensures r in Family(manifest, parents, catalog)(n) <==> IsWatchedUnder(manifest, catalog, n, r)
    {
      TopIsParent(catalog, n);
      InChildren(catalog, n, r);
    }
  }

  // Which part of the check a finding comes from.

  predicate IsReview(f: Finding) { f.Unreviewed? || f.AllReviewed? || f.Absent? }

  predicate IsOfClass(f: Finding) { f.GapClosed? || f.KnownGap? || f.ClassMismatch? }

  ghost predicate AllAre(found: seq<Finding>, kind: Finding -> bool) {
    forall f :: f in found ==> kind(f)
  }

  lemma {:induction false} GatherKeepsKind(names: seq<string>, part: string -> seq<Finding>, kind: Finding -> bool)
    requires forall n :: AllAre(part(n), kind)
    ensures AllAre(Gather(names, part), kind)
  {
    if names != [] { GatherKeepsKind(names[..|names| - 1], part, kind); }
  }

  lemma ReviewKind(manifest: map<string, Entry>, parents: map<string, Relation>)
    ensures AllAre(ReviewFindings(manifest, parents), IsReview)
  {
    var gone, missing := SortedNames(parents.Keys - manifest.Keys), SortedNames(manifest.Keys - parents.Keys);
    ReviewKindOf(gone, |parents|, missing);
  }

  lemma ReviewKindOf(gone: seq<string>, count: nat, missing: seq<string>)
    ensures AllAre([UnreviewedFinding(gone, count)] + AbsentFinding(missing), IsReview)
  {}

  lemma ClassKind(manifest: map<string, Entry>, parents: map<string, Relation>, names: seq<string>)
    ensures AllAre(Gather(names, ClassFinding(manifest, parents)), IsOfClass)
  {
    GatherKeepsKind(names, ClassFinding(manifest, parents), IsOfClass);
  }

  lemma TenantKind(manifest: map<string, Entry>, parents: map<string, Relation>, names: seq<string>)
    ensures AllAre(Gather(names, TenantFinding(manifest, parents)), (f: Finding) => f.HoldsTenantData?)
  {
    GatherKeepsKind(names, TenantFinding(manifest, parents), (f: Finding) => f.HoldsTenantData?);
  }

  lemma InPart(a: seq<Finding>, b: seq<Finding>, c: Finding, d: seq<Finding>, f: Finding)
    requires AllAre(a, IsReview) && AllAre(b, IsOfClass) && (c.NotEnforced? || c.AllEnforced?)
    requires AllAre(d, (g: Finding) => g.HoldsTenantData?)
    ensures IsReview(f) ==> (f in a + b + [c] + d <==> f in a)
    ensures IsOfClass(f) ==> (f in a + b + [c] + d <==> f in b)
    ensures f.NotEnforced? || f.AllEnforced? ==> (f in a + b + [c] + d <==> f == c)
    ensures f.HoldsTenantData? ==> (f in a + b + [c] + d <==> f in d)
  {
    var all := a + b + [c] + d;
    assert f in all <==> f in a || f in b || f == c || f in d;
  }

  lemma FindingFrom(manifest: map<string, Entry>, catalog: seq<Relation>, f: Finding)
    ensures var found, parents := Findings(manifest, catalog), Parents(catalog);
      && (IsReview(f) ==> (f in found <==> f in ReviewFindings(manifest, parents)))
      && (IsOfClass(f) ==> (f in found <==>
            f in Gather(SortedNames(manifest.Keys * parents.Keys), ClassFinding(manifest, parents))))
      && (f.NotEnforced? || f.AllEnforced? ==> (f in found <==> f == EnforcementFinding(Watched(manifest, catalog))))
      && (f.HoldsTenantData? ==> (f in found <==>
            f in Gather(SortedNames(manifest.Keys), TenantFinding(manifest, parents))))
  {
    var parents := Parents(catalog);
    var common := SortedNames(manifest.Keys * parents.Keys);
    ReviewKind(manifest, parents);
    ClassKind(manifest, parents, common);
    TenantKind(manifest, parents, SortedNames(manifest.Keys));
    InPart(ReviewFindings(manifest, parents), Gather(common, ClassFinding(manifest, parents)),
           EnforcementFinding(Watched(manifest, catalog)),
           Gather(SortedNames(manifest.Keys), TenantFinding(manifest, parents)), f);
  }

  lemma ClassPartIs(manifest: map<string, Entry>, catalog: seq<Relation>, n: string, f: Finding)
    requires IsOfClass(f) && f.name == n
    ensures f in Findings(manifest, catalog) <==> f in ClassFindingOf(manifest, Parents(catalog), n)
  {
    var parents := Parents(catalog);
    FindingFrom(manifest, catalog, f);
    SortedNamesHolds(manifest.Keys * parents.Keys);
    forall m
      ensures f in ClassFinding(manifest, parents)(m) ==> m == n && m in manifest.Keys * parents.Keys
    {
      OwnName(manifest, parents, m, f);
    }
    OneInGather(SortedNames(manifest.Keys * parents.Keys), ClassFinding(manifest, parents), f, n);
  }

  lemma OwnName(manifest: map<string, Entry>, parents: map<string, Relation>, m: string, f: Finding)
    ensures f in ClassFindingOf(manifest, parents, m) ==> f.name == m && m in manifest && m in parents
    ensures f in TenantFindingOf(manifest, parents, m) ==> f.name == m && m in manifest && m in parents
  {}

  lemma TenantPartIs(manifest: map<string, Entry>, catalog: seq<Relation>, n: string, f: Finding)
    requires f.HoldsTenantData? && f.name == n
    ensures f in Findings(manifest, catalog) <==> f in TenantFindingOf(manifest, Parents(catalog), n)
  {
    var parents := Parents(catalog);
    FindingFrom(manifest, catalog, f);
    SortedNamesHolds(manifest.Keys);
    forall m
      ensures f in TenantFinding(manifest, parents)(m) ==> m == n && m in manifest
    {
      OwnName(manifest, parents, m, f);
    }
    OneInGather(SortedNames(manifest.Keys), TenantFinding(manifest, parents), f, n);
  }

  lemma NamesReported(s: set<string>)
    ensures SortedBy(Strings(), SortedNames(s)) && (SortedNames(s) == [] <==> s == {})
    ensures forall n :: n in SortedNames(s) <==> n in s
  {
    SortedNamesHolds(s);
    StringsAreOrdered(Listing(s));
    SortSorts(Strings(), Listing(s));
  }

  /** Unreviewed relations fail, exactly when there are any, by name and in order. */
  lemma UnreviewedExactly(manifest: map<string, Entry>, catalog: seq<Relation>, names: seq<string>)
    requires DistinctNames(catalog)
    ensures Unreviewed(names) in Findings(manifest, catalog) ==>
      names != [] && SortedBy(Strings(), names) && forall n :: n in names <==> HasTop(catalog, n) && n !in manifest
    ensures (exists n :: HasTop(catalog, n) && n !in manifest) ==>
      exists found :: Unreviewed(found) in Findings(manifest, catalog)
  {
    var gone := Parents(catalog).Keys - manifest.Keys;
    NamesReported(gone);
    FindingFrom(manifest, catalog, Unreviewed(names));
    FindingFrom(manifest, catalog, Unreviewed(SortedNames(gone)));
    forall n
      ensures n in gone <==> HasTop(catalog, n) && n !in manifest
    {
      TopIsParent(catalog, n);
    }
    OneReview(manifest, Parents(catalog), names);
    OneReview(manifest, Parents(catalog), SortedNames(gone));
  }

  /** The relations counted as reviewed are all that are no partitions, reported exactly when none is unreviewed. */
  lemma AllReviewedExactly(manifest: map<string, Entry>, catalog: seq<Relation>, count: nat)
    requires DistinctNames(catalog)
    ensures AllReviewed(count) in Findings(manifest, catalog) <==>
      && (forall n :: HasTop(catalog, n) ==> n in manifest)
      && count == |set r | r in catalog && !r.isPartition :: r.name|
  {
    var parents := Parents(catalog);
    var tops := set r | r in catalog && !r.isPartition :: r.name;
    forall n
      ensures n in parents <==> HasTop(catalog, n)
      ensures n in tops <==> HasTop(catalog, n)
    {
      TopIsParent(catalog, n);
      if n in tops {
        var r :| r in catalog && !r.isPartition && r.name == n;
        assert IsTop(catalog, n, r);
      }
      if HasTop(catalog, n) {
        var r :| IsTop(catalog, n, r);
        assert r.name in tops;
      }
    }
    assert parents.Keys == tops;
    FindingFrom(manifest, catalog, AllReviewed(count));
    NamesReported(parents.Keys - manifest.Keys);
    NoneUnreviewed(SortedNames(parents.Keys - manifest.Keys), |parents|,
                   SortedNames(manifest.Keys - parents.Keys), count);
    if n :| HasTop(catalog, n) && n !in manifest { assert n in parents.Keys - manifest.Keys; }
  }

  lemma NoneUnreviewed(gone: seq<string>, total: nat, missing: seq<string>, count: nat)
    ensures AllReviewed(count) in [UnreviewedFinding(gone, total)] + AbsentFinding(missing) <==>
      gone == [] && count == total
  {
    assert ([UnreviewedFinding(gone, total)] + AbsentFinding(missing))[0] == UnreviewedFinding(gone, total);
  }

  lemma OneReview(manifest: map<string, Entry>, parents: map<string, Relation>, names: seq<string>)
    ensures Unreviewed(names) in ReviewFindings(manifest, parents) <==>
      names == SortedNames(parents.Keys - manifest.Keys) && names != []
    ensures Absent(names) in ReviewFindings(manifest, parents) <==>
      names == SortedNames(manifest.Keys - parents.Keys) && names != []
  {
    OneReviewOf(SortedNames(parents.Keys - manifest.Keys), |parents|, SortedNames(manifest.Keys - parents.Keys), names);
  }

  lemma OneReviewOf(gone: seq<string>, count: nat, missing: seq<string>, names: seq<string>)
    ensures var found := [UnreviewedFinding(gone, count)] + AbsentFinding(missing);
      && (Unreviewed(names) in found <==> names == gone && names != [])
      && (Absent(names) in found <==> names == missing && names != [])
  {
    var found := [UnreviewedFinding(gone, count)] + AbsentFinding(missing);
    assert found[0] == UnreviewedFinding(gone, count);
    if missing != [] { assert found[1] == Absent(missing); }
  }

  /** Declared relations that the catalogue lacks are reported, exactly when there are any, by name and in order. */
  lemma AbsentExactly(manifest: map<string, Entry>, catalog: seq<Relation>, names: seq<string>)
    requires DistinctNames(catalog)
    ensures Absent(names) in Findings(manifest, catalog) ==>
      names != [] && SortedBy(Strings(), names) && forall n :: n in names <==> n in manifest && !HasTop(catalog, n)
    ensures (exists n :: n in manifest && !HasTop(catalog, n)) ==>
      exists found :: Absent(found) in Findings(manifest, catalog)
  {
    var missing := manifest.Keys - Parents(catalog).Keys;
    NamesReported(missing);
    FindingFrom(manifest, catalog, Absent(names));
    FindingFrom(manifest, catalog, Absent(SortedNames(missing)));
    forall n
      ensures n in missing <==> n in manifest && !HasTop(catalog, n)
    {
      TopIsParent(catalog, n);
    }
    OneReview(manifest, Parents(catalog), names);
    OneReview(manifest, Parents(catalog), SortedNames(missing));
  }

  /** A relation declared as a gap is reported as closed exactly when it has row security, and as known, with the
      manifest's note, exactly when it has none. */
  lemma GapReportedExactly(manifest: map<string, Entry>, catalog: seq<Relation>, n: string, r: Relation, note: string)
    requires DistinctNames(catalog) && IsTop(catalog, n, r) && n in manifest
    ensures GapClosed(n) in Findings(manifest, catalog) <==> manifest[n].cls == Gap && r.rls
    ensures KnownGap(n, note) in Findings(manifest, catalog) <==>
      manifest[n].cls == Gap && !r.rls && note == manifest[n].note
  {
    TopIsParent(catalog, n);
    ClassPartIs(manifest, catalog, n, GapClosed(n));
    ClassPartIs(manifest, catalog, n, KnownGap(n, note));
    RelationFindings(manifest, Parents(catalog), n);
    OneMember(GapClosed(n), ClassFindingOf(manifest, Parents(catalog), n));
    OneMember(KnownGap(n, note), ClassFindingOf(manifest, Parents(catalog), n));
  }

  /** A declaration other than a gap fails exactly when the relation shows another class: the tenant root by its name,
      then by its `workspace_id`, then by its row security. */
  lemma MismatchReportedExactly(manifest: map<string, Entry>, catalog: seq<Relation>, n: string, r: Relation,
                                declared: Class, shown: Class)
    requires DistinctNames(catalog) && IsTop(catalog, n, r) && n in manifest
    ensures ClassMismatch(n, declared, shown) in Findings(manifest, catalog) <==>
      && declared == manifest[n].cls && declared != Gap && declared != shown
      && shown == if n == "workspaces" then TenantRoot else if r.hasWorkspaceId then Workspace
                  else if r.rls then Transitive else System
  {
    TopIsParent(catalog, n);
    ClassPartIs(manifest, catalog, n, ClassMismatch(n, declared, shown));
    RelationFindings(manifest, Parents(catalog), n);
    OneMember(ClassMismatch(n, declared, shown), ClassFindingOf(manifest, Parents(catalog), n));
  }

  /** A relation with a `workspace_id` fails exactly when it is declared as a class without tenants' rows. */
  lemma TenantDataReportedExactly(manifest: map<string, Entry>, catalog: seq<Relation>, n: string, r: Relation,
                                  declared: Class)
    requires DistinctNames(catalog) && IsTop(catalog, n, r) && n in manifest
    ensures HoldsTenantData(n, declared) in Findings(manifest, catalog) <==>
      declared == manifest[n].cls && declared != Workspace && declared != Transitive && r.hasWorkspaceId
  {
    TopIsParent(catalog, n);
    TenantPartIs(manifest, catalog, n, HoldsTenantData(n, declared));
    RelationFindings(manifest, Parents(catalog), n);
    OneMember(HoldsTenantData(n, declared), TenantFindingOf(manifest, Parents(catalog), n));
  }

  lemma OneMember(f: Finding, found: seq<Finding>)
    requires |found| <= 1
    ensures f in found <==> found == [f]
  {}

  lemma RelationFindings(manifest: map<string, Entry>, parents: map<string, Relation>, n: string)
    requires n in manifest && n in parents
    ensures var declared, r := manifest[n].cls, parents[n];
      && ClassFindingOf(manifest, parents, n) ==
           (if declared == Gap then (if r.rls then [GapClosed(n)] else [KnownGap(n, manifest[n].note)])
            else if declared != Classify(r) then [ClassMismatch(n, declared, Classify(r))] else [])
      && TenantFindingOf(manifest, parents, n) ==
           if declared != Workspace && declared != Transitive && r.hasWorkspaceId then [HoldsTenantData(n, declared)]
           else []
  {}

  /** The enforcement finding fails exactly when a watched relation lacks row security, and lists exactly those. */
  lemma EnforcementReportedExactly(manifest: map<string, Entry>, catalog: seq<Relation>, members: seq<Relation>)
    requires DistinctNames(catalog)
    ensures NotEnforced(members) in Findings(manifest, catalog) ==>
      && members != []
      && forall r :: r in members <==> IsWatched(manifest, catalog, r) && !(r.rls && r.forced && r.policies >= 1)
    ensures (exists r :: IsWatched(manifest, catalog, r) && !(r.rls && r.forced && r.policies >= 1)) ==>
      exists found :: NotEnforced(found) in Findings(manifest, catalog)
  {
    var insecure := Unenforced(Watched(manifest, catalog));
    UnenforcedAre(manifest, catalog);
    FindingFrom(manifest, catalog, NotEnforced(members));
    if insecure != [] { FindingFrom(manifest, catalog, NotEnforced(insecure)); }
  }

  lemma UnenforcedAre(manifest: map<string, Entry>, catalog: seq<Relation>)
    requires DistinctNames(catalog)
    ensures forall r :: r in Unenforced(Watched(manifest, catalog)) <==>
      IsWatched(manifest, catalog, r) && !(r.rls && r.forced && r.policies >= 1)
  {
    forall r
      ensures r in Unenforced(Watched(manifest, catalog)) <==>
        IsWatched(manifest, catalog, r) && !(r.rls && r.forced && r.policies >= 1)
    {
      WatchedAre(manifest, catalog, r);
      InUnenforced(Watched(manifest, catalog), r);
    }
  }

  /** A silent check is sound: a relation that carries `workspace_id` is declared WORKSPACE, and it and each direct
      partition of it have row security enabled and forced with at least one policy. */
  lemma SilenceMeansIsolation(manifest: map<string, Entry>, catalog: seq<Relation>, r: Relation)
    requires DistinctNames(catalog) && Silent(Findings(manifest, catalog))
    requires r in catalog && !r.isPartition && r.hasWorkspaceId
    ensures r.name in manifest && manifest[r.name].cls == Workspace && r.name != "workspaces"
    ensures r.rls && r.forced && r.policies >= 1
    ensures forall c :: c in catalog && c.parent == Some(r.name) ==> c.rls && c.forced && c.policies >= 1
  {
    SilentExactly(manifest, catalog);
    assert Accounted(manifest, catalog, r);
  }

  /** No declaration lets a relation with a `workspace_id` off: as a GAP, or as `workspaces`, it always fails. */
  lemma NoEscape(manifest: map<string, Entry>, catalog: seq<Relation>, r: Relation)
    requires DistinctNames(catalog) && r in catalog && !r.isPartition && r.hasWorkspaceId
    requires r.name == "workspaces" || (r.name in manifest && manifest[r.name].cls != Workspace)
    ensures !Silent(Findings(manifest, catalog))
  {
    if Silent(Findings(manifest, catalog)) {
      SilenceMeansIsolation(manifest, catalog, r);
    }
  }

  /** A relation, a child of it, a child of that, and so on: one way down the partition tree below `chain[0]`. */
  ghost predicate IsChain(catalog: seq<Relation>, chain: seq<Relation>) {
    && chain != [] && (forall i :: 0 <= i < |chain| ==> chain[i] in catalog)
    && (forall i :: 0 < i < |chain| ==> IsChild(chain[i], chain[i - 1]))
  }

  predicate IsChild(c: Relation, r: Relation) {
    c.parent == Some(r.name)
  }

  /** Every relation that is at least `depth` levels below `r` enforces row security. */
  ghost predicate EnforcedFrom(catalog: seq<Relation>, r: Relation, depth: nat) {
    forall chain: seq<Relation> :: IsChain(catalog, chain) && chain[0] == r && |chain| > depth ==>
      var last := chain[|chain| - 1];
      last.rls && last.forced && last.policies >= 1
  }

  ghost predicate IsTenant(manifest: map<string, Entry>, catalog: seq<Relation>, r: Relation) {
    r in catalog && !r.isPartition && r.name in manifest
    && (manifest[r.name].cls == Workspace || manifest[r.name].cls == Transitive)
  }

  /** What silence says of a tenant relation's whole partition tree: it reaches two levels. The whole tree enforces row
      security if and only if everything from the second level below the relation on does, which the check never
      reads. */
  lemma TreeEnforcedExactly(manifest: map<string, Entry>, catalog: seq<Relation>, r: Relation)
    requires DistinctNames(catalog) && Silent(Findings(manifest, catalog)) && IsTenant(manifest, catalog, r)
    ensures EnforcedFrom(catalog, r, 0) <==> EnforcedFrom(catalog, r, 2)
  {
    SilentExactly(manifest, catalog);
    assert Accounted(manifest, catalog, r);
    TwoLevels(catalog, r);
  }

  lemma TwoLevels(catalog: seq<Relation>, r: Relation)
    requires FamilySecure(catalog, r)
    ensures EnforcedFrom(catalog, r, 0) <==> EnforcedFrom(catalog, r, 2)
  {
    forall chain: seq<Relation> | IsChain(catalog, chain) && chain[0] == r && |chain| <= 2
      ensures chain[|chain| - 1].rls && chain[|chain| - 1].forced && chain[|chain| - 1].policies >= 1
    {
      if |chain| == 2 { assert IsChild(chain[1], chain[0]) && chain[1] in catalog; }
    }
  }

  /** No relation with a parent is a parent itself. */
  ghost predicate IsFlat(catalog: seq<Relation>) {
    forall c, p :: c in catalog && p in catalog && p.parent.Some? ==> !IsChild(c, p)
  }

  /** Where no partition is partitioned again, silence isolates every tenant relation's whole tree. */
  lemma FlatSilenceIsolates(manifest: map<string, Entry>, catalog: seq<Relation>, r: Relation)
    requires DistinctNames(catalog) && Silent(Findings(manifest, catalog)) && IsTenant(manifest, catalog, r)
      && IsFlat(catalog)
    ensures EnforcedFrom(catalog, r, 0)
  {
    TreeEnforcedExactly(manifest, catalog, r);
    forall chain | IsChain(catalog, chain)
      ensures |chain| > 2 ==> !IsFlat(catalog)
    {
      if |chain| > 2 { LongChainNests(catalog, chain); }
    }
  }

  lemma LongChainNests(catalog: seq<Relation>, chain: seq<Relation>)
    requires IsChain(catalog, chain) && |chain| > 2
    ensures !IsFlat(catalog)
  {
    assert IsChild(chain[1], chain[0]) && IsChild(chain[2], chain[1]);
    assert chain[1] in catalog && chain[2] in catalog;
  }

  /** Only direct partitions are covered: a partition of a partition can lack row security in silence. */
  lemma SubPartitionEscapes() returns (manifest: map<string, Entry>, catalog: seq<Relation>, top: Relation,
                                       middle: Relation, leaf: Relation)
    ensures DistinctNames(catalog) && catalog == [top, middle, leaf] && Silent(Findings(manifest, catalog))
    ensures top.hasWorkspaceId && middle.parent == Some(top.name) && leaf.parent == Some(middle.name)
    ensures !(leaf.rls && leaf.forced && leaf.policies >= 1)
  {
    top := Relation("t", false, None, true, true, 1, true);
    middle := Relation("t1", true, Some("t"), true, true, 1, true);
    leaf := Relation("t2", true, Some("t1"), false, false, 0, true);
    manifest := map["t" := Entry(Workspace, "rows of one workspace")];
    catalog := [top, middle, leaf];
    AccountedTop(manifest, catalog);
    SilentExactly(manifest, catalog);
  }

  lemma AccountedTop(manifest: map<string, Entry>, catalog: seq<Relation>)
    requires |catalog| == 3 && catalog[0].name in manifest && manifest[catalog[0].name].cls == Workspace
    requires Classify(catalog[0]) == Workspace && Enforced(catalog[0]) && Enforced(catalog[1])
    requires catalog[0].parent.None? && catalog[2].parent != Some(catalog[0].name)
    requires catalog[1].isPartition && catalog[2].isPartition
    ensures forall r :: r in catalog && !r.isPartition ==> Accounted(manifest, catalog, r)
  {}
}
