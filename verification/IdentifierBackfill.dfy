/**
 `decide`, `apply_backfill` and the generated undo statements of
 scripts/migrate_stech_identifiers.py. Document classification and variant
 resolution are arbitrary functions; the identifiers' table is a map by primary
 key and the matches' table is reduced to its canonical reference.
 */
module IdentifierBackfill {
  import opened Wrappers
  import Sidecar = AuditSidecar

  datatype Source = ProductJson | LegacyBackfill

  /** A row of `match_competitor_identifiers`. */
  datatype Identifier = Identifier(
    matchId: int, kind: string, value: string, source: Source, verifiedAt: Option<int>, confident: bool,
    effectiveFrom: int, effectiveTo: Option<int>)

  /** `refs` is `competitor_product_matches.canonical_variant_ref` by match. */
  datatype Db = Db(refs: map<int, Option<int>>, identifiers: map<int, Identifier>, audits: Sidecar.Table)

  // ----- decisions

  datatype MatchRow = MatchRow(matchId: int, legacy: Option<string>, legacySku: Option<string>,
                               canonicalRef: Option<int>)

  datatype Decision = Decision(
    matchId: int, kind: string, value: Option<string>, source: Source, verified: bool,
    canonical: bool, quarantined: bool, evidence: string)

  const UNKNOWN := "UNKNOWN"

  datatype Classification = Classification(kind: string, ambiguous: bool)

  /** What the storefront document says: how it types a value, and whether exactly one variant is resolved. */
  datatype Document = Document(classify: string -> Classification, resolved: (string, Option<string>) -> bool,
                               note: string)

  function Stripped(legacy: Option<string>, strip: string -> string): Option<string> {
    match legacy
    case None => None
    case Some(s) => if strip(s) == "" then None else Some(strip(s))
  }

  function Decide(row: MatchRow, product: Option<Document>, strip: string -> string): Decision {
    match Stripped(row.legacy, strip)
    case None => Decision(row.matchId, UNKNOWN, None, LegacyBackfill, false, false, false, "NO_LEGACY_IDENTIFIER")
    case Some(value) =>
      match product
      case None => Decision(row.matchId, UNKNOWN, Some(value), LegacyBackfill, false, false, true, "NO_PRODUCT_JSON")
      case Some(doc) =>
        var c := doc.classify(value);
        var resolved := doc.resolved(value, row.legacySku);
        var typed := c.kind != UNKNOWN;
        Decision(
          row.matchId, c.kind, Some(value),
          if typed && !c.ambiguous then ProductJson else LegacyBackfill,
          typed && !c.ambiguous,
          typed && !c.ambiguous && resolved,
          c.ambiguous || !resolved,
          doc.note)
  }

  /** A decision only ever selects a canonical identity that is verified and not up for review, and asks for
      review exactly when a value could not be pinned to one variant. */
  lemma DecisionsAreCautious(row: MatchRow, product: Option<Document>, strip: string -> string)
    ensures var d := Decide(row, product, strip);
      && d.matchId == row.matchId
      && (d.canonical <==> d.verified && !d.quarantined && d.value.Some?)
      && (d.value.None? ==> !d.verified && !d.quarantined)
      && (product.None? ==> !d.canonical && (d.quarantined <==> d.value.Some?))
      && (d.verified <==> d.source == ProductJson)
  {}

  /** What is decided, case by case: nothing without a legacy value, a review without a document, and otherwise what the
      document says of that value. */
  lemma DecidesExactly(row: MatchRow, product: Option<Document>, strip: string -> string)
    ensures var d := Decide(row, product, strip);
      var blank := row.legacy.None? || strip(row.legacy.value) == "";
      && d.matchId == row.matchId
      && (if blank then d.value == None else d.value == Some(strip(row.legacy.value)))
      && (blank || product.None? ==> d.kind == UNKNOWN && !d.verified && !d.canonical && d.source == LegacyBackfill)
      && (blank ==> !d.quarantined) && (!blank && product.None? ==> d.quarantined)
      && (!blank && product.Some? ==>
            var says := product.value.classify(d.value.value);
            var one := product.value.resolved(d.value.value, row.legacySku);
            && d.kind == says.kind
            && (d.verified <==> says.kind != UNKNOWN && !says.ambiguous)
            && (d.source == ProductJson <==> d.verified)
            && (d.canonical <==> d.verified && one)
            && (d.quarantined <==> says.ambiguous || !one))
  {}

  // ----- apply

  /** The decisions of one run with the ids freshly drawn for the rows they may write. */
  datatype Item = Item(row: MatchRow, decision: Decision, identifierId: int, reviewId: int)

  function IdentifierFor(d: Decision, now: int): Identifier
    requires d.value.Some?
  {
    Identifier(d.matchId, d.kind, d.value.value, d.source, if d.verified then Some(now) else None, d.verified, now,
               None)
  }

  predicate SameCurrentKey(a: Identifier, b: Identifier) {
    a.effectiveTo.None? && b.effectiveTo.None? && a.matchId == b.matchId && a.kind == b.kind && a.value == b.value
  }

  /** The row would collide with the primary key or with the unique index over current rows. */
  predicate Conflicts(t: map<int, Identifier>, id: int, row: Identifier) {
    id in t || exists k :: k in t && SameCurrentKey(t[k], row)
  }

  /** `INSERT ... ON CONFLICT DO NOTHING` for the parameters of all items, in order. */
  function InsertAll(t: map<int, Identifier>, items: seq<Item>, now: int): map<int, Identifier> {
    if items == [] then t
    else
      var u := InsertAll(t, items[..|items| - 1], now);
      var item := items[|items| - 1];
      if item.decision.value.None? then u
      else
        var row := IdentifierFor(item.decision, now);
        if Conflicts(u, item.identifierId, row) then u else u[item.identifierId := row]
  }

  predicate SetsCanonical(item: Item) { item.decision.value.Some? && item.decision.canonical }

  /** `UPDATE ... SET canonical_variant_ref = :ref WHERE id = :match_id AND EXISTS (...)`, in order. */
  function SetRefs(refs: map<int, Option<int>>, t: map<int, Identifier>, items: seq<Item>): map<int, Option<int>> {
    if items == [] then refs
    else
      var r := SetRefs(refs, t, items[..|items| - 1]);
      var item := items[|items| - 1];
      if SetsCanonical(item) && item.identifierId in t && item.decision.matchId in r
      then r[item.decision.matchId := Some(item.identifierId)]
      else r
  }

  function Reviews(items: seq<Item>): seq<Sidecar.NewRow> {
    if items == [] then []
    else
      var item := items[|items| - 1];
      Reviews(items[..|items| - 1])
      + if item.decision.quarantined
        then [Sidecar.NewRow(item.reviewId, item.decision.matchId, "NEEDS_REVIEW", "b4-identifier-backfill-1",
                             item.decision.evidence)]
        else []
  }

  function Applied(db: Db, items: seq<Item>, now: int): Db {
    var t := InsertAll(db.identifiers, items, now);
    Db(SetRefs(db.refs, t, items), t, Sidecar.Written(db.audits, Reviews(items), now))
  }

  datatype Counts = Counts(identifiersInserted: nat, canonicalRefsSet: nat, needsReviewRows: nat)

  function CountValued(items: seq<Item>): nat {
    if items == [] then 0
    else CountValued(items[..|items| - 1]) + if items[|items| - 1].decision.value.Some? then 1 else 0
  }

  function CountCanonical(items: seq<Item>): nat {
    if items == [] then 0
    else CountCanonical(items[..|items| - 1]) + if SetsCanonical(items[|items| - 1]) then 1 else 0
  }

  class Session {
    var identifiers: map<int, Identifier>
    var refs: map<int, Option<int>>
    var sidecar: Sidecar.Sidecar

    constructor (db: Db)
      ensures identifiers == db.identifiers && refs == db.refs && fresh(sidecar) && sidecar.table == db.audits
    {
      identifiers := db.identifiers;
      refs := db.refs;
      sidecar := new Sidecar.Sidecar(db.audits);
    }

    function State(): Db
      reads this, sidecar
    {
      Db(refs, identifiers, sidecar.table)
    }

    method InsertIdentifiers(items: seq<Item>, now: int) returns (tried: nat)
      modifies this`identifiers
      ensures identifiers == InsertAll(old(identifiers), items, now)
      ensures tried == CountValued(items)
    {
      ghost var before := identifiers;
      tried := 0;
      for i := 0 to |items|
        invariant identifiers == InsertAll(before, items[..i], now)
        invariant tried == CountValued(items[..i])
      {
        assert items[..i + 1][..i] == items[..i];
        if items[i].decision.value.Some? {
          tried := tried + 1;
          var row := IdentifierFor(items[i].decision, now);
          if !Conflicts(identifiers, items[i].identifierId, row) {
            identifiers := identifiers[items[i].identifierId := row];
          }
        }
      }
      assert items[..|items|] == items;
    }

    method SetCanonicalRefs(items: seq<Item>) returns (tried: nat)
      modifies this`refs
      ensures refs == SetRefs(old(refs), identifiers, items)
      ensures tried == CountCanonical(items)
    {
      ghost var before := refs;
      tried := 0;
      for i := 0 to |items|
        invariant refs == SetRefs(before, identifiers, items[..i])
        invariant tried == CountCanonical(items[..i])
      {
        assert items[..i + 1][..i] == items[..i];
        if SetsCanonical(items[i]) {
          tried := tried + 1;
          if items[i].identifierId in identifiers && items[i].decision.matchId in refs {
            refs := refs[items[i].decision.matchId := Some(items[i].identifierId)];
          }
        }
      }
      assert items[..|items|] == items;
    }

    method BuildReviews(items: seq<Item>) returns (rows: seq<Sidecar.NewRow>)
      ensures rows == Reviews(items)
    {
      rows := [];
      for i := 0 to |items|
        invariant rows == Reviews(items[..i])
      {
        assert items[..i + 1][..i] == items[..i];
        var d := items[i].decision;
        if d.quarantined {
          rows := rows + [Sidecar.NewRow(items[i].reviewId, d.matchId, "NEEDS_REVIEW", "b4-identifier-backfill-1",
                                         d.evidence)];
        }
      }
      assert items[..|items|] == items;
    }

    method ApplyBackfill(items: seq<Item>, now: int) returns (counts: Counts)
      modifies this, sidecar
      ensures sidecar == old(sidecar)
      ensures State() == Applied(old(State()), items, now)
      ensures counts == Counts(CountValued(items), CountCanonical(items), |Reviews(items)|)
    {
      var inserted := InsertIdentifiers(items, now);
      var refsSet := SetCanonicalRefs(items);
      var reviews := BuildReviews(items);
      sidecar.WriteReviews(reviews, now);
      counts := Counts(inserted, refsSet, |reviews|);
    }
  }

  // ----- undo

  /** `DELETE FROM match_competitor_identifiers WHERE match_id = m AND effective_from = now`; the foreign key
      sets references to deleted rows to null. */
  function DeleteStamped(db: Db, m: int, now: int): Db {
    var kept := map id | id in db.identifiers
                  && !(db.identifiers[id].matchId == m && db.identifiers[id].effectiveFrom == now) ::
                    db.identifiers[id];
    db.(identifiers := kept,
        refs := map k | k in db.refs ::
          if db.refs[k].Some? && db.refs[k].value in db.identifiers && db.refs[k].value !in kept then None
            else db.refs[k])
  }

  /** The two undo statements of one item. */
  function UndoOne(db: Db, item: Item, now: int): Db {
    var m := item.decision.matchId;
    DeleteStamped(db.(refs := if m in db.refs then db.refs[m := item.row.canonicalRef] else db.refs), m, now)
  }

  /** The undo script: one entry per item that has a value. */
  function Undone(db: Db, items: seq<Item>, now: int): Db {
    if items == [] then db
    else
      var u := Undone(db, items[..|items| - 1], now);
      if items[|items| - 1].decision.value.Some? then UndoOne(u, items[|items| - 1], now) else u
  }

  // ----- invariants

  /** The unique index over current rows. */
  ghost predicate UniqueKeys(t: map<int, Identifier>) {
    forall a, b :: a in t && b in t && SameCurrentKey(t[a], t[b]) ==> a == b
  }

  /** A canonical reference is null or names an existing row of that very match. */
  ghost predicate HonestRefs(refs: map<int, Option<int>>, t: map<int, Identifier>) {
    forall m :: m in refs && refs[m].Some? ==> refs[m].value in t && t[refs[m].value].matchId == m
  }

  ghost predicate Sound(db: Db) {
    UniqueKeys(db.identifiers) && HonestRefs(db.refs, db.identifiers)
  }

  /** One run: distinct matches of the table, each decision about its own row, ids freshly drawn. */
  ghost predicate FreshRun(db: Db, items: seq<Item>) {
    && (forall i :: 0 <= i < |items| ==>
          items[i].decision.matchId in db.refs && items[i].identifierId !in db.identifiers)
    && (forall i, j :: 0 <= i < j < |items| ==>
          items[i].decision.matchId != items[j].decision.matchId && items[i].identifierId != items[j].identifierId)
  }

  /** The rows were read from this database: each carries its match's present canonical reference. */
  ghost predicate ReadFrom(db: Db, items: seq<Item>) {
    forall i :: 0 <= i < |items| ==>
      items[i].decision.matchId in db.refs && items[i].row.canonicalRef == db.refs[items[i].decision.matchId]
  }

  // ----- what the INSERT does

  ghost predicate FreshIds(t: map<int, Identifier>, items: seq<Item>) {
    && (forall i :: 0 <= i < |items| ==> items[i].identifierId !in t)
    && (forall i, j :: 0 <= i < j < |items| ==> items[i].identifierId != items[j].identifierId)
  }

  /** Row `id` was written for item `i`. */
  ghost predicate WrittenFor(u: map<int, Identifier>, id: int, items: seq<Item>, i: int, now: int) {
    && 0 <= i < |items| && items[i].identifierId == id && items[i].decision.value.Some?
    && id in u && u[id] == IdentifierFor(items[i].decision, now)
  }

  lemma {:induction false} InsertKeepsRows(t: map<int, Identifier>, items: seq<Item>, now: int)
    requires FreshIds(t, items)
    ensures var u := InsertAll(t, items, now);
      && (forall id :: id in t ==> id in u && u[id] == t[id])
      && (forall id :: id in u && id !in t ==> exists i :: WrittenFor(u, id, items, i, now))
  {
    if items != [] {
      var init, last := items[..|items| - 1], items[|items| - 1];
      InsertKeepsRows(t, init, now);
      var v, u := InsertAll(t, init, now), InsertAll(t, items, now);
      forall id | id in v ensures id != last.identifierId {
        if id !in t {
          var i :| WrittenFor(v, id, init, i, now);
        }
      }
      forall id | id in u && id !in t ensures exists i :: WrittenFor(u, id, items, i, now) {
        if id in v {
          var i :| WrittenFor(v, id, init, i, now);
          assert WrittenFor(u, id, items, i, now);
        } else {
          assert WrittenFor(u, id, items, |items| - 1, now);
        }
      }
    }
  }

  lemma {:induction false} InsertKeepsKeysUnique(t: map<int, Identifier>, items: seq<Item>, now: int)
    requires UniqueKeys(t)
    ensures UniqueKeys(InsertAll(t, items, now))
  {
    if items != [] { InsertKeepsKeysUnique(t, items[..|items| - 1], now); }
  }

  ghost predicate HasKey(t: map<int, Identifier>, row: Identifier) {
    exists k :: k in t && SameCurrentKey(t[k], row)
  }

  lemma {:induction false} InsertCoversKeys(t: map<int, Identifier>, items: seq<Item>, now: int)
    requires FreshIds(t, items)
    ensures forall i :: 0 <= i < |items| && items[i].decision.value.Some? ==>
      HasKey(InsertAll(t, items, now), IdentifierFor(items[i].decision, now))
  {
    if items != [] {
      var init := items[..|items| - 1];
      InsertCoversKeys(t, init, now);
      InsertKeepsRows(t, init, now);
      InsertKeepsRows(t, items, now);
      var v, u := InsertAll(t, init, now), InsertAll(t, items, now);
      forall i | 0 <= i < |items| && items[i].decision.value.Some?
        ensures HasKey(u, IdentifierFor(items[i].decision, now))
      {
        var row := IdentifierFor(items[i].decision, now);
        if i < |init| {
          assert init[i] == items[i];
          var k :| k in v && SameCurrentKey(v[k], row);
          NewestKeepsRow(v, items[|items| - 1], now, k);
          assert k in u && SameCurrentKey(u[k], row);
        } else if HasKey(v, row) {
          var k :| k in v && SameCurrentKey(v[k], row);
          assert k in u && SameCurrentKey(u[k], row);
        } else {
          FreshLast(t, items, now);
          assert SameCurrentKey(u[items[i].identifierId], row);
        }
      }
    }
  }

  lemma NewestKeepsRow(v: map<int, Identifier>, item: Item, now: int, k: int)
    requires k in v
    ensures item.decision.value.Some? && !Conflicts(v, item.identifierId, IdentifierFor(item.decision, now))
      ==> k != item.identifierId
  {}

  lemma FreshLast(t: map<int, Identifier>, items: seq<Item>, now: int)
    requires items != [] && FreshIds(t, items)
    ensures items[|items| - 1].identifierId !in InsertAll(t, items[..|items| - 1], now)
  {
    var init, id := items[..|items| - 1], items[|items| - 1].identifierId;
    InsertKeepsRows(t, init, now);
    if id in InsertAll(t, init, now) {
      var i :| WrittenFor(InsertAll(t, init, now), id, init, i, now);
    }
  }

  // ----- what the UPDATE does

  lemma {:induction false} SetRefsAt(refs: map<int, Option<int>>, t: map<int, Identifier>, items: seq<Item>, m: int)
    requires forall i, j :: 0 <= i < j < |items| ==> items[i].decision.matchId != items[j].decision.matchId
    ensures m in SetRefs(refs, t, items) <==> m in refs
    ensures m in refs ==>
      SetRefs(refs, t, items)[m] == refs[m]
      || exists i :: 0 <= i < |items| && items[i].decision.matchId == m && SetsCanonical(items[i])
           && items[i].identifierId in t && SetRefs(refs, t, items)[m] == Some(items[i].identifierId)
  {
    if items != [] {
      var init := items[..|items| - 1];
      SetRefsAt(refs, t, init, m);
      if m in refs && SetRefs(refs, t, items)[m] != refs[m] {
        if items[|items| - 1].decision.matchId != m {
          var i :| 0 <= i < |init| && init[i].decision.matchId == m && SetsCanonical(init[i])
            && init[i].identifierId in t && SetRefs(refs, t, init)[m] == Some(init[i].identifierId);
          assert items[i] == init[i];
        }
      }
    }
  }

  lemma {:induction false} SetRefsWithoutRows(refs: map<int, Option<int>>, t: map<int, Identifier>, items: seq<Item>)
    requires forall i :: 0 <= i < |items| ==> items[i].identifierId !in t
    ensures SetRefs(refs, t, items) == refs
  {
    if items != [] { SetRefsWithoutRows(refs, t, items[..|items| - 1]); }
  }

  lemma NewRefIsHonest(db: Db, items: seq<Item>, now: int, i: nat)
    requires FreshRun(db, items) && i < |items| && items[i].identifierId in InsertAll(db.identifiers, items, now)
    ensures InsertAll(db.identifiers, items, now)[items[i].identifierId].matchId == items[i].decision.matchId
  {
    var t, id := InsertAll(db.identifiers, items, now), items[i].identifierId;
    InsertKeepsRows(db.identifiers, items, now);
    assert id in t && id !in db.identifiers;
    var j :| WrittenFor(t, id, items, j, now);
    SameIdSameItem(db.identifiers, items, i, j);
  }

  /** Every apply keeps the unique key and the honesty of the canonical references. */
  lemma ApplyKeepsSound(db: Db, items: seq<Item>, now: int)
    requires Sound(db) && FreshRun(db, items)
    ensures Sound(Applied(db, items, now))
  {
    var t := InsertAll(db.identifiers, items, now);
    InsertKeepsRows(db.identifiers, items, now);
    InsertKeepsKeysUnique(db.identifiers, items, now);
    var refs := SetRefs(db.refs, t, items);
    forall m | m in refs && refs[m].Some? ensures refs[m].value in t && t[refs[m].value].matchId == m {
      SetRefsAt(db.refs, t, items, m);
      if refs[m] == db.refs[m] {
        var r := db.refs[m].value;
        assert r in db.identifiers && db.identifiers[r].matchId == m;
        assert t[r] == db.identifiers[r];
      } else {
        var i :| 0 <= i < |items| && items[i].decision.matchId == m && SetsCanonical(items[i])
          && items[i].identifierId in t && refs[m] == Some(items[i].identifierId);
        NewRefIsHonest(db, items, now, i);
      }
    }
  }

  lemma SameIdSameItem(t: map<int, Identifier>, items: seq<Item>, i: nat, j: nat)
    requires FreshIds(t, items) && i < |items| && j < |items| && items[i].identifierId == items[j].identifierId
    ensures i == j
  {}

  // ----- what lands

  /** The table holds a current row of this match, kind and value. */
  ghost predicate Held(t: map<int, Identifier>, m: int, kind: string, value: string) {
    exists k :: k in t && IsHolder(t[k], m, kind, value)
  }

  predicate IsHolder(row: Identifier, m: int, kind: string, value: string) {
    row.matchId == m && row.kind == kind && row.value == value && row.effectiveTo == None
  }

  /** The decision has a value that its match does not hold yet. */
  ghost predicate IsNews(db: Db, d: Decision) {
    d.value.Some? && !Held(db.identifiers, d.matchId, d.kind, d.value.value)
  }

  /** The row of a decision, field by field: current from `now` on, verified and confident together. */
  predicate Carries(row: Identifier, d: Decision, now: int) {
    && row.matchId == d.matchId && row.kind == d.kind && Some(row.value) == d.value && row.source == d.source
    && row.effectiveFrom == now && row.effectiveTo == None
    && (row.verifiedAt == if d.verified then Some(now) else None) && row.confident == d.verified
  }

  lemma {:induction false} InsertLands(t: map<int, Identifier>, items: seq<Item>, now: int, i: nat)
    requires FreshIds(t, items) && i < |items|
    requires forall j, k :: 0 <= j < k < |items| ==> items[j].decision.matchId != items[k].decision.matchId
    ensures var d, u := items[i].decision, InsertAll(t, items, now);
      if d.value.Some? && !Held(t, d.matchId, d.kind, d.value.value)
      then items[i].identifierId in u && Carries(u[items[i].identifierId], d, now)
      else items[i].identifierId !in u
  {
    var init, last := items[..|items| - 1], items[|items| - 1];
    var v := InsertAll(t, init, now);
    InsertKeepsRows(t, init, now);
    if i < |init| {
      InsertLands(t, init, now, i);
    } else {
      FreshLast(t, items, now);
      var d := last.decision;
      if d.value.Some? {
        SameHolders(t, init, now, d);
        assert Conflicts(v, last.identifierId, IdentifierFor(d, now)) <==>
          Held(v, d.matchId, d.kind, d.value.value);
      }
    }
  }

  /** Rows of other matches make no difference to whether a value is held. */
  lemma SameHolders(t: map<int, Identifier>, items: seq<Item>, now: int, d: Decision)
    requires FreshIds(t, items) && d.value.Some?
    requires forall i :: 0 <= i < |items| ==> items[i].decision.matchId != d.matchId
    ensures Held(InsertAll(t, items, now), d.matchId, d.kind, d.value.value) <==>
      Held(t, d.matchId, d.kind, d.value.value)
  {
    var v := InsertAll(t, items, now);
    InsertKeepsRows(t, items, now);
    forall k | k in v && k !in t
      ensures v[k].matchId != d.matchId
    {
      var i :| WrittenFor(v, k, items, i, now);
    }
    if k :| k in t && IsHolder(t[k], d.matchId, d.kind, d.value.value) { assert k in v && v[k] == t[k]; }
  }

  lemma {:induction false} SetRefsExactly(refs: map<int, Option<int>>, t: map<int, Identifier>, items: seq<Item>,
                                          m: int)
    requires forall i, j :: 0 <= i < j < |items| ==> items[i].decision.matchId != items[j].decision.matchId
    requires m in refs
    ensures m in SetRefs(refs, t, items)
    ensures forall i :: 0 <= i < |items| && items[i].decision.matchId == m && items[i].decision.value.Some?
                        && items[i].decision.canonical && items[i].identifierId in t ==>
      SetRefs(refs, t, items)[m] == Some(items[i].identifierId)
    ensures (forall i :: 0 <= i < |items| && items[i].decision.matchId == m ==>
              items[i].decision.value.None? || !items[i].decision.canonical || items[i].identifierId !in t) ==>
      SetRefs(refs, t, items)[m] == refs[m]
  {
    if items != [] {
      var init := items[..|items| - 1];
      SetRefsAt(refs, t, init, m);
      SetRefsExactly(refs, t, init, m);
      assert forall i :: 0 <= i < |init| ==> init[i] == items[i];
    }
  }

  /** What an apply leaves, item by item and match by match: every value that was news is there as its own row,
      carrying the decision, and nothing else is new; a match of a canonical decision whose value was news refers to
      that row, and every other match refers to what it did. */
  lemma ApplyLands(db: Db, items: seq<Item>, now: int)
    requires FreshRun(db, items)
    ensures var after := Applied(db, items, now);
      && (forall i :: 0 <= i < |items| ==>
            if IsNews(db, items[i].decision)
            then items[i].identifierId in after.identifiers
                 && Carries(after.identifiers[items[i].identifierId], items[i].decision, now)
            else items[i].identifierId !in after.identifiers)
      && (forall id :: id in db.identifiers ==>
            id in after.identifiers && after.identifiers[id] == db.identifiers[id])
      && (forall id :: id in after.identifiers && id !in db.identifiers ==>
            exists i :: 0 <= i < |items| && items[i].identifierId == id)
    ensures var after := Applied(db, items, now);
      && after.refs.Keys == db.refs.Keys
      && (forall i :: 0 <= i < |items| ==>
            after.refs[items[i].decision.matchId] ==
              if IsNews(db, items[i].decision) && items[i].decision.canonical then Some(items[i].identifierId)
              else db.refs[items[i].decision.matchId])
      && (forall m :: m in db.refs && (forall i :: 0 <= i < |items| ==> items[i].decision.matchId != m) ==>
            after.refs[m] == db.refs[m])
  {
    RowsLand(db, items, now);
    RefsLand(db, items, now);
  }

  lemma RowsLand(db: Db, items: seq<Item>, now: int)
    requires FreshRun(db, items)
    ensures var t := InsertAll(db.identifiers, items, now);
      && (forall i :: 0 <= i < |items| ==>
            if IsNews(db, items[i].decision)
            then items[i].identifierId in t && Carries(t[items[i].identifierId], items[i].decision, now)
            else items[i].identifierId !in t)
      && (forall id :: id in db.identifiers ==> id in t && t[id] == db.identifiers[id])
      && (forall id :: id in t && id !in db.identifiers ==> exists i :: 0 <= i < |items| && items[i].identifierId == id)
  {
    var t := InsertAll(db.identifiers, items, now);
    InsertKeepsRows(db.identifiers, items, now);
    forall i: nat | i < |items| { InsertLands(db.identifiers, items, now, i); }
    forall id | id in t && id !in db.identifiers
      ensures exists i :: 0 <= i < |items| && items[i].identifierId == id
    {
      var i :| WrittenFor(t, id, items, i, now);
    }
  }

  lemma RefsLand(db: Db, items: seq<Item>, now: int)
    requires FreshRun(db, items)
    ensures var refs := SetRefs(db.refs, InsertAll(db.identifiers, items, now), items);
      && refs.Keys == db.refs.Keys
      && (forall i :: 0 <= i < |items| ==>
            refs[items[i].decision.matchId] ==
              if IsNews(db, items[i].decision) && items[i].decision.canonical then Some(items[i].identifierId)
              else db.refs[items[i].decision.matchId])
      && (forall m :: m in db.refs && (forall i :: 0 <= i < |items| ==> items[i].decision.matchId != m) ==>
            refs[m] == db.refs[m])
  {
    var t := InsertAll(db.identifiers, items, now);
    var refs := SetRefs(db.refs, t, items);
    forall m
      ensures m in refs <==> m in db.refs
    {
      SetRefsAt(db.refs, t, items, m);
    }
    forall i: nat | i < |items|
      ensures refs[items[i].decision.matchId] ==
        if IsNews(db, items[i].decision) && items[i].decision.canonical then Some(items[i].identifierId)
        else db.refs[items[i].decision.matchId]
    {
      InsertLands(db.identifiers, items, now, i);
      SetRefsExactly(db.refs, t, items, items[i].decision.matchId);
    }
    forall m | m in db.refs { SetRefsExactly(db.refs, t, items, m); }
  }

  /** How many items have the property. */
  ghost function Count(items: seq<Item>, p: Item -> bool): nat {
    |set i | 0 <= i < |items| && p(items[i])|
  }

  /** The counts reported are the attempts: one insert for every value, one reference for every canonical one, one row
      for every review. */
  lemma {:induction false} CountsAreAttempts(items: seq<Item>)
    ensures CountValued(items) == Count(items, (item: Item) => item.decision.value.Some?)
    ensures CountCanonical(items) ==
      Count(items, (item: Item) => item.decision.value.Some? && item.decision.canonical)
    ensures |Reviews(items)| == Count(items, (item: Item) => item.decision.quarantined)
  {
    if items != [] {
      var n := |items| - 1;
      CountsAreAttempts(items[..n]);
      LastIndex(items, (item: Item) => item.decision.value.Some?);
      LastIndex(items, (item: Item) => item.decision.value.Some? && item.decision.canonical);
      LastIndex(items, (item: Item) => item.decision.quarantined);
    } else {
      assert Reviews(items) == [];
    }
  }

  lemma LastIndex(items: seq<Item>, p: Item -> bool)
    requires items != []
    ensures Count(items, p) == Count(items[..|items| - 1], p) + if p(items[|items| - 1]) then 1 else 0
  {
    var n := |items| - 1;
    var before := set i | 0 <= i < n && p(items[..n][i]);
    assert (set i | 0 <= i < |items| && p(items[i])) == before + if p(items[n]) then {n} else {};
  }

  lemma {:induction false} NothingToInsert(t: map<int, Identifier>, items: seq<Item>, now: int)
    requires forall i :: 0 <= i < |items| && items[i].decision.value.Some? ==>
      HasKey(t, IdentifierFor(items[i].decision, now))
    ensures InsertAll(t, items, now) == t
  {
    if items != [] { NothingToInsert(t, items[..|items| - 1], now); }
  }

  ghost predicate SameDecisions(items: seq<Item>, again: seq<Item>) {
    |again| == |items| && forall i :: 0 <= i < |items| ==> again[i].decision == items[i].decision
  }

  /** The review rows' ids are freshly drawn, too. */
  ghost predicate FreshReviews(db: Db, items: seq<Item>) {
    && (forall i :: 0 <= i < |items| ==> items[i].reviewId !in db.audits)
    && (forall i, j :: 0 <= i < j < |items| ==> items[i].reviewId != items[j].reviewId)
  }

  predicate IsReviewOf(r: Sidecar.NewRow, item: Item) {
    && item.decision.quarantined
    && r == Sidecar.NewRow(item.reviewId, item.decision.matchId, "NEEDS_REVIEW", "b4-identifier-backfill-1",
                           item.decision.evidence)
  }

  ghost predicate ForSomeItem(r: Sidecar.NewRow, items: seq<Item>) {
    exists i :: 0 <= i < |items| && IsReviewOf(r, items[i])
  }

  ghost predicate HasReview(rows: seq<Sidecar.NewRow>, item: Item) {
    exists k :: 0 <= k < |rows| && IsReviewOf(rows[k], item)
  }

  lemma {:induction false} ReviewsAre(items: seq<Item>)
    ensures forall k :: 0 <= k < |Reviews(items)| ==> ForSomeItem(Reviews(items)[k], items)
    ensures forall i :: 0 <= i < |items| && items[i].decision.quarantined ==> HasReview(Reviews(items), items[i])
  {
    if items == [] {
      assert Reviews(items) == [];
    } else {
      var init, last, rows := items[..|items| - 1], items[|items| - 1], Reviews(items);
      ReviewsAre(init);
      forall k | 0 <= k < |rows| ensures ForSomeItem(rows[k], items) {
        if k < |Reviews(init)| {
          assert ForSomeItem(Reviews(init)[k], init);
          var i :| 0 <= i < |init| && IsReviewOf(Reviews(init)[k], init[i]);
          assert IsReviewOf(rows[k], items[i]);
        } else {
          assert IsReviewOf(rows[k], items[|items| - 1]);
        }
      }
      forall i | 0 <= i < |items| && items[i].decision.quarantined
        ensures HasReview(rows, items[i])
      {
        if i < |init| {
          assert HasReview(Reviews(init), init[i]);
          var k :| 0 <= k < |Reviews(init)| && IsReviewOf(Reviews(init)[k], init[i]);
          assert IsReviewOf(rows[k], items[i]);
        } else {
          assert IsReviewOf(rows[|rows| - 1], items[i]);
        }
      }
    }
  }

  lemma {:induction false} ReviewsAreAcceptable(db: Db, items: seq<Item>)
    requires FreshRun(db, items) && FreshReviews(db, items)
    ensures Sidecar.Acceptable(db.audits, Reviews(items))
  {
    if items != [] {
      var init, last := items[..|items| - 1], items[|items| - 1];
      ReviewsAreAcceptable(db, init);
      ReviewsAre(init);
      forall k | 0 <= k < |Reviews(init)|
        ensures Reviews(init)[k].id != last.reviewId && Reviews(init)[k].matchId != last.decision.matchId
      {
        assert ForSomeItem(Reviews(init)[k], init);
        var i :| 0 <= i < |init| && IsReviewOf(Reviews(init)[k], init[i]);
        assert init[i] == items[i];
      }
    }
  }

  predicate IsReviewedMatch(items: seq<Item>, m: int) {
    exists i :: 0 <= i < |items| && items[i].decision.quarantined && items[i].decision.matchId == m
  }

  ghost predicate HasRowOf(rows: seq<Sidecar.NewRow>, m: int) {
    exists k :: 0 <= k < |rows| && rows[k].matchId == m
  }

  lemma {:induction false} ReviewedMatches(items: seq<Item>, m: int)
    ensures HasRowOf(Reviews(items), m) <==> IsReviewedMatch(items, m)
  {
    var rows := Reviews(items);
    ReviewsAre(items);
    if HasRowOf(rows, m) {
      var k :| 0 <= k < |rows| && rows[k].matchId == m;
      assert ForSomeItem(rows[k], items);
      var i :| 0 <= i < |items| && IsReviewOf(rows[k], items[i]);
      assert items[i].decision.quarantined && items[i].decision.matchId == m;
    }
    if IsReviewedMatch(items, m) {
      var i :| 0 <= i < |items| && items[i].decision.quarantined && items[i].decision.matchId == m;
      assert HasReview(rows, items[i]);
      var k :| 0 <= k < |rows| && IsReviewOf(rows[k], items[i]);
      assert rows[k].matchId == m;
    }
  }

  /** What an apply leaves of the audit history: every quarantined decision has its own new and current review row with
      its evidence, the row that was current for its match before is superseded, and all others are as they were. */
  lemma {:induction false} ReviewsLand(db: Db, items: seq<Item>, now: int)
    requires FreshRun(db, items) && FreshReviews(db, items)
    ensures var audits := Applied(db, items, now).audits;
      && (forall i :: 0 <= i < |items| && items[i].decision.quarantined ==>
            && items[i].reviewId in audits && items[i].reviewId !in db.audits
            && audits[items[i].reviewId] == Sidecar.Audit(items[i].decision.matchId, "NEEDS_REVIEW",
                 "b4-identifier-backfill-1", items[i].decision.evidence, now, None))
      && (forall id :: id in db.audits ==>
            && id in audits
            && audits[id] == if db.audits[id].supersededAt == None && IsReviewedMatch(items, db.audits[id].matchId)
                             then db.audits[id].(supersededAt := Some(now)) else db.audits[id])
      && (forall id :: id in audits && id !in db.audits ==>
            exists i :: 0 <= i < |items| && items[i].decision.quarantined && items[i].reviewId == id)
  {
    NewReviewsLand(db, items, now);
    OldReviewsStay(db, items, now);
  }

  lemma {:induction false} NewReviewsLand(db: Db, items: seq<Item>, now: int)
    requires FreshRun(db, items) && FreshReviews(db, items)
    ensures var audits := Sidecar.Written(db.audits, Reviews(items), now);
      && (forall i :: 0 <= i < |items| && items[i].decision.quarantined ==>
            && items[i].reviewId in audits
            && audits[items[i].reviewId] == Sidecar.Audit(items[i].decision.matchId, "NEEDS_REVIEW",
                 "b4-identifier-backfill-1", items[i].decision.evidence, now, None))
      && (forall id :: id in audits && id !in db.audits ==>
            exists i :: 0 <= i < |items| && items[i].decision.quarantined && items[i].reviewId == id)
  {
    var rows, audits := Reviews(items), Sidecar.Written(db.audits, Reviews(items), now);
    ReviewsAreAcceptable(db, items);
    ReviewsAre(items);
    Sidecar.WriteExactly(db.audits, rows, now);
    forall i: nat | i < |items| && items[i].decision.quarantined { OneReviewLands(db, items, now, i); }
    forall id | id in audits && id !in db.audits
      ensures exists i :: 0 <= i < |items| && items[i].decision.quarantined && items[i].reviewId == id
    {
      var k :| 0 <= k < |rows| && rows[k].id == id;
      assert ForSomeItem(rows[k], items);
    }
  }

  lemma {:induction false} OneReviewLands(db: Db, items: seq<Item>, now: int, i: nat)
    requires FreshRun(db, items) && FreshReviews(db, items) && i < |items| && items[i].decision.quarantined
    ensures var audits := Sidecar.Written(db.audits, Reviews(items), now);
      && items[i].reviewId in audits
      && audits[items[i].reviewId] == Sidecar.Audit(items[i].decision.matchId, "NEEDS_REVIEW",
           "b4-identifier-backfill-1", items[i].decision.evidence, now, None)
  {
    var rows := Reviews(items);
    ReviewsAreAcceptable(db, items);
    ReviewsAre(items);
    Sidecar.WriteExactly(db.audits, rows, now);
    assert HasReview(rows, items[i]);
    var k :| 0 <= k < |rows| && IsReviewOf(rows[k], items[i]);
    assert rows[k].id == items[i].reviewId;
  }

  lemma {:induction false} OldReviewsStay(db: Db, items: seq<Item>, now: int)
    requires FreshRun(db, items) && FreshReviews(db, items)
    ensures var audits := Sidecar.Written(db.audits, Reviews(items), now);
      forall id :: id in db.audits ==>
        && id in audits
        && audits[id] == if db.audits[id].supersededAt == None && IsReviewedMatch(items, db.audits[id].matchId)
                         then db.audits[id].(supersededAt := Some(now)) else db.audits[id]
  {
    var rows := Reviews(items);
    ReviewsAreAcceptable(db, items);
    Sidecar.WriteExactly(db.audits, rows, now);
    forall id | id in db.audits
      ensures HasRowOf(rows, db.audits[id].matchId) <==> IsReviewedMatch(items, db.audits[id].matchId)
    {
      ReviewedMatches(items, db.audits[id].matchId);
    }
  }

  lemma {:induction false} NothingToReview(items: seq<Item>)
    requires NoneQuarantined(items)
    ensures Reviews(items) == []
  {
    if items != [] { NothingToReview(items[..|items| - 1]); }
  }

  lemma WritingNothing(t: Sidecar.Table, now: int)
    ensures Sidecar.Written(t, [], now) == t
  {
    assert Sidecar.MatchesOf([]) == {};
    assert Sidecar.Supersede(t, {}, now) == t;
  }

  ghost predicate NoneQuarantined(items: seq<Item>) {
    forall i :: 0 <= i < |items| ==> !items[i].decision.quarantined
  }

  /** A second apply of the same decisions, at any later time and with newly drawn ids, changes no identifier and no
      canonical reference, and reports as many inserts and references as the first. It changes nothing at all exactly
      when no decision is quarantined: every quarantined one gets another current review row. */
  lemma ApplyTwice(db: Db, items: seq<Item>, now: int, again: seq<Item>, later: int)
    requires Sound(db) && FreshRun(db, items)
    requires SameDecisions(items, again) && FreshRun(Applied(db, items, now), again)
    ensures var once := Applied(db, items, now);
      var twice := Applied(once, again, later);
      && twice.identifiers == once.identifiers && twice.refs == once.refs
      && twice.audits == Sidecar.Written(once.audits, Reviews(again), later)
      && (FreshReviews(once, again) ==>
            && (twice == once <==> NoneQuarantined(items))
            && forall i :: 0 <= i < |again| && items[i].decision.quarantined ==>
                 again[i].reviewId in twice.audits && again[i].reviewId !in once.audits
                 && Sidecar.Current(twice.audits[again[i].reviewId]))
    ensures CountValued(again) == CountValued(items) && CountCanonical(again) == CountCanonical(items)
         && |Reviews(again)| == |Reviews(items)|
  {
    var t := InsertAll(db.identifiers, items, now);
    InsertCoversKeys(db.identifiers, items, now);
    forall i | 0 <= i < |again| && again[i].decision.value.Some?
      ensures HasKey(t, IdentifierFor(again[i].decision, later))
    {
      assert again[i].decision == items[i].decision;
      var k :| k in t && SameCurrentKey(t[k], IdentifierFor(items[i].decision, now));
      assert SameCurrentKey(t[k], IdentifierFor(again[i].decision, later));
    }
    NothingToInsert(t, again, later);
    SetRefsWithoutRows(SetRefs(db.refs, t, items), t, again);
    SameCounts(items, again);
    if FreshReviews(Applied(db, items, now), again) {
      ReviewsLand(Applied(db, items, now), again, later);
      SameQuarantine(items, again);
      if NoneQuarantined(again) {
        NothingToReview(again);
        WritingNothing(Applied(db, items, now).audits, later);
      }
    }
  }

  lemma SameQuarantine(items: seq<Item>, again: seq<Item>)
    requires SameDecisions(items, again)
    ensures NoneQuarantined(items) <==> NoneQuarantined(again)
    ensures forall i :: 0 <= i < |again| ==> again[i].decision.quarantined == items[i].decision.quarantined
  {
    if NoneQuarantined(again) {
      forall i | 0 <= i < |items|
        ensures !items[i].decision.quarantined
      {
        assert again[i].decision == items[i].decision;
      }
    }
  }

  lemma {:induction false} SameCounts(items: seq<Item>, again: seq<Item>)
    requires SameDecisions(items, again)
    ensures CountValued(again) == CountValued(items) && CountCanonical(again) == CountCanonical(items)
    ensures |Reviews(again)| == |Reviews(items)|
  {
    if items != [] { SameCounts(items[..|items| - 1], again[..|again| - 1]); }
  }

  // ----- apply, then undo

  predicate StampedBy(row: Identifier, item: Item, now: int) {
    item.decision.value.Some? && row.matchId == item.decision.matchId && row.effectiveFrom == now
  }

  /** Row `id` belongs to a valued item's match and carries this run's timestamp: the undo will delete it. */
  ghost predicate Stamped(t: map<int, Identifier>, id: int, items: seq<Item>, now: int)
    requires id in t
  {
    exists i :: 0 <= i < |items| && StampedBy(t[id], items[i], now)
  }

  ghost predicate NoEarlierStamp(t: map<int, Identifier>, items: seq<Item>, now: int) {
    forall id :: id in t ==> !Stamped(t, id, items, now)
  }

  lemma {:induction false} UndoneIdentifiers(db: Db, items: seq<Item>, now: int)
    ensures var u := Undone(db, items, now).identifiers;
      forall id :: (id in u <==> id in db.identifiers && !Stamped(db.identifiers, id, items, now))
                   && (id in u ==> u[id] == db.identifiers[id])
  {
    if items != [] {
      var init, last := items[..|items| - 1], items[|items| - 1];
      UndoneIdentifiers(db, init, now);
      forall id | id in db.identifiers
        ensures Stamped(db.identifiers, id, items, now) <==>
          Stamped(db.identifiers, id, init, now) || StampedBy(db.identifiers[id], last, now)
      {
        StampedByLast(db.identifiers, id, items, now);
      }
    }
  }

  lemma StampedByLast(t: map<int, Identifier>, id: int, items: seq<Item>, now: int)
    requires items != [] && id in t
    ensures Stamped(t, id, items, now) <==>
      Stamped(t, id, items[..|items| - 1], now) || StampedBy(t[id], items[|items| - 1], now)
  {
    var init := items[..|items| - 1];
    assert forall i :: 0 <= i < |init| ==> init[i] == items[i];
    if i :| 0 <= i < |init| && StampedBy(t[id], init[i], now) { assert StampedBy(t[id], items[i], now); }
  }

  /** Undoing one match puts its reference back, disturbs no other reference, and leaves the references honest. */
  lemma UndoOneRestoresRef(db: Db, item: Item, now: int)
    requires HonestRefs(db.refs, db.identifiers) && item.decision.matchId in db.refs
    requires item.row.canonicalRef.Some? ==>
      && item.row.canonicalRef.value in db.identifiers
      && db.identifiers[item.row.canonicalRef.value].matchId == item.decision.matchId
      && db.identifiers[item.row.canonicalRef.value].effectiveFrom != now
    ensures UndoOne(db, item, now).refs == db.refs[item.decision.matchId := item.row.canonicalRef]
    ensures HonestRefs(UndoOne(db, item, now).refs, UndoOne(db, item, now).identifiers)
  {
    var m := item.decision.matchId;
    var u := UndoOne(db, item, now);
    var refs := db.refs[m := item.row.canonicalRef];
    forall k | k in refs ensures u.refs[k] == refs[k] && (refs[k].Some? ==> refs[k].value in u.identifiers) {
      if refs[k].Some? && k != m {
        assert db.identifiers[refs[k].value].matchId == k;
      }
    }
  }

  /** References after undoing the first `k` items of an applied run. */
  lemma {:induction false} UndoRestoresRefs(before: Db, items: seq<Item>, now: int, k: nat)
    requires Sound(before) && FreshRun(before, items) && ReadFrom(before, items)
    requires NoEarlierStamp(before.identifiers, items, now) && k <= |items|
    ensures var u := Undone(Applied(before, items, now), items[..k], now);
      && HonestRefs(u.refs, u.identifiers)
      && u.refs.Keys == before.refs.Keys == Applied(before, items, now).refs.Keys
      && (forall m :: m in u.refs ==>
            u.refs[m] == if ValuedMatch(items[..k], m) then before.refs[m] else Applied(before, items, now).refs[m])
  {
    var applied := Applied(before, items, now);
    ApplyKeepsSound(before, items, now);
    InsertKeepsRows(before.identifiers, items, now);
    if k == 0 {
      RefsLand(before, items, now);
    } else {
      var init, item := items[..k - 1], items[k - 1];
      assert items[..k][..k - 1] == init && items[..k][k - 1] == item;
      UndoRestoresRefs(before, items, now, k - 1);
      var u := Undone(applied, init, now);
      forall m { ValuedMatchStep(items, k, m); }
      if item.decision.value.Some? {
        UndoneIdentifiers(applied, init, now);
        if item.row.canonicalRef.Some? {
          OldRefSurvives(before, items, now, k - 1, item.row.canonicalRef.value);
        }
        UndoOneRestoresRef(u, item, now);
      }
    }
  }

  predicate Values(item: Item, m: int) {
    item.decision.matchId == m && item.decision.value.Some?
  }

  ghost predicate ValuedMatch(items: seq<Item>, m: int) {
    exists i :: 0 <= i < |items| && Values(items[i], m)
  }

  lemma ValuedMatchStep(items: seq<Item>, k: nat, m: int)
    requires 0 < k <= |items|
    ensures ValuedMatch(items[..k], m) <==> ValuedMatch(items[..k - 1], m) || Values(items[k - 1], m)
  {
    var s, t := items[..k], items[..k - 1];
    assert forall i :: 0 <= i < |t| ==> t[i] == s[i];
    if i :| 0 <= i < |t| && Values(t[i], m) { assert Values(s[i], m); }
    assert s[k - 1] == items[k - 1];
  }

  /** The reference a match had before the run names a row that neither the run nor its undo touches. */
  lemma OldRefSurvives(before: Db, items: seq<Item>, now: int, k: nat, ref: int)
    requires Sound(before) && FreshRun(before, items) && ReadFrom(before, items)
    requires NoEarlierStamp(before.identifiers, items, now) && k < |items|
    requires items[k].row.canonicalRef == Some(ref) && items[k].decision.value.Some?
    ensures var u := Undone(Applied(before, items, now), items[..k], now);
      ref in u.identifiers && u.identifiers[ref].matchId == items[k].decision.matchId
      && u.identifiers[ref].effectiveFrom != now
  {
    var applied := Applied(before, items, now);
    InsertKeepsRows(before.identifiers, items, now);
    UndoneIdentifiers(applied, items[..k], now);
    assert before.refs[items[k].decision.matchId] == Some(ref);
    assert !Stamped(before.identifiers, ref, items, now);
    assert applied.identifiers[ref] == before.identifiers[ref];
    forall i | 0 <= i < |items| ensures !StampedBy(before.identifiers[ref], items[i], now) {}
    assert !StampedBy(before.identifiers[ref], items[k], now);
    assert forall i :: 0 <= i < k ==> items[..k][i] == items[i];
  }

  lemma EverythingElseWasThere(before: Db, items: seq<Item>, now: int)
    requires FreshRun(before, items) && NoEarlierStamp(before.identifiers, items, now)
    ensures var t := InsertAll(before.identifiers, items, now);
      forall id :: id in t ==> (id in before.identifiers <==> !Stamped(t, id, items, now))
  {
    var t := InsertAll(before.identifiers, items, now);
    InsertKeepsRows(before.identifiers, items, now);
    forall id | id in t ensures id in before.identifiers <==> !Stamped(t, id, items, now) {
      if id in before.identifiers {
        assert !Stamped(before.identifiers, id, items, now);
        assert t[id] == before.identifiers[id];
      } else {
        var i :| WrittenFor(t, id, items, i, now);
        assert StampedBy(t[id], items[i], now);
      }
    }
  }

  /** Apply, then the generated undo: identifiers and canonical references are back exactly when the matches that were
      typed had no row with this run's timestamp before. Such a row would be deleted along with the new ones. */
  lemma UndoRestoresExactly(before: Db, items: seq<Item>, now: int)
    requires Sound(before) && FreshRun(before, items) && ReadFrom(before, items)
    ensures var after := Undone(Applied(before, items, now), items, now);
      (after.identifiers == before.identifiers && after.refs == before.refs)
      <==> NoEarlierStamp(before.identifiers, items, now)
  {
    var applied := Applied(before, items, now);
    var after := Undone(applied, items, now);
    InsertKeepsRows(before.identifiers, items, now);
    UndoneIdentifiers(applied, items, now);
    if NoEarlierStamp(before.identifiers, items, now) {
      EverythingElseWasThere(before, items, now);
      assert forall id :: id in after.identifiers <==> id in before.identifiers;
      forall id | id in before.identifiers ensures after.identifiers[id] == before.identifiers[id] {
        assert applied.identifiers[id] == before.identifiers[id];
      }
      assert after.identifiers == before.identifiers;
      assert items[..|items|] == items;
      UndoRestoresRefs(before, items, now, |items|);
      forall m | m in before.refs ensures after.refs[m] == before.refs[m] {
        if !ValuedMatch(items, m) { RefWithoutValueUnchanged(before, items, now, m); }
      }
    } else {
      var id :| id in before.identifiers && Stamped(before.identifiers, id, items, now);
      assert applied.identifiers[id] == before.identifiers[id];
      var i :| 0 <= i < |items| && StampedBy(before.identifiers[id], items[i], now);
      assert Stamped(applied.identifiers, id, items, now);
      assert id !in after.identifiers;
    }
  }

  lemma RefWithoutValueUnchanged(before: Db, items: seq<Item>, now: int, m: int)
    requires FreshRun(before, items) && m in before.refs && !ValuedMatch(items, m)
    ensures m in Applied(before, items, now).refs && Applied(before, items, now).refs[m] == before.refs[m]
  {
    var t := InsertAll(before.identifiers, items, now);
    SetRefsAt(before.refs, t, items, m);
    assert forall i :: 0 <= i < |items| && !Values(items[i], m) ==>
      items[i].decision.matchId != m || !SetsCanonical(items[i]);
  }
}
