/**
 `match_audit_classifications`: the append-only sidecar with one current row per
 match, and its two writers, `apply_classifications` of
 scripts/classify_match_set.py and the review rows of `apply_backfill` of
 scripts/migrate_stech_identifiers.py.
 */
module AuditSidecar {
  import opened Wrappers

  datatype Audit = Audit(matchId: int, state: string, version: string, evidence: string, effectiveAt: int,
                         supersededAt: Option<int>)

  /** The table, by primary key. */
  type Table = map<int, Audit>

  /** A row to be written: its fresh id and what it says. */
  datatype NewRow = NewRow(id: int, matchId: int, state: string, version: string, evidence: string)

  predicate Current(a: Audit) { a.supersededAt.None? }

  predicate Mentioned(rows: seq<NewRow>, m: int) {
    exists i :: 0 <= i < |rows| && rows[i].matchId == m
  }

  function MatchesOf(rows: seq<NewRow>): (s: set<int>)
    ensures forall m :: m in s <==> Mentioned(rows, m)
  {
    set i | 0 <= i < |rows| :: rows[i].matchId
  }

  /** `UPDATE ... SET superseded_at = :now WHERE superseded_at IS NULL AND match_id = ANY(:match_ids)` */
  function Supersede(t: Table, matches: set<int>, now: int): (r: Table)
    ensures r.Keys == t.Keys
  {
    map id | id in t :: if Current(t[id]) && t[id].matchId in matches then t[id].(supersededAt := Some(now)) else t[id]
  }

  function RowFor(r: NewRow, now: int): Audit {
    Audit(r.matchId, r.state, r.version, r.evidence, now, None)
  }

  function InsertRows(t: Table, rows: seq<NewRow>, now: int): Table {
    if rows == [] then t
    else InsertRows(t, rows[..|rows| - 1], now)[rows[|rows| - 1].id := RowFor(rows[|rows| - 1], now)]
  }

  /** What both writers amount to: supersede the current rows of the matches written, then add the new rows. */
  function Written(t: Table, rows: seq<NewRow>, now: int): Table {
    InsertRows(Supersede(t, MatchesOf(rows), now), rows, now)
  }

  function CurrentMatches(t: Table, matches: set<int>): set<int> {
    set id | id in t && Current(t[id]) && t[id].matchId in matches :: t[id].matchId
  }

  class Sidecar {
    var table: Table

    constructor (initial: Table)
      ensures table == initial
    {
      table := initial;
    }

    method Insert(rows: seq<NewRow>, now: int)
      modifies this
      ensures table == InsertRows(old(table), rows, now)
    {
      ghost var before := table;
      for i := 0 to |rows|
        invariant table == InsertRows(before, rows[..i], now)
      {
        assert rows[..i + 1][..i] == rows[..i];
        table := table[rows[i].id := RowFor(rows[i], now)];
      }
      assert rows[..|rows|] == rows;
    }

    /** `apply_classifications`: reads which matches have a current row and supersedes only those. */
    method ApplyClassifications(rows: seq<NewRow>, now: int) returns (inserted: nat, superseded: nat)
      modifies this
      ensures table == Written(old(table), rows, now)
      ensures inserted == |rows|
      ensures superseded == |set id | id in old(table) && Current(old(table)[id])
        && Mentioned(rows, old(table)[id].matchId)|
    {
      var matches := MatchesOf(rows);
      var toSupersede := CurrentMatches(table, matches);
      superseded := 0;
      if toSupersede != {} {
        var hit := set id | id in table && Current(table[id]) && table[id].matchId in toSupersede;
        superseded := |hit|;
        OnlyCurrentMatchesMatter(table, matches, now);
        assert hit == set id | id in table && Current(table[id]) && Mentioned(rows, table[id].matchId) by {
          forall id | id in table && Current(table[id])
            ensures table[id].matchId in toSupersede <==> Mentioned(rows, table[id].matchId)
          {
            assert table[id].matchId in matches <==> Mentioned(rows, table[id].matchId);
          }
        }
        table := Supersede(table, toSupersede, now);
      } else {
        OnlyCurrentMatchesMatter(table, matches, now);
        assert Supersede(table, {}, now) == table;
        assert (set id | id in table && Current(table[id]) && Mentioned(rows, table[id].matchId)) == {} by {
          forall id | id in table && Current(table[id]) ensures !Mentioned(rows, table[id].matchId) {
            assert table[id].matchId !in toSupersede;
          }
        }
      }
      Insert(rows, now);
      inserted := |rows|;
    }

    /** The review part of `apply_backfill`: supersedes the current rows of all the matches it writes. */
    method WriteReviews(rows: seq<NewRow>, now: int)
      modifies this
      ensures table == Written(old(table), rows, now)
    {
      if rows != [] {
        table := Supersede(table, MatchesOf(rows), now);
        Insert(rows, now);
      } else {
        assert Supersede(table, {}, now) == table;
        assert MatchesOf(rows) == {};
      }
    }
  }

  /** The classifier's narrower UPDATE changes exactly what the unrestricted one would. */
  lemma OnlyCurrentMatchesMatter(t: Table, matches: set<int>, now: int)
    ensures Supersede(t, CurrentMatches(t, matches), now) == Supersede(t, matches, now)
  {
    forall id | id in t && Current(t[id])
      ensures t[id].matchId in CurrentMatches(t, matches) <==> t[id].matchId in matches
    {}
  }

  // ----- histories

  /** The unique index: at most one current row per match. */
  ghost predicate OneCurrent(t: Table) {
    forall a, b :: a in t && b in t && Current(t[a]) && Current(t[b]) && t[a].matchId == t[b].matchId ==> a == b
  }

  /** One write: distinct matches, distinct ids that the table has not seen. */
  ghost predicate Acceptable(t: Table, rows: seq<NewRow>) {
    && (forall i, j :: 0 <= i < j < |rows| ==> rows[i].matchId != rows[j].matchId && rows[i].id != rows[j].id)
    && (forall i :: 0 <= i < |rows| ==> rows[i].id !in t)
  }

  /** `later` keeps every row of `earlier`; the only thing that may have happened to one is being superseded, once. */
  ghost predicate OnlySuperseded(earlier: Table, later: Table) {
    forall id :: id in earlier ==>
      && id in later
      && later[id].(supersededAt := earlier[id].supersededAt) == earlier[id]
      && (earlier[id].supersededAt.Some? ==> later[id] == earlier[id])
  }

  lemma {:induction false} InsertRowsAt(t: Table, rows: seq<NewRow>, now: int)
    requires Acceptable(t, rows)
    ensures forall id :: id in InsertRows(t, rows, now) <==> id in t || exists i :: 0 <= i < |rows| && rows[i].id == id
    ensures forall id :: id in t ==> InsertRows(t, rows, now)[id] == t[id]
    ensures forall i :: 0 <= i < |rows| ==>
      rows[i].id in InsertRows(t, rows, now) && InsertRows(t, rows, now)[rows[i].id] == RowFor(rows[i], now)
  {
    if rows != [] {
      var init, last := rows[..|rows| - 1], rows[|rows| - 1];
      InsertRowsAt(t, init, now);
      var r := InsertRows(t, rows, now);
      forall id ensures id in r <==> id in t || exists i :: 0 <= i < |rows| && rows[i].id == id {
        if i :| 0 <= i < |init| && init[i].id == id { assert rows[i].id == id; }
        if i :| 0 <= i < |rows| && rows[i].id == id { assert i < |init| ==> init[i].id == id; }
      }
      forall i | 0 <= i < |rows| ensures rows[i].id in r && r[rows[i].id] == RowFor(rows[i], now) {
        if i < |init| { assert init[i] == rows[i]; }
      }
    }
  }

  lemma SupersededLeavesOthers(t: Table, rows: seq<NewRow>, now: int)
    ensures var s := Supersede(t, MatchesOf(rows), now);
      && OnlySuperseded(t, s)
      && (forall id :: id in s && Current(s[id]) ==>
        Current(t[id]) && s[id] == t[id] && !Mentioned(rows, s[id].matchId))
      && (forall id :: id in t && !Mentioned(rows, t[id].matchId) ==> s[id] == t[id])
  {
    forall id | id in t ensures t[id].matchId in MatchesOf(rows) <==> Mentioned(rows, t[id].matchId) {}
  }

  lemma NewExactlyIfMentioned(s: Table, rows: seq<NewRow>, now: int, id: int)
    requires Acceptable(s, rows) && id in InsertRows(s, rows, now) && Current(InsertRows(s, rows, now)[id])
    requires forall id :: id in s && Current(s[id]) ==> !Mentioned(rows, s[id].matchId)
    ensures id !in s <==> Mentioned(rows, InsertRows(s, rows, now)[id].matchId)
    ensures id !in s ==>
      exists i :: 0 <= i < |rows| && rows[i].id == id && rows[i].matchId == InsertRows(s, rows, now)[id].matchId
  {
    InsertRowsAt(s, rows, now);
    if id !in s {
      var i :| 0 <= i < |rows| && rows[i].id == id;
      assert InsertRows(s, rows, now)[id] == RowFor(rows[i], now);
    }
  }

  lemma SameMatchSameRow(t: Table, rows: seq<NewRow>, i: nat, j: nat)
    requires Acceptable(t, rows) && i < |rows| && j < |rows| && rows[i].matchId == rows[j].matchId
    ensures i == j
  {}

  lemma StaysUnique(s: Table, rows: seq<NewRow>, now: int)
    requires OneCurrent(s) && Acceptable(s, rows)
    requires forall id :: id in s && Current(s[id]) ==> !Mentioned(rows, s[id].matchId)
    ensures OneCurrent(InsertRows(s, rows, now))
  {
    InsertRowsAt(s, rows, now);
    var w := InsertRows(s, rows, now);
    forall a, b | a in w && b in w && Current(w[a]) && Current(w[b]) && w[a].matchId == w[b].matchId ensures a == b {
      NewExactlyIfMentioned(s, rows, now, a);
      NewExactlyIfMentioned(s, rows, now, b);
      if a !in s {
        var i :| 0 <= i < |rows| && rows[i].id == a && rows[i].matchId == w[a].matchId;
        var j :| 0 <= j < |rows| && rows[j].id == b && rows[j].matchId == w[b].matchId;
        SameMatchSameRow(s, rows, i, j);
      }
    }
  }

  /** One write leaves exactly one current row for each match written, namely the new one, leaves the current rows of
      all other matches as they were, and never touches what an existing row says. */
  lemma WriteKeepsHistory(t: Table, rows: seq<NewRow>, now: int)
    requires OneCurrent(t) && Acceptable(t, rows)
    ensures OneCurrent(Written(t, rows, now)) && OnlySuperseded(t, Written(t, rows, now))
    ensures forall i :: 0 <= i < |rows| ==>
      rows[i].id in Written(t, rows, now) && Written(t, rows, now)[rows[i].id] == RowFor(rows[i], now)
    ensures forall id :: id in t && !Mentioned(rows, t[id].matchId) ==> Written(t, rows, now)[id] == t[id]
  {
    SupersededLeavesOthers(t, rows, now);
    var s := Supersede(t, MatchesOf(rows), now);
    InsertRowsAt(s, rows, now);
    StaysUnique(s, rows, now);
  }

  /** What one write leaves, field by field: a row that was current for a match written is superseded at `now`, every
      other old row is as it was, each new row says what was asked, from `now` on, and there is nothing else. */
  lemma WriteExactly(t: Table, rows: seq<NewRow>, now: int)
    requires Acceptable(t, rows)
    ensures var w := Written(t, rows, now);
      && (forall id :: id in w <==> id in t || exists i :: 0 <= i < |rows| && rows[i].id == id)
      && (forall id :: id in t ==>
            w[id] == if t[id].supersededAt == None && (exists i :: 0 <= i < |rows| && rows[i].matchId == t[id].matchId)
                     then t[id].(supersededAt := Some(now)) else t[id])
      && (forall i :: 0 <= i < |rows| ==>
            w[rows[i].id] == Audit(rows[i].matchId, rows[i].state, rows[i].version, rows[i].evidence, now, None))
  {
    InsertRowsAt(Supersede(t, MatchesOf(rows), now), rows, now);
    SupersedeExactly(t, rows, now);
    forall i | 0 <= i < |rows|
      ensures RowFor(rows[i], now) ==
        Audit(rows[i].matchId, rows[i].state, rows[i].version, rows[i].evidence, now, None)
    {}
  }

  lemma SupersedeExactly(t: Table, rows: seq<NewRow>, now: int)
    ensures var s := Supersede(t, MatchesOf(rows), now);
      forall id :: id in t ==>
        s[id] == if t[id].supersededAt == None && (exists i :: 0 <= i < |rows| && rows[i].matchId == t[id].matchId)
                 then t[id].(supersededAt := Some(now)) else t[id]
  {
    forall id | id in t
      ensures t[id].matchId in MatchesOf(rows) <==> exists i :: 0 <= i < |rows| && rows[i].matchId == t[id].matchId
    {
      assert t[id].matchId in MatchesOf(rows) <==> Mentioned(rows, t[id].matchId);
    }
  }

  /** A completed apply of either script: both write the table alike. */
  datatype Apply = Apply(rows: seq<NewRow>, now: int)

  function After(t: Table, applies: seq<Apply>): Table
    decreases |applies|
  {
    if applies == [] then t
    else After(Written(t, applies[0].rows, applies[0].now), applies[1..])
  }

  ghost predicate AllAcceptable(t: Table, applies: seq<Apply>)
    decreases |applies|
  {
    applies == []
    || (Acceptable(t, applies[0].rows) && AllAcceptable(Written(t, applies[0].rows, applies[0].now), applies[1..]))
  }

  ghost predicate HasCurrent(t: Table, m: int) {
    exists id :: id in t && Current(t[id]) && t[id].matchId == m
  }

  lemma CurrentSurvives(t: Table, rows: seq<NewRow>, now: int, m: int)
    requires OneCurrent(t) && Acceptable(t, rows)
    requires HasCurrent(t, m) || Mentioned(rows, m)
    ensures HasCurrent(Written(t, rows, now), m)
  {
    WriteKeepsHistory(t, rows, now);
    var w := Written(t, rows, now);
    if Mentioned(rows, m) {
      var i :| 0 <= i < |rows| && rows[i].matchId == m;
      assert rows[i].id in w && Current(w[rows[i].id]);
    } else {
      var id :| id in t && Current(t[id]) && t[id].matchId == m;
      assert id in w && Current(w[id]);
    }
  }

  /** Over any interleaving of applies by the two writers: every match keeps at most one current row, has exactly one
      once anything was written for it, and no row ever changes otherwise than by being superseded once. */
  lemma {:induction false} InterleavingsKeepHistory(t: Table, applies: seq<Apply>)
    requires OneCurrent(t) && AllAcceptable(t, applies)
    ensures OneCurrent(After(t, applies)) && OnlySuperseded(t, After(t, applies))
    ensures forall m :: HasCurrent(t, m) || (exists k :: 0 <= k < |applies| && Mentioned(applies[k].rows, m))
              ==> HasCurrent(After(t, applies), m)
    decreases |applies|
  {
    if applies != [] {
      var rows, now := applies[0].rows, applies[0].now;
      WriteKeepsHistory(t, rows, now);
      InterleavingsKeepHistory(Written(t, rows, now), applies[1..]);
      forall m | HasCurrent(t, m) || (exists k :: 0 <= k < |applies| && Mentioned(applies[k].rows, m))
        ensures HasCurrent(After(t, applies), m)
      {
        if HasCurrent(t, m) || Mentioned(rows, m) {
          CurrentSurvives(t, rows, now, m);
        } else {
          var k :| 0 <= k < |applies| && Mentioned(applies[k].rows, m);
          assert Mentioned(applies[1..][k - 1].rows, m);
        }
      }
    }
  }
}
