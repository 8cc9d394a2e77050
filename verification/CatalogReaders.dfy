/**
 A lookup that notes the active generation in one statement and reads rows in later
 ones, libs/shared/app_shared/catalog_index/lookup.py, while loads commit in between.
 */
module CatalogReaders {
  import opened Wrappers
  import opened CatalogLoad

  /** The rows one statement finds under a generation. */
  function Found(db: Db, g: int): (seq<ProductRow>, seq<CodeRow>) {
    (Keep(db.products, Only(g)), Keep(db.codes, Only(g)))
  }

  /** The generation was activated once: it is active or retired. */
  ghost predicate Settled(loads: seq<LoadRow>, g: int) {
    exists k :: 0 <= k < |loads| && SettledAt(loads[k], g)
  }

  predicate SettledAt(l: LoadRow, g: int) {
    l.generation == g && (l.status == Active || l.status == Retired)
  }

  ghost predicate IsActive(loads: seq<LoadRow>, g: int) {
    exists k :: 0 <= k < |loads| && loads[k].generation == g && loads[k].status == Active
  }

  /** The commit from `before` to `after` drops every generation but an active one, which is not `g`. */
  ghost predicate Drops(before: Db, after: Db, g: int) {
    exists d :: d != g && IsActive(before.loads, d) && after == DropOthers(before, d)
  }

  /** A commit leaves the rows of a settled generation as they were, or it is a drop and leaves none. */
  ghost predicate Spares(before: Db, after: Db, g: int) {
    Settled(before.loads, g) ==>
      && Settled(after.loads, g)
      && (Found(after, g) == Found(before, g) || Drops(before, after, g))
      && (Drops(before, after, g) ==> Found(after, g) == ([], []))
  }

  // ----- each kind of commit

  lemma {:induction false} OthersGone<T>(rows: seq<Row<T>>, d: int, g: int)
    requires d != g
    ensures Keep(Keep(rows, Only(d)), Only(g)) == []
  {
    KeepAllOrNone(rows, Only(d));
    KeepAllOrNone(Keep(rows, Only(d)), Only(g));
  }

  lemma DroppedIsGone(before: Db, after: Db, g: int)
    requires Drops(before, after, g)
    ensures Found(after, g) == ([], []) && after.loads == before.loads
  {
    var d :| d != g && IsActive(before.loads, d) && after == DropOthers(before, d);
    OthersGone(before.products, d, g);
    OthersGone(before.codes, d, g);
  }

  lemma SameRowsSpare(before: Db, after: Db, g: int)
    requires Settled(before.loads, g) ==> Settled(after.loads, g) && Found(after, g) == Found(before, g)
    ensures Spares(before, after, g)
  {
    if Drops(before, after, g) { DroppedIsGone(before, after, g); }
  }

  lemma BeginSpares(db: Db, g: int)
    requires Increasing(db.loads)
    ensures Spares(db, Begin(db), g) && (Settled(Begin(db).loads, g) ==> g != NextGeneration(db))
  {
    FailStaleAt(db.loads);
    MaxIsAbove(db.loads);
    var next := Begin(db);
    if k :| 0 <= k < |db.loads| && SettledAt(db.loads[k], g) {
      assert SettledAt(next.loads[k], g);
      assert NotStale(db.loads)(g);
      KeepThenOnly(db.products, NotStale(db.loads), g);
      KeepThenOnly(db.codes, NotStale(db.loads), g);
    }
    if k :| 0 <= k < |next.loads| && SettledAt(next.loads[k], g) {
      assert k < |db.loads|;
    }
    SameRowsSpare(db, next, g);
  }

  lemma CopySpares(db: Db, rows: seq<SourceRow>, job: Job, loading: int, g: int)
    requires g != loading
    ensures Found(Copy(db, rows, job, loading), g) == Found(db, g)
  {
    var products, codes := AllProducts(rows, job, loading), AllCodes(rows, job, loading);
    SourceRowsAreOfGeneration(rows, job, loading);
    KeepAppend(db.products, products, Only(g));
    KeepAppend(db.codes, codes, Only(g));
    KeepAllOrNone(products, Only(g));
    KeepAllOrNone(codes, Only(g));
    assert Keep(products, Only(g)) == [] && Keep(db.products, Only(g)) + [] == Keep(db.products, Only(g));
    assert Keep(codes, Only(g)) == [] && Keep(db.codes, Only(g)) + [] == Keep(db.codes, Only(g));
  }

  lemma FlipSpares(db: Db, d: int, p: int, c: int, g: int)
    ensures Spares(db, Flip(db, d, p, c), g)
  {
    RetireActiveAt(db.loads);
    ActivateAt(RetireActive(db.loads), d, p, c);
    var next := Flip(db, d, p, c);
    if k :| 0 <= k < |db.loads| && SettledAt(db.loads[k], g) {
      assert SettledAt(next.loads[k], g);
    }
    SameRowsSpare(db, next, g);
  }

  lemma DropSpares(db: Db, d: int, g: int)
    requires IsActive(db.loads, d)
    ensures Spares(db, DropOthers(db, d), g)
  {
    var next := DropOthers(db, d);
    if d == g {
      KeepThenOnly(db.products, Only(g), g);
      KeepThenOnly(db.codes, Only(g), g);
      SameRowsSpare(db, next, g);
    } else {
      assert Drops(db, next, g);
      DroppedIsGone(db, next, g);
    }
  }

  lemma {:induction false} BatchesSpare(db: Db, rows: seq<SourceRow>, job: Job, loading: int, batch: nat, i: nat,
                                        g: int)
    requires batch >= 1 && g != loading && i < |Batches(db, rows, job, loading, batch)|
    ensures var b := Batches(db, rows, job, loading, batch);
      b[i].loads == db.loads && Found(b[i], g) == Found(db, g)
    decreases |rows|
  {
    var n := if |rows| < batch then |rows| else batch;
    CopySpares(db, rows[..n], job, loading, g);
    if i > 0 { BatchesSpare(Copy(db, rows[..n], job, loading), rows[n..], job, loading, batch, i - 1, g); }
  }

  // ----- one run

  /** The state before commit `i` of a run. */
  function Previous(db: Db, states: seq<Db>, i: nat): Db
    requires i <= |states|
  {
    if i == 0 then db else states[i - 1]
  }

  lemma {:induction false} BatchLoads(db: Db, rows: seq<SourceRow>, job: Job, loading: int, batch: nat, i: nat)
    requires batch >= 1 && i < |Batches(db, rows, job, loading, batch)|
    ensures Batches(db, rows, job, loading, batch)[i].loads == db.loads
    decreases |rows|
  {
    var n := if |rows| < batch then |rows| else batch;
    if i > 0 { BatchLoads(Copy(db, rows[..n], job, loading), rows[n..], job, loading, batch, i - 1); }
  }

  /** Every state of a run between its begin and its flip looks, to a settled generation, like the begin. */
  lemma UntilTheFlip(db: Db, job: Job, batch: nat, i: nat, g: int)
    requires batch >= 1 && !Refuses(db, job) && Increasing(db.loads) && 1 <= i < FlipAt(db, job, batch)
    ensures var s := Trace(db, job, batch)[i];
      s.loads == Begin(db).loads && (Settled(s.loads, g) ==> Found(s, g) == Found(Begin(db), g))
  {
    TraceShape(db, job, batch);
    if i >= 2 {
      assert Trace(db, job, batch)[i] == Batches(Begin(db), job.source, job, NextGeneration(db), batch)[i - 2];
      BatchLooksLikeBegin(db, job, batch, i - 2, g);
    }
  }

  lemma BatchLooksLikeBegin(db: Db, job: Job, batch: nat, i: nat, g: int)
    requires batch >= 1 && Increasing(db.loads) && i < |Batches(Begin(db), job.source, job, NextGeneration(db), batch)|
    ensures var s := Batches(Begin(db), job.source, job, NextGeneration(db), batch)[i];
      s.loads == Begin(db).loads && (Settled(s.loads, g) ==> Found(s, g) == Found(Begin(db), g))
  {
    BeginSpares(db, g);
    BatchLoads(Begin(db), job.source, job, NextGeneration(db), batch, i);
    if g != NextGeneration(db) { BatchesSpare(Begin(db), job.source, job, NextGeneration(db), batch, i, g); }
  }

  lemma FlipCommit(db: Db, job: Job, batch: nat, g: int)
    requires batch >= 1 && !Refuses(db, job) && Increasing(db.loads)
    ensures var t := Trace(db, job, batch); var k := FlipAt(db, job, batch);
      1 < k == |t| - 2 && Spares(t[k - 1], t[k], g)
  {
    var loading := NextGeneration(db);
    var full := Copy(Begin(db), job.source, job, loading);
    TraceShape(db, job, batch);
    BatchesEndComplete(Begin(db), job.source, job, loading, batch);
    var b := Batches(Begin(db), job.source, job, loading, batch);
    assert b == [] ==> job.source == [];
    assert Trace(db, job, batch)[FlipAt(db, job, batch) - 1] == Last(Begin(db), b) == full;
    FlipSpares(full, loading, |AllProducts(job.source, job, loading)|, |AllCodes(job.source, job, loading)|, g);
  }

  /** Every commit of a run spares every settled generation. */
  lemma TraceSpares(db: Db, sources: map<int, Job>, job: Job, batch: nat, i: nat, g: int)
    requires Honest(db, sources) && batch >= 1 && i < |Trace(db, job, batch)|
    ensures Spares(Previous(db, Trace(db, job, batch), i), Trace(db, job, batch)[i], g)
  {
    var t, flip := Trace(db, job, batch), FlipAt(db, job, batch);
    TraceShape(db, job, batch);
    if i == 0 {
      SameRowsSpare(db, db, g);
    } else if i == 1 {
      BeginSpares(db, g);
    } else if i < flip {
      UntilTheFlip(db, job, batch, i - 1, g);
      UntilTheFlip(db, job, batch, i, g);
      SameRowsSpare(t[i - 1], t[i], g);
    } else if i == flip {
      FlipCommit(db, job, batch, g);
    } else {
      FlippedLoads(db, job);
      FlippedIsActive(db, sources, job);
      DropSpares(Flipped(db, job), NextGeneration(db), g);
    }
  }

  lemma FlippedIsActive(db: Db, sources: map<int, Job>, job: Job)
    requires Honest(db, sources)
    ensures IsActive(Flipped(db, job).loads, NextGeneration(db))
  {
    BeginLoads(db);
    FlipLoads(Begin(db).loads, NextGeneration(db), |AllProducts(job.source, job, NextGeneration(db))|,
              |AllCodes(job.source, job, NextGeneration(db))|, |db.loads|);
  }

  // ----- any sequence of runs

  ghost predicate SparesAll(before: Db, after: Db) {
    forall g :: Spares(before, after, g)
  }

  /** Every commit of the sequence, the first one being made on `db`, spares every settled generation. */
  ghost predicate AllSpare(db: Db, h: seq<Db>)
    decreases |h|
  {
    h == [] || (SparesAll(db, h[0]) && AllSpare(h[0], h[1..]))
  }

  lemma {:induction false} EachSpares(db: Db, h: seq<Db>, n: nat)
    requires n <= |h| && forall i :: n <= i < |h| ==> SparesAll(Previous(db, h, i), h[i])
    ensures AllSpare(Previous(db, h, n), h[n..])
    decreases |h| - n
  {
    if n < |h| {
      EachSpares(db, h, n + 1);
      assert h[n..][0] == h[n] && h[n..][1..] == h[n + 1..];
    }
  }

  lemma {:induction false} PrefixSpares(db: Db, h: seq<Db>, n: nat)
    requires AllSpare(db, h) && n <= |h|
    ensures AllSpare(db, h[..n])
    decreases |h|
  {
    if n > 0 {
      PrefixSpares(h[0], h[1..], n - 1);
      assert h[..n][1..] == h[1..][..n - 1];
    }
  }

  lemma {:induction false} AppendSpares(db: Db, c: seq<Db>, rest: seq<Db>)
    requires AllSpare(db, c) && AllSpare(Last(db, c), rest)
    ensures AllSpare(db, c + rest)
    decreases |c|
  {
    if c == [] {
      assert c + rest == rest;
    } else {
      assert (c + rest)[1..] == c[1..] + rest;
      AppendSpares(c[0], c[1..], rest);
    }
  }

  lemma {:induction false} SparesInside(db: Db, h: seq<Db>, k: nat)
    requires AllSpare(db, h) && 0 < k < |h|
    ensures SparesAll(h[k - 1], h[k])
    decreases |h|
  {
    if k > 1 { SparesInside(h[0], h[1..], k - 1); }
  }

  lemma CommittedSpares(db: Db, sources: map<int, Job>, run: Run)
    requires Honest(db, sources) && run.batch >= 1
    ensures AllSpare(db, Committed(db, run))
  {
    var t := Trace(db, run.job, run.batch);
    forall i | 0 <= i < |t| ensures SparesAll(Previous(db, t, i), t[i]) {
      forall g ensures Spares(Previous(db, t, i), t[i], g) { TraceSpares(db, sources, run.job, run.batch, i, g); }
    }
    EachSpares(db, t, 0);
    assert t[0..] == t;
    PrefixSpares(db, t, |Committed(db, run)|);
  }

  /** Every commit of any sequence of runs spares every settled generation. */
  lemma {:induction false} HistorySpares(db: Db, sources: map<int, Job>, runs: seq<Run>)
    requires Honest(db, sources) && BatchesPositive(runs)
    ensures AllSpare(db, History(db, runs))
    decreases |runs|
  {
    if runs != [] {
      var c := Committed(db, runs[0]);
      CommittedSpares(db, sources, runs[0]);
      AfterRun(db, sources, runs[0]);
      HistorySpares(Last(db, c), sources[NextGeneration(db) := runs[0].job], runs[1..]);
      AppendSpares(db, c, History(Last(db, c), runs[1..]));
    }
  }

  ghost predicate DropsAt(h: seq<Db>, k: nat, g: int) {
    0 < k < |h| && Drops(h[k - 1], h[k], g)
  }

  /** Some commit after state `i`, up to state `j`, drops the generation. */
  ghost predicate DroppedBetween(h: seq<Db>, i: nat, j: nat, g: int) {
    exists k :: i < k <= j && DropsAt(h, k, g)
  }

  ghost predicate SparesAt(h: seq<Db>, k: nat, g: int) {
    0 < k < |h| ==> Spares(h[k - 1], h[k], g)
  }

  lemma {:induction false} PinnedRows(h: seq<Db>, i: nat, j: nat, g: int)
    requires i <= j < |h| && Settled(h[i].loads, g) && forall k :: SparesAt(h, k, g)
    ensures Settled(h[j].loads, g) && Found(h[j], g) == if DroppedBetween(h, i, j, g) then ([], []) else Found(h[i], g)
    decreases j - i
  {
    if i < j {
      PinnedRows(h, i, j - 1, g);
      assert SparesAt(h, j, g);
      DroppedByLast(h, i, j, g);
    }
  }

  lemma DroppedByLast(h: seq<Db>, i: nat, j: nat, g: int)
    requires i < j < |h|
    ensures DroppedBetween(h, i, j, g) <==> DroppedBetween(h, i, j - 1, g) || Drops(h[j - 1], h[j], g)
  {
    if Drops(h[j - 1], h[j], g) { assert DropsAt(h, j, g); }
    if k :| i < k <= j && DropsAt(h, k, g) {
      assert k == j || i < k <= j - 1;
    }
  }

  /** A lookup that notes its generation at one commit and reads rows at that or any later one, over any sequence of
      loads that may each crash: every statement finds exactly the records of one run's complete source, until a drop
      of that generation commits, and nothing at all from then on; never a part of them, never rows of another
      source. */
  lemma PinnedReaderFinds(runs: seq<Run>, i: nat, j: nat)
    requires BatchesPositive(runs) && i <= j < |History(Db([], [], []), runs)|
    requires ViewOf(History(Db([], [], []), runs)[i]).Some?
    ensures var h := History(Db([], [], []), runs);
      var g := ViewOf(h[i]).value.generation;
      exists k :: 0 <= k < |runs| && Found(h[j], g) ==
        if DroppedBetween(h, i, j, g) then ([], [])
        else (AllProducts(runs[k].job.source, runs[k].job, g), AllCodes(runs[k].job.source, runs[k].job, g))
  {
    var h := History(Db([], [], []), runs);
    var view := ViewOf(h[i]).value;
    ReadersSeeOnlyCompleteSources(runs, i);
    var k :| 0 <= k < |runs| && Some(view) == Some(ViewOfJob(runs[k].job, view.generation));
    ActiveLoadIs(h[i].loads);
    var a :| 0 <= a < |h[i].loads| && h[i].loads[a].status == Active;
    assert SettledAt(h[i].loads[a], view.generation);
    HistorySpares(Db([], [], []), map[], runs);
    forall k: nat ensures SparesAt(h, k, view.generation) {
      if 0 < k < |h| { SparesInside(Db([], [], []), h, k); }
    }
    PinnedRows(h, i, j, view.generation);
    assert Found(h[i], view.generation) == (view.products, view.codes);
  }
}
