/**
 scripts/load_catalog_index.py: a catalogue load as a sequence of committed
 transactions. A table is the sequence of its rows; a crash leaves the database
 in the state of the last commit.
 */
module CatalogLoad {
  import opened Wrappers
  import opened Rounding

  datatype Status = Loading | Active | Retired | Failed

  /** A row of `catalog_index_loads`. */
  datatype LoadRow = LoadRow(generation: int, status: Status, products: Option<int>, codes: Option<int>)

  /** A row of one of the two big tables: the generation it was loaded under and the rest of its columns. */
  datatype Row<T> = Row(generation: int, item: T)

  /** The columns of `catalog_index_products` beside the generation. */
  datatype Product = Product(
    rowid: int, domain: string, host: string, url: string, title: Option<string>,
    brand: Option<string>, sku: Option<string>, mpn: Option<string>, gtin: Option<string>, price: real,
    currency: Option<string>, available: Option<bool>, verdict: string, crawledAt: int)

  datatype Kind = Barcode | Model

  /** The columns of `catalog_index_codes` beside the generation. */
  datatype Code = Code(kind: Kind, codeKey: string, rowid: int)

  type ProductRow = Row<Product>
  type CodeRow = Row<Code>

  datatype Db = Db(loads: seq<LoadRow>, products: seq<ProductRow>, codes: seq<CodeRow>)

  // ----- the source

  datatype RawPrice = Null | Unparsable | Amount(amount: real)

  datatype SourceRow = SourceRow(
    rowid: int, domain: string, title: Option<string>, sku: Option<string>, mpn: Option<string>,
    gtin: Option<string>, brand: Option<string>, price: RawPrice, currency: Option<string>,
    url: Option<string>, available: Option<bool>)

  /** Library code the loader calls: text cleaning, domain normalisation and lookup-key derivation. */
  datatype Tools = Tools(
    clean: string -> string,
    upper: string -> string,
    normalise: string -> string,
    hostOf: string -> string,
    isHttp: string -> bool,
    barcodeKeys: (Option<string>, Option<string>, Option<string>) -> seq<string>,
    modelKeys: (Option<string>, Option<string>, Option<string>) -> seq<string>)

  datatype Job = Job(
    source: seq<SourceRow>,
    tools: Tools,
    verdicts: map<string, string>,
    crawledAt: int,
    minProducts: int,
    allowSmall: bool,
    enoughSpace: bool)

  const MAX_PRICE := 999999999999.99

  function Text(tools: Tools, value: Option<string>): Option<string> {
    match value
    case None => None
    case Some(s) => if tools.clean(s) == "" then None else Some(tools.clean(s))
  }

  /** `quantize(Decimal("0.01"))`, which rounds half to even. */
  function ToCents(x: real): real {
    RoundHalfEven(x * 100.0) as real / 100.0
  }

  function Price(p: RawPrice): Option<real> {
    match p
    case Amount(x) => if 0.0 < ToCents(x) <= MAX_PRICE then Some(ToCents(x)) else None
    case _ => None
  }

  function Keyed(keys: seq<string>, generation: int, kind: Kind, rowid: int): seq<CodeRow> {
    if keys == [] then [] else [Row(generation, Code(kind, keys[0], rowid))] + Keyed(keys[1..], generation, kind, rowid)
  }

  function Listed(row: SourceRow, job: Job): bool {
    var url := Text(job.tools, row.url);
    Price(row.price).Some? && url.Some? && job.tools.isHttp(url.value) && job.tools.normalise(row.domain) != ""
  }

  /** `records`, for a row that has a usable price, URL and domain. */
  function ProductOf(row: SourceRow, job: Job, generation: int): ProductRow
    requires Listed(row, job)
  {
    var t := job.tools;
    var domain := t.normalise(row.domain);
    var currency := t.upper(match Text(t, row.currency) case None => "" case Some(s) => s);
    Row(generation, Product(
      row.rowid, domain, t.hostOf(domain), Text(t, row.url).value, Text(t, row.title),
      Text(t, row.brand), Text(t, row.sku), Text(t, row.mpn), Text(t, row.gtin), Price(row.price).value,
      if 0 < |currency| <= 8 then Some(currency) else None,
      row.available,
      if domain in job.verdicts then job.verdicts[domain] else "unknown",
      job.crawledAt))
  }

  function CodesOf(row: SourceRow, job: Job, generation: int): seq<CodeRow> {
    Keyed(job.tools.barcodeKeys(row.gtin, row.sku, row.mpn), generation, Barcode, row.rowid)
    + Keyed(job.tools.modelKeys(row.sku, row.mpn, row.title), generation, Model, row.rowid)
  }

  function AllProducts(rows: seq<SourceRow>, job: Job, generation: int): seq<ProductRow> {
    if rows == [] then []
    else (if Listed(rows[0], job) then [ProductOf(rows[0], job, generation)] else [])
         + AllProducts(rows[1..], job, generation)
  }

  function AllCodes(rows: seq<SourceRow>, job: Job, generation: int): seq<CodeRow> {
    if rows == [] then []
    else (if Listed(rows[0], job) then CodesOf(rows[0], job, generation) else [])
         + AllCodes(rows[1..], job, generation)
  }

  function Skipped(rows: seq<SourceRow>, job: Job): nat {
    if rows == [] then 0 else (if Listed(rows[0], job) then 0 else 1) + Skipped(rows[1..], job)
  }

  function Priced(rows: seq<SourceRow>): nat {
    if rows == [] then 0 else (if rows[0].price.Null? then 0 else 1) + Priced(rows[1..])
  }

  // ----- SQL statements

  /** The rows a `DELETE` leaves whose condition is the negation of `keep`. */
  function Keep<T>(rows: seq<Row<T>>, keep: int -> bool): seq<Row<T>> {
    if rows == [] then []
    else (if keep(rows[0].generation) then [rows[0]] else []) + Keep(rows[1..], keep)
  }

  function Only(g: int): int -> bool {
    x => x == g
  }

  predicate StaleIn(loads: seq<LoadRow>, g: int) {
    exists i :: 0 <= i < |loads| && loads[i].generation == g
      && (loads[i].status == Loading || loads[i].status == Failed)
  }

  function NotStale(loads: seq<LoadRow>): int -> bool {
    x => !StaleIn(loads, x)
  }

  function FailStale(loads: seq<LoadRow>): seq<LoadRow> {
    if loads == [] then []
    else [if loads[0].status == Loading then loads[0].(status := Failed) else loads[0]] + FailStale(loads[1..])
  }

  function RetireActive(loads: seq<LoadRow>): seq<LoadRow> {
    if loads == [] then []
    else [if loads[0].status == Active then loads[0].(status := Retired) else loads[0]] + RetireActive(loads[1..])
  }

  function Activate(loads: seq<LoadRow>, g: int, products: int, codes: int): seq<LoadRow> {
    if loads == [] then []
    else [if loads[0].generation == g then LoadRow(g, Active, Some(products), Some(codes)) else loads[0]]
         + Activate(loads[1..], g, products, codes)
  }

  /** `coalesce(max(generation), 0)` */
  function MaxGeneration(loads: seq<LoadRow>): int {
    if loads == [] then 0
    else if |loads| == 1 then loads[0].generation
    else if loads[0].generation > MaxGeneration(loads[1..]) then loads[0].generation
    else MaxGeneration(loads[1..])
  }

  /** The active load of the highest generation, as readers and the loader look it up. */
  function ActiveLoad(loads: seq<LoadRow>): Option<LoadRow> {
    if loads == [] then None
    else
      match ActiveLoad(loads[1..])
      case None => if loads[0].status == Active then Some(loads[0]) else None
      case Some(l) =>
        if loads[0].status == Active && loads[0].generation > l.generation then Some(loads[0]) else Some(l)
  }

  // ----- the transactions of one load

  predicate Refuses(db: Db, job: Job) {
    var active := ActiveLoad(db.loads);
    || (!job.allowSmall
        && (Priced(job.source) < job.minProducts
            || (active.Some? && active.value.products.Some? && active.value.products.value != 0
                && Priced(job.source) * 2 < active.value.products.value)))
    || !job.enoughSpace
  }

  function NextGeneration(db: Db): int {
    MaxGeneration(db.loads) + 1
  }

  function Begin(db: Db): Db {
    Db(FailStale(db.loads) + [LoadRow(NextGeneration(db), Loading, None, None)],
       Keep(db.products, NotStale(db.loads)),
       Keep(db.codes, NotStale(db.loads)))
  }

  function Copy(db: Db, rows: seq<SourceRow>, job: Job, g: int): Db {
    db.(products := db.products + AllProducts(rows, job, g), codes := db.codes + AllCodes(rows, job, g))
  }

  function Batches(db: Db, rows: seq<SourceRow>, job: Job, g: int, batch: nat): seq<Db>
    requires batch >= 1
    decreases |rows|
  {
    if rows == [] then []
    else
      var n := if |rows| < batch then |rows| else batch;
      var next := Copy(db, rows[..n], job, g);
      [next] + Batches(next, rows[n..], job, g, batch)
  }

  function Flip(db: Db, g: int, products: int, codes: int): Db {
    db.(loads := Activate(RetireActive(db.loads), g, products, codes))
  }

  function DropOthers(db: Db, g: int): Db {
    db.(products := Keep(db.products, Only(g)), codes := Keep(db.codes, Only(g)))
  }

  function Flipped(db: Db, job: Job): Db {
    var g := NextGeneration(db);
    Flip(Copy(Begin(db), job.source, job, g), g, |AllProducts(job.source, job, g)|, |AllCodes(job.source, job, g)|)
  }

  /** The committed states of one load, in order. A refused load commits nothing. */
  function Trace(db: Db, job: Job, batch: nat): seq<Db>
    requires batch >= 1
  {
    if Refuses(db, job) then []
    else
      [db, Begin(db)] + Batches(Begin(db), job.source, job, NextGeneration(db), batch)
      + [Flipped(db, job), DropOthers(Flipped(db, job), NextGeneration(db))]
  }

  function Last(db: Db, t: seq<Db>): Db {
    if t == [] then db else t[|t| - 1]
  }

  datatype Outcome =
    | Refused
    | Loaded(generation: int, products: int, codes: int, skipped: int, previous: Option<int>,
             rowsBefore: (int, int), rowsAfter: (int, int))

  function OutcomeOf(db: Db, job: Job): Outcome {
    if Refuses(db, job) then Refused
    else
      var g := NextGeneration(db);
      var end := DropOthers(Flipped(db, job), g);
      Loaded(g, |AllProducts(job.source, job, g)|, |AllCodes(job.source, job, g)|, Skipped(job.source, job),
        match ActiveLoad(db.loads) case None => None case Some(l) => Some(l.generation),
        (|db.products|, |db.codes|), (|end.products|, |end.codes|))
  }

  // ----- the loader

  lemma {:induction false} AllProductsAppend(a: seq<SourceRow>, b: seq<SourceRow>, job: Job, g: int)
    ensures AllProducts(a + b, job, g) == AllProducts(a, job, g) + AllProducts(b, job, g)
  {
    if a == [] {
      assert a + b == b;
    } else {
      assert (a + b)[0] == a[0] && (a + b)[1..] == a[1..] + b;
      AllProductsAppend(a[1..], b, job, g);
    }
  }

  lemma {:induction false} AllCodesAppend(a: seq<SourceRow>, b: seq<SourceRow>, job: Job, g: int)
    ensures AllCodes(a + b, job, g) == AllCodes(a, job, g) + AllCodes(b, job, g)
  {
    if a == [] {
      assert a + b == b;
    } else {
      assert (a + b)[0] == a[0] && (a + b)[1..] == a[1..] + b;
      AllCodesAppend(a[1..], b, job, g);
    }
  }

  lemma {:induction false} SkippedAppend(a: seq<SourceRow>, b: seq<SourceRow>, job: Job)
    ensures Skipped(a + b, job) == Skipped(a, job) + Skipped(b, job)
  {
    if a == [] {
      assert a + b == b;
    } else {
      assert (a + b)[0] == a[0] && (a + b)[1..] == a[1..] + b;
      SkippedAppend(a[1..], b, job);
    }
  }

  lemma AllAppend(a: seq<SourceRow>, b: seq<SourceRow>, job: Job, g: int)
    ensures AllProducts(a + b, job, g) == AllProducts(a, job, g) + AllProducts(b, job, g)
    ensures AllCodes(a + b, job, g) == AllCodes(a, job, g) + AllCodes(b, job, g)
    ensures Skipped(a + b, job) == Skipped(a, job) + Skipped(b, job)
  {
    AllProductsAppend(a, b, job, g);
    AllCodesAppend(a, b, job, g);
    SkippedAppend(a, b, job);
  }

  lemma CopyTwice(db: Db, a: seq<SourceRow>, b: seq<SourceRow>, job: Job, g: int)
    ensures Copy(Copy(db, a, job, g), b, job, g) == Copy(db, a + b, job, g)
  {
    AllAppend(a, b, job, g);
    assert (db.products + AllProducts(a, job, g)) + AllProducts(b, job, g)
        == db.products + (AllProducts(a, job, g) + AllProducts(b, job, g));
    assert (db.codes + AllCodes(a, job, g)) + AllCodes(b, job, g)
        == db.codes + (AllCodes(a, job, g) + AllCodes(b, job, g));
  }

  /** The loop of `records` over one fetched chunk. */
  method ReadChunk(rows: seq<SourceRow>, job: Job, g: int)
    returns (products: seq<ProductRow>, codes: seq<CodeRow>, skipped: nat)
    ensures products == AllProducts(rows, job, g) && codes == AllCodes(rows, job, g) && skipped == Skipped(rows, job)
  {
    products, codes, skipped := [], [], 0;
    for i := 0 to |rows|
      invariant products == AllProducts(rows[..i], job, g)
      invariant codes == AllCodes(rows[..i], job, g)
      invariant skipped == Skipped(rows[..i], job)
    {
      var row := rows[i];
      assert rows[..i + 1] == rows[..i] + [row];
      AllAppend(rows[..i], [row], job, g);
      assert [row][1..] == [];
      if !Listed(row, job) {
        skipped := skipped + 1;
        continue;
      }
      products := products + [ProductOf(row, job, g)];
      codes := codes + CodesOf(row, job, g);
    }
    assert rows[..|rows|] == rows;
  }

  /** Where the batch loop stands after `at` source rows: what is committed, logged and counted. */
  ghost predicate Progress(start: Db, before: seq<Db>, job: Job, g: int, batch: nat, at: nat,
                           db: Db, log: seq<Db>, products: nat, codes: nat, skipped: nat)
  {
    && at <= |job.source| && batch >= 1
    && log + Batches(db, job.source[at..], job, g, batch) == before + Batches(start, job.source, job, g, batch)
    && db == Copy(start, job.source[..at], job, g)
    && products == |AllProducts(job.source[..at], job, g)|
    && codes == |AllCodes(job.source[..at], job, g)|
    && skipped == Skipped(job.source[..at], job)
  }

  lemma NoBatchYet(db: Db, log: seq<Db>, job: Job, g: int, batch: nat)
    requires batch >= 1
    ensures Progress(db, log, job, g, batch, 0, db, log, 0, 0, 0)
  {
    assert job.source[0..] == job.source && job.source[..0] == [];
    assert Copy(db, [], job, g) == db;
  }

  lemma OneBatch(start: Db, before: seq<Db>, job: Job, g: int, batch: nat, at: nat, n: nat,
                 db: Db, log: seq<Db>, products: nat, codes: nat, skipped: nat)
    requires Progress(start, before, job, g, batch, at, db, log, products, codes, skipped) && at < |job.source|
    requires n == if |job.source| - at < batch then |job.source| - at else batch
    ensures var chunk := job.source[at..at + n];
      Progress(start, before, job, g, batch, at + n, Copy(db, chunk, job, g), log + [Copy(db, chunk, job, g)],
        products + |AllProducts(chunk, job, g)|, codes + |AllCodes(chunk, job, g)|, skipped + Skipped(chunk, job))
  {
    var chunk := job.source[at..at + n];
    var next, rest := Copy(db, chunk, job, g), job.source[at + n..];
    assert job.source[..at + n] == job.source[..at] + chunk;
    assert job.source[at..][..n] == chunk && job.source[at..][n..] == rest;
    CopyTwice(start, job.source[..at], chunk, job, g);
    AllAppend(job.source[..at], chunk, job, g);
    assert Batches(db, job.source[at..], job, g, batch) == [next] + Batches(next, rest, job, g, batch);
    Regrouped(log, next, Batches(next, rest, job, g, batch));
  }

  lemma Regrouped(log: seq<Db>, next: Db, rest: seq<Db>)
    ensures log + ([next] + rest) == log + [next] + rest
  {}

  lemma AllBatchesDone(start: Db, before: seq<Db>, job: Job, g: int, batch: nat,
                       db: Db, log: seq<Db>, products: nat, codes: nat, skipped: nat)
    requires Progress(start, before, job, g, batch, |job.source|, db, log, products, codes, skipped)
    ensures log == before + Batches(start, job.source, job, g, batch)
    ensures db == Copy(start, job.source, job, g)
    ensures products == |AllProducts(job.source, job, g)|
    ensures codes == |AllCodes(job.source, job, g)|
    ensures skipped == Skipped(job.source, job)
  {
    assert job.source[..|job.source|] == job.source && job.source[|job.source|..] == [];
    assert log + [] == log;
  }

  class Loader {
    /** The database as other sessions see it. */
    var db: Db
    /** Every state any session could have seen, oldest first. */
    ghost var log: seq<Db>

    constructor (initial: Db)
      ensures db == initial && log == []
    {
      db := initial;
      log := [];
    }

    method Commit(next: Db)
      modifies this
      ensures db == next && log == old(log) + [next]
    {
      db := next;
      log := log + [next];
    }

    /** Copy the source in batches, one commit each. */
    method CopyAll(job: Job, g: int, batch: nat) returns (products: nat, codes: nat, skipped: nat)
      requires batch >= 1
      modifies this
      ensures log == old(log) + Batches(old(db), job.source, job, g, batch)
      ensures db == Copy(old(db), job.source, job, g)
      ensures products == |AllProducts(job.source, job, g)|
      ensures codes == |AllCodes(job.source, job, g)|
      ensures skipped == Skipped(job.source, job)
    {
      ghost var start, before := db, log;
      products, codes, skipped := 0, 0, 0;
      var at := 0;
      NoBatchYet(db, log, job, g, batch);
      while at < |job.source|
        invariant 0 <= at <= |job.source|
        invariant Progress(start, before, job, g, batch, at, db, log, products, codes, skipped)
      {
        var n := if |job.source| - at < batch then |job.source| - at else batch;
        var chunk := job.source[at..at + n];
        OneBatch(start, before, job, g, batch, at, n, db, log, products, codes, skipped);
        var productRows, codeRows, skippedRows := ReadChunk(chunk, job, g);
        Commit(Db(db.loads, db.products + productRows, db.codes + codeRows));
        products := products + |productRows|;
        codes := codes + |codeRows|;
        skipped := skipped + skippedRows;
        at := at + n;
      }
      AllBatchesDone(start, before, job, g, batch, db, log, products, codes, skipped);
    }

    method Load(job: Job, batch: nat) returns (outcome: Outcome)
      requires batch >= 1
      modifies this
      ensures log == old(log) + Trace(old(db), job, batch)
      ensures db == Last(old(db), Trace(old(db), job, batch))
      ensures outcome == OutcomeOf(old(db), job)
    {
      var active := ActiveLoad(db.loads);
      var rowsBefore := (|db.products|, |db.codes|);
      if !job.allowSmall {
        var priced := Priced(job.source);
        if priced < job.minProducts {
          return Refused;
        }
        if active.Some? && active.value.products.Some? && active.value.products.value != 0
           && priced * 2 < active.value.products.value {
          return Refused;
        }
      }
      if !job.enoughSpace {
        return Refused;
      }
      Commit(db);
      var g := NextGeneration(db);
      Commit(Begin(db));
      var products, codes, skipped := CopyAll(job, g, batch);
      Commit(Flip(db, g, products, codes));
      Commit(DropOthers(db, g));
      outcome := Loaded(g, products, codes, skipped,
        if active.None? then None else Some(active.value.generation),
        rowsBefore, (|db.products|, |db.codes|));
    }
  }

  // ----- what readers see

  datatype View = View(generation: int, products: seq<ProductRow>, codes: seq<CodeRow>)

  /** What a reader finds: the rows of the active generation of highest number, if there is one. */
  function ViewOf(db: Db): Option<View> {
    match ActiveLoad(db.loads)
    case None => None
    case Some(l) => Some(View(l.generation, Keep(db.products, Only(l.generation)), Keep(db.codes, Only(l.generation))))
  }

  /** The records of a whole source. */
  function ViewOfJob(job: Job, g: int): View {
    View(g, AllProducts(job.source, job, g), AllCodes(job.source, job, g))
  }

  predicate Known(loads: seq<LoadRow>, g: int) {
    exists i :: 0 <= i < |loads| && loads[i].generation == g
  }

  ghost predicate Increasing(loads: seq<LoadRow>) {
    forall i, j :: 0 <= i < j < |loads| ==> loads[i].generation < loads[j].generation
  }

  ghost predicate OneActive(loads: seq<LoadRow>) {
    forall i, j :: 0 <= i < |loads| && 0 <= j < |loads| && loads[i].status == Active && loads[j].status == Active ==>
      i == j
  }

  ghost predicate AllKnown<T>(rows: seq<Row<T>>, loads: seq<LoadRow>) {
    forall i :: 0 <= i < |rows| ==> Known(loads, rows[i].generation)
  }

  /** The load `l` is backed by the complete source recorded for its generation, and its counts are right. */
  ghost predicate Backed(l: LoadRow, products: seq<ProductRow>, codes: seq<CodeRow>, sources: map<int, Job>) {
    var g := l.generation;
    && g in sources
    && Keep(products, Only(g)) == AllProducts(sources[g].source, sources[g], g)
    && Keep(codes, Only(g)) == AllCodes(sources[g].source, sources[g], g)
    && l.products == Some(|Keep(products, Only(g))|)
    && l.codes == Some(|Keep(codes, Only(g))|)
  }

  /** What holds after every commit; `sources` remembers which source each generation was started from. */
  ghost predicate Honest(db: Db, sources: map<int, Job>) {
    && Increasing(db.loads) && OneActive(db.loads)
    && AllKnown(db.products, db.loads) && AllKnown(db.codes, db.loads)
    && forall i :: 0 <= i < |db.loads| && db.loads[i].status == Active ==>
         Backed(db.loads[i], db.products, db.codes, sources)
  }

  // ----- facts about the statements

  lemma {:induction false} KeepAppend<T>(a: seq<Row<T>>, b: seq<Row<T>>, keep: int -> bool)
    ensures Keep(a + b, keep) == Keep(a, keep) + Keep(b, keep)
  {
    if a == [] {
      assert a + b == b;
    } else {
      var head: seq<Row<T>> := if keep(a[0].generation) then [a[0]] else [];
      assert (a + b)[0] == a[0] && (a + b)[1..] == a[1..] + b;
      KeepAppend(a[1..], b, keep);
      assert Keep(a + b, keep) == head + (Keep(a[1..], keep) + Keep(b, keep));
    }
  }

  lemma {:induction false} KeepAllOrNone<T>(rows: seq<Row<T>>, keep: int -> bool)
    ensures (forall i :: 0 <= i < |rows| ==> keep(rows[i].generation)) ==> Keep(rows, keep) == rows
    ensures (forall i :: 0 <= i < |rows| ==> !keep(rows[i].generation)) ==> Keep(rows, keep) == []
    ensures forall i :: 0 <= i < |Keep(rows, keep)| ==>
      Keep(rows, keep)[i] in rows && keep(Keep(rows, keep)[i].generation)
  {
    if rows != [] {
      KeepAllOrNone(rows[1..], keep);
      assert rows == [rows[0]] + rows[1..];
      assert forall i :: 0 <= i < |rows[1..]| ==> rows[1..][i] == rows[i + 1];
    }
  }

  lemma {:induction false} KeepThenOnly<T>(rows: seq<Row<T>>, keep: int -> bool, g: int)
    requires keep(g)
    ensures Keep(Keep(rows, keep), Only(g)) == Keep(rows, Only(g))
  {
    if rows != [] {
      KeepThenOnly(rows[1..], keep, g);
      var head: seq<Row<T>> := if keep(rows[0].generation) then [rows[0]] else [];
      KeepAppend(head, Keep(rows[1..], keep), Only(g));
      assert [rows[0]][1..] == [];
    }
  }

  lemma {:induction false} SourceRowsAreOfGeneration(rows: seq<SourceRow>, job: Job, g: int)
    ensures forall i :: 0 <= i < |AllProducts(rows, job, g)| ==> AllProducts(rows, job, g)[i].generation == g
    ensures forall i :: 0 <= i < |AllCodes(rows, job, g)| ==> AllCodes(rows, job, g)[i].generation == g
    ensures |AllProducts(rows, job, g)| + Skipped(rows, job) == |rows|
  {
    if rows != [] {
      SourceRowsAreOfGeneration(rows[1..], job, g);
      var r := rows[0];
      KeyedOfGeneration(job.tools.barcodeKeys(r.gtin, r.sku, r.mpn), g, Barcode, r.rowid);
      KeyedOfGeneration(job.tools.modelKeys(r.sku, r.mpn, r.title), g, Model, r.rowid);
    }
  }

  lemma {:induction false} KeyedOfGeneration(keys: seq<string>, g: int, kind: Kind, rowid: int)
    ensures forall i :: 0 <= i < |Keyed(keys, g, kind, rowid)| ==> Keyed(keys, g, kind, rowid)[i].generation == g
  {
    if keys != [] { KeyedOfGeneration(keys[1..], g, kind, rowid); }
  }

  lemma {:induction false} FailStaleAt(loads: seq<LoadRow>)
    ensures |FailStale(loads)| == |loads|
    ensures forall i :: 0 <= i < |loads| ==>
      FailStale(loads)[i] == if loads[i].status == Loading then loads[i].(status := Failed) else loads[i]
  {
    if loads != [] { FailStaleAt(loads[1..]); }
  }

  lemma {:induction false} RetireActiveAt(loads: seq<LoadRow>)
    ensures |RetireActive(loads)| == |loads|
    ensures forall i :: 0 <= i < |loads| ==>
      RetireActive(loads)[i] == if loads[i].status == Active then loads[i].(status := Retired) else loads[i]
  {
    if loads != [] { RetireActiveAt(loads[1..]); }
  }

  lemma {:induction false} ActivateAt(loads: seq<LoadRow>, g: int, p: int, c: int)
    ensures |Activate(loads, g, p, c)| == |loads|
    ensures forall i :: 0 <= i < |loads| ==>
      Activate(loads, g, p, c)[i] == if loads[i].generation == g then LoadRow(g, Active, Some(p), Some(c)) else loads[i]
  {
    if loads != [] { ActivateAt(loads[1..], g, p, c); }
  }

  lemma {:induction false} MaxIsAbove(loads: seq<LoadRow>)
    ensures forall i :: 0 <= i < |loads| ==> loads[i].generation <= MaxGeneration(loads)
  {
    if |loads| > 1 {
      MaxIsAbove(loads[1..]);
      assert forall i :: 0 < i < |loads| ==> loads[i] == loads[1..][i - 1];
    }
  }

  lemma {:induction false} MaxIsReached(loads: seq<LoadRow>)
    requires loads != []
    ensures exists l :: l in loads && l.generation == MaxGeneration(loads)
  {
    assert loads[0] in loads;
    if |loads| > 1 {
      MaxIsReached(loads[1..]);
      var l :| l in loads[1..] && l.generation == MaxGeneration(loads[1..]);
      assert l in loads;
    }
  }

  lemma {:induction false} ActiveLoadIs(loads: seq<LoadRow>)
    requires OneActive(loads)
    ensures forall i :: 0 <= i < |loads| && loads[i].status == Active ==> ActiveLoad(loads) == Some(loads[i])
    ensures ActiveLoad(loads).Some? ==> exists i :: 0 <= i < |loads| && loads[i].status == Active
  {
    if loads != [] {
      var t := loads[1..];
      assert forall i :: 0 < i < |loads| ==> loads[i] == t[i - 1];
      forall i, j | 0 <= i < |t| && 0 <= j < |t| && t[i].status == Active && t[j].status == Active ensures i == j {
        assert loads[i + 1].status == Active && loads[j + 1].status == Active;
      }
      ActiveLoadIs(t);
      if j :| 0 <= j < |t| && t[j].status == Active {
        assert loads[j + 1].status == Active;
      }
    }
  }

  // ----- every transaction keeps the database honest

  /** A load is under way: its generation is recorded as loading, and whose source it copies is known. */
  ghost predicate UnderWay(db: Db, sources: map<int, Job>, job: Job, g: int) {
    && Honest(db, sources)
    && g in sources && sources[g] == job
    && exists i :: 0 <= i < |db.loads| && db.loads[i].generation == g && db.loads[i].status == Loading
  }

  lemma ActiveIsNotStale(loads: seq<LoadRow>, i: nat)
    requires Increasing(loads) && i < |loads| && loads[i].status == Active
    ensures NotStale(loads)(loads[i].generation)
  {
    if StaleIn(loads, loads[i].generation) {
      var j :| 0 <= j < |loads| && loads[j].generation == loads[i].generation
               && (loads[j].status == Loading || loads[j].status == Failed);
    }
  }

  lemma StillKnown<T>(rows: seq<Row<T>>, keep: int -> bool, loads: seq<LoadRow>, loads': seq<LoadRow>)
    requires AllKnown(rows, loads) && |loads| <= |loads'|
    requires forall i :: 0 <= i < |loads| ==> loads'[i].generation == loads[i].generation
    ensures AllKnown(Keep(rows, keep), loads')
  {
    KeepAllOrNone(rows, keep);
    forall i | 0 <= i < |Keep(rows, keep)| ensures Known(loads', Keep(rows, keep)[i].generation) {
      var k :| 0 <= k < |rows| && rows[k] == Keep(rows, keep)[i];
      var j :| 0 <= j < |loads| && loads[j].generation == rows[k].generation;
      assert loads'[j].generation == rows[k].generation;
    }
  }

  lemma NoRowsYet<T>(rows: seq<Row<T>>, loads: seq<LoadRow>, g: int)
    requires AllKnown(rows, loads) && !Known(loads, g)
    ensures Keep(rows, Only(g)) == []
  {
    KeepAllOrNone(rows, Only(g));
  }

  lemma SameView(db: Db, next: Db)
    requires OneActive(db.loads) && OneActive(next.loads)
    requires forall l: LoadRow :: l.status == Active ==> (l in db.loads <==> l in next.loads)
    requires forall i :: 0 <= i < |db.loads| && db.loads[i].status == Active ==>
      && Keep(next.products, Only(db.loads[i].generation)) == Keep(db.products, Only(db.loads[i].generation))
      && Keep(next.codes, Only(db.loads[i].generation)) == Keep(db.codes, Only(db.loads[i].generation))
    ensures ViewOf(next) == ViewOf(db)
  {
    ActiveLoadIs(db.loads);
    ActiveLoadIs(next.loads);
    if i :| 0 <= i < |db.loads| && db.loads[i].status == Active {
      assert db.loads[i] in next.loads;
      var j :| 0 <= j < |next.loads| && next.loads[j] == db.loads[i];
    }
  }

  lemma IncreasingSame(l: seq<LoadRow>, m: seq<LoadRow>)
    requires Increasing(l) && |l| == |m| && forall i :: 0 <= i < |l| ==> m[i].generation == l[i].generation
    ensures Increasing(m)
  {}

  lemma IncreasingPush(l: seq<LoadRow>, r: LoadRow)
    requires Increasing(l) && forall i :: 0 <= i < |l| ==> l[i].generation < r.generation
    ensures Increasing(l + [r])
  {}

  lemma OneActivePush(l: seq<LoadRow>, m: seq<LoadRow>, r: LoadRow)
    requires OneActive(l) && |l| == |m| && r.status != Active
    requires forall i :: 0 <= i < |l| ==> (m[i].status == Active <==> l[i].status == Active)
    ensures OneActive(m + [r])
  {}

  lemma BeginLoads(db: Db)
    requires Increasing(db.loads) && OneActive(db.loads)
    ensures var (l, l') := (db.loads, Begin(db).loads);
      && Increasing(l') && OneActive(l') && |l'| == |l| + 1
      && (forall i :: 0 <= i < |l| ==> l'[i].generation == l[i].generation)
      && (forall i :: 0 <= i < |l| ==> (l'[i].status == Active <==> l[i].status == Active))
      && (forall i :: 0 <= i < |l| && l[i].status == Active ==> l'[i] == l[i])
      && l'[|l|] == LoadRow(NextGeneration(db), Loading, None, None)
      && !Known(l, NextGeneration(db))
  {
    FailStaleAt(db.loads);
    MaxIsAbove(db.loads);
    IncreasingSame(db.loads, FailStale(db.loads));
    IncreasingPush(FailStale(db.loads), LoadRow(NextGeneration(db), Loading, None, None));
    OneActivePush(db.loads, FailStale(db.loads), LoadRow(NextGeneration(db), Loading, None, None));
  }

  lemma ActiveAcrossBegin(db: Db)
    requires Increasing(db.loads) && OneActive(db.loads)
    ensures forall l: LoadRow :: l.status == Active ==> (l in db.loads <==> l in Begin(db).loads)
  {
    BeginLoads(db);
    var (l, l') := (db.loads, Begin(db).loads);
    forall r: LoadRow | r.status == Active ensures r in l <==> r in l' {
      if r in l {
        var i :| 0 <= i < |l| && l[i] == r;
        assert l'[i] == r;
      }
      if r in l' {
        var i :| 0 <= i < |l'| && l'[i] == r;
        assert l[i] == r;
      }
    }
  }

  lemma BeginIsHonest(db: Db, sources: map<int, Job>, job: Job)
    requires Honest(db, sources)
    ensures UnderWay(Begin(db), sources[NextGeneration(db) := job], job, NextGeneration(db))
    ensures ViewOf(Begin(db)) == ViewOf(db)
    ensures Keep(Begin(db).products, Only(NextGeneration(db))) == []
    ensures Keep(Begin(db).codes, Only(NextGeneration(db))) == []
  {
    var next, g := Begin(db), NextGeneration(db);
    var keep := NotStale(db.loads);
    BeginLoads(db);
    StillKnown(db.products, keep, db.loads, next.loads);
    StillKnown(db.codes, keep, db.loads, next.loads);
    StillKnown(db.products, keep, db.loads, db.loads);
    StillKnown(db.codes, keep, db.loads, db.loads);
    NoRowsYet(next.products, db.loads, g);
    NoRowsYet(next.codes, db.loads, g);
    forall i | 0 <= i < |db.loads| && db.loads[i].status == Active
      ensures Keep(next.products, Only(db.loads[i].generation)) == Keep(db.products, Only(db.loads[i].generation))
      ensures Keep(next.codes, Only(db.loads[i].generation)) == Keep(db.codes, Only(db.loads[i].generation))
      ensures db.loads[i].generation != g
    {
      ActiveIsNotStale(db.loads, i);
      KeepThenOnly(db.products, keep, db.loads[i].generation);
      KeepThenOnly(db.codes, keep, db.loads[i].generation);
    }
    ActiveAcrossBegin(db);
    SameView(db, next);
  }

  lemma LoadingIsNotActive(db: Db, sources: map<int, Job>, job: Job, g: int, i: nat)
    requires UnderWay(db, sources, job, g) && i < |db.loads| && db.loads[i].status == Active
    ensures db.loads[i].generation != g
  {
    var k :| 0 <= k < |db.loads| && db.loads[k].generation == g && db.loads[k].status == Loading;
    assert i < k || k < i;
  }

  lemma AppendedKnown<T>(rows: seq<Row<T>>, more: seq<Row<T>>, loads: seq<LoadRow>, g: int)
    requires AllKnown(rows, loads) && Known(loads, g)
    requires forall i :: 0 <= i < |more| ==> more[i].generation == g
    ensures AllKnown(rows + more, loads)
    ensures forall h :: h != g ==> Keep(rows + more, Only(h)) == Keep(rows, Only(h))
    ensures Keep(rows + more, Only(g)) == Keep(rows, Only(g)) + more
  {
    forall h: int ensures Keep(rows + more, Only(h)) == Keep(rows, Only(h)) + (if h == g then more else []) {
      KeepAppend(rows, more, Only(h));
      KeepAllOrNone(more, Only(h));
    }
  }

  lemma CopyIsHonest(db: Db, sources: map<int, Job>, rows: seq<SourceRow>, job: Job, g: int)
    requires UnderWay(db, sources, job, g)
    ensures UnderWay(Copy(db, rows, job, g), sources, job, g)
    ensures ViewOf(Copy(db, rows, job, g)) == ViewOf(db)
    ensures Keep(Copy(db, rows, job, g).products, Only(g)) == Keep(db.products, Only(g)) + AllProducts(rows, job, g)
    ensures Keep(Copy(db, rows, job, g).codes, Only(g)) == Keep(db.codes, Only(g)) + AllCodes(rows, job, g)
  {
    SourceRowsAreOfGeneration(rows, job, g);
    assert Known(db.loads, g);
    AppendedKnown(db.products, AllProducts(rows, job, g), db.loads, g);
    AppendedKnown(db.codes, AllCodes(rows, job, g), db.loads, g);
    forall i | 0 <= i < |db.loads| && db.loads[i].status == Active ensures db.loads[i].generation != g {
      LoadingIsNotActive(db, sources, job, g, i);
    }
    SameView(db, Copy(db, rows, job, g));
  }

  lemma {:induction false} BatchesAreHonest(db: Db, sources: map<int, Job>, rows: seq<SourceRow>, job: Job, g: int,
                                            batch: nat, i: nat)
    requires UnderWay(db, sources, job, g) && batch >= 1
    requires i < |Batches(db, rows, job, g, batch)|
    ensures UnderWay(Batches(db, rows, job, g, batch)[i], sources, job, g)
    ensures ViewOf(Batches(db, rows, job, g, batch)[i]) == ViewOf(db)
    decreases |rows|
  {
    var n := if |rows| < batch then |rows| else batch;
    var next, all := Copy(db, rows[..n], job, g), Batches(db, rows, job, g, batch);
    var rest := Batches(next, rows[n..], job, g, batch);
    CopyIsHonest(db, sources, rows[..n], job, g);
    assert all == [next] + rest;
    if i == 0 {
      assert all[i] == next;
    } else {
      BatchesAreHonest(next, sources, rows[n..], job, g, batch, i - 1);
      assert all[i] == rest[i - 1];
    }
  }

  lemma FlipLoads(loads: seq<LoadRow>, g: int, p: int, c: int, k: nat)
    requires Increasing(loads) && k < |loads| && loads[k].generation == g
    ensures var r := Activate(RetireActive(loads), g, p, c);
      && |r| == |loads| && Increasing(r)
      && r[k] == LoadRow(g, Active, Some(p), Some(c))
      && (forall i :: 0 <= i < |r| && r[i].status == Active ==> i == k)
      && (forall i :: 0 <= i < |r| ==> r[i].generation == loads[i].generation)
  {
    RetireActiveAt(loads);
    ActivateAt(RetireActive(loads), g, p, c);
    IncreasingSame(loads, Activate(RetireActive(loads), g, p, c));
    forall i | 0 <= i < |loads| && i != k ensures loads[i].generation != g { assert i < k || k < i; }
  }

  lemma KnownAgain<T>(rows: seq<Row<T>>, loads: seq<LoadRow>, loads': seq<LoadRow>)
    requires AllKnown(rows, loads) && |loads| <= |loads'|
    requires forall i :: 0 <= i < |loads| ==> loads'[i].generation == loads[i].generation
    ensures AllKnown(rows, loads')
  {
    forall i | 0 <= i < |rows| ensures Known(loads', rows[i].generation) {
      var j :| 0 <= j < |loads| && loads[j].generation == rows[i].generation;
      assert loads'[j].generation == rows[i].generation;
    }
  }

  lemma FlipIsHonest(db: Db, sources: map<int, Job>, job: Job, g: int)
    requires UnderWay(db, sources, job, g)
    requires Keep(db.products, Only(g)) == AllProducts(job.source, job, g)
    requires Keep(db.codes, Only(g)) == AllCodes(job.source, job, g)
    ensures var next := Flip(db, g, |AllProducts(job.source, job, g)|, |AllCodes(job.source, job, g)|);
      && Honest(next, sources)
      && ViewOf(next) == Some(ViewOfJob(job, g))
      && (exists k :: 0 <= k < |next.loads| && next.loads[k].generation == g && next.loads[k].status == Active)
  {
    var p, c := |AllProducts(job.source, job, g)|, |AllCodes(job.source, job, g)|;
    var next := Flip(db, g, p, c);
    var k :| 0 <= k < |db.loads| && db.loads[k].generation == g && db.loads[k].status == Loading;
    FlipLoads(db.loads, g, p, c, k);
    KnownAgain(db.products, db.loads, next.loads);
    KnownAgain(db.codes, db.loads, next.loads);
    ActiveLoadIs(next.loads);
    assert next.loads[k].status == Active;
  }

  lemma DropIsHonest(db: Db, sources: map<int, Job>, g: int, k: nat)
    requires Honest(db, sources)
    requires k < |db.loads| && db.loads[k].generation == g && db.loads[k].status == Active
    ensures Honest(DropOthers(db, g), sources)
    ensures ViewOf(DropOthers(db, g)) == ViewOf(db)
    ensures DropOthers(db, g).products == Keep(db.products, Only(g))
    ensures DropOthers(db, g).codes == Keep(db.codes, Only(g))
  {
    var next := DropOthers(db, g);
    StillKnown(db.products, Only(g), db.loads, db.loads);
    StillKnown(db.codes, Only(g), db.loads, db.loads);
    KeepThenOnly(db.products, Only(g), g);
    KeepThenOnly(db.codes, Only(g), g);
    forall i | 0 <= i < |db.loads| && db.loads[i].status == Active ensures i == k {}
    SameView(db, next);
  }

  // ----- one load

  lemma FlippedIsComplete(db: Db, sources: map<int, Job>, job: Job)
    requires Honest(db, sources)
    ensures var g := NextGeneration(db);
      var s := sources[g := job];
      && Honest(Flipped(db, job), s) && ViewOf(Flipped(db, job)) == Some(ViewOfJob(job, g))
      && Honest(DropOthers(Flipped(db, job), g), s)
      && ViewOf(DropOthers(Flipped(db, job), g)) == Some(ViewOfJob(job, g))
      && DropOthers(Flipped(db, job), g).products == AllProducts(job.source, job, g)
      && DropOthers(Flipped(db, job), g).codes == AllCodes(job.source, job, g)
  {
    var g := NextGeneration(db);
    var s := sources[g := job];
    BeginIsHonest(db, sources, job);
    CopyIsHonest(Begin(db), s, job.source, job, g);
    var full := Copy(Begin(db), job.source, job, g);
    assert [] + AllProducts(job.source, job, g) == AllProducts(job.source, job, g);
    assert [] + AllCodes(job.source, job, g) == AllCodes(job.source, job, g);
    FlipIsHonest(full, s, job, g);
    var flipped := Flipped(db, job);
    var k :| 0 <= k < |flipped.loads| && flipped.loads[k].generation == g && flipped.loads[k].status == Active;
    DropIsHonest(flipped, s, g, k);
    ActiveLoadIs(flipped.loads);
  }

  lemma HonestWithMoreSources(db: Db, sources: map<int, Job>, g: int, job: Job)
    requires Honest(db, sources) && !Known(db.loads, g)
    ensures Honest(db, sources[g := job])
  {}

  /** Which commit of a load is the flip. */
  function FlipAt(db: Db, job: Job, batch: nat): int
    requires batch >= 1
  {
    |Trace(db, job, batch)| - 2
  }

  lemma TraceShape(db: Db, job: Job, batch: nat)
    requires batch >= 1 && !Refuses(db, job)
    ensures var b := Batches(Begin(db), job.source, job, NextGeneration(db), batch);
      var t := Trace(db, job, batch);
      && |t| == |b| + 4 && t[0] == db && t[1] == Begin(db)
      && (forall i :: 0 <= i < |b| ==> t[i + 2] == b[i])
      && t[|b| + 2] == Flipped(db, job) && t[|b| + 3] == DropOthers(Flipped(db, job), NextGeneration(db))
  {}

  lemma BatchOfLoadIsHonest(db: Db, sources: map<int, Job>, job: Job, batch: nat, i: nat)
    requires Honest(db, sources) && batch >= 1
    requires i < |Batches(Begin(db), job.source, job, NextGeneration(db), batch)|
    ensures var next := Batches(Begin(db), job.source, job, NextGeneration(db), batch)[i];
      Honest(next, sources[NextGeneration(db) := job]) && ViewOf(next) == ViewOf(db)
  {
    var g := NextGeneration(db);
    BeginIsHonest(db, sources, job);
    BatchesAreHonest(Begin(db), sources[g := job], job.source, job, g, batch, i);
  }

  lemma BeforeTheFlip(db: Db, sources: map<int, Job>, job: Job, batch: nat, i: nat)
    requires Honest(db, sources) && batch >= 1 && i < FlipAt(db, job, batch)
    ensures Honest(Trace(db, job, batch)[i], sources[NextGeneration(db) := job])
    ensures ViewOf(Trace(db, job, batch)[i]) == ViewOf(db)
  {
    TraceShape(db, job, batch);
    if i == 0 {
      MaxIsAbove(db.loads);
      HonestWithMoreSources(db, sources, NextGeneration(db), job);
    } else if i == 1 {
      BeginIsHonest(db, sources, job);
    } else {
      BatchOfLoadIsHonest(db, sources, job, batch, i - 2);
    }
  }

  lemma FromTheFlip(db: Db, sources: map<int, Job>, job: Job, batch: nat, i: nat)
    requires Honest(db, sources) && batch >= 1 && FlipAt(db, job, batch) <= i < |Trace(db, job, batch)|
    ensures Honest(Trace(db, job, batch)[i], sources[NextGeneration(db) := job])
    ensures ViewOf(Trace(db, job, batch)[i]) == Some(ViewOfJob(job, NextGeneration(db)))
  {
    TraceShape(db, job, batch);
    FlippedIsComplete(db, sources, job);
  }

  /** Readers see the old rows in every state before the flip commits, and exactly the new source's records in
      every state from then on; every state in between keeps the database honest. */
  lemma LoadIsAtomicForReaders(db: Db, sources: map<int, Job>, job: Job, batch: nat, i: nat)
    requires Honest(db, sources) && batch >= 1 && i < |Trace(db, job, batch)|
    ensures Honest(Trace(db, job, batch)[i], sources[NextGeneration(db) := job])
    ensures ViewOf(Trace(db, job, batch)[i])
         == if i < FlipAt(db, job, batch) then ViewOf(db) else Some(ViewOfJob(job, NextGeneration(db)))
  {
    if i < FlipAt(db, job, batch) {
      BeforeTheFlip(db, sources, job, batch, i);
    } else {
      FromTheFlip(db, sources, job, batch, i);
    }
  }

  lemma {:induction false} BatchesEndComplete(db: Db, rows: seq<SourceRow>, job: Job, g: int, batch: nat)
    requires batch >= 1
    ensures Last(db, Batches(db, rows, job, g, batch)) == Copy(db, rows, job, g)
    decreases |rows|
  {
    if rows != [] {
      var n := if |rows| < batch then |rows| else batch;
      var next := Copy(db, rows[..n], job, g);
      BatchesEndComplete(next, rows[n..], job, g, batch);
      assert rows[..n] + rows[n..] == rows;
      CopyTwice(db, rows[..n], rows[n..], job, g);
      if rows[n..] == [] { assert rows[..n] == rows; }
    }
  }

  /** Whatever the batch size, the last batch leaves the complete copy that the flip then activates. */
  lemma BatchSizeIrrelevant(db: Db, job: Job, b: nat, b': nat)
    requires b >= 1 && b' >= 1
    ensures var g := NextGeneration(db);
      && Last(Begin(db), Batches(Begin(db), job.source, job, g, b))
         == Last(Begin(db), Batches(Begin(db), job.source, job, g, b'))
      && Last(db, Trace(db, job, b)) == Last(db, Trace(db, job, b'))
  {
    BatchesEndComplete(Begin(db), job.source, job, NextGeneration(db), b);
    BatchesEndComplete(Begin(db), job.source, job, NextGeneration(db), b');
  }

  lemma FlippedLoads(db: Db, job: Job)
    requires Increasing(db.loads) && OneActive(db.loads)
    ensures var g := NextGeneration(db);
      ActiveLoad(Flipped(db, job).loads)
      == Some(LoadRow(g, Active, Some(|AllProducts(job.source, job, g)|), Some(|AllCodes(job.source, job, g)|)))
  {
    var g := NextGeneration(db);
    BeginLoads(db);
    FlipLoads(Begin(db).loads, g, |AllProducts(job.source, job, g)|, |AllCodes(job.source, job, g)|, |db.loads|);
    ActiveLoadIs(Flipped(db, job).loads);
  }

  /** Whatever was left behind before it, a completed load leaves the rows of its own generation only; the rows counted,
      the counts recorded and the counts returned agree; nothing of the source is lost; and the generation is new. */
  lemma CompletedLoadRecovers(db: Db, sources: map<int, Job>, job: Job, batch: nat)
    requires Honest(db, sources) && batch >= 1 && !Refuses(db, job)
    ensures var g := NextGeneration(db);
      var end := Last(db, Trace(db, job, batch));
      && end.products == AllProducts(job.source, job, g) && end.codes == AllCodes(job.source, job, g)
      && ActiveLoad(end.loads) == Some(LoadRow(g, Active, Some(|end.products|), Some(|end.codes|)))
    ensures var o := OutcomeOf(db, job);
      && o.rowsAfter == (o.products, o.codes)
      && o.products + o.skipped == |job.source|
      && (forall i :: 0 <= i < |db.loads| ==> db.loads[i].generation < o.generation)
  {
    TraceShape(db, job, batch);
    FlippedIsComplete(db, sources, job);
    SourceRowsAreOfGeneration(job.source, job, NextGeneration(db));
    MaxIsAbove(db.loads);
    FlippedLoads(db, job);
  }

  // ----- what a load does, told in rows

  /** The indexes of the source rows whose price is not null. */
  function PricedAt(rows: seq<SourceRow>): set<int> {
    set i | 0 <= i < |rows| && rows[i].price != Null
  }

  lemma {:induction false} PricedPush(rows: seq<SourceRow>, r: SourceRow)
    ensures Priced(rows + [r]) == Priced(rows) + if r.price.Null? then 0 else 1
  {
    if rows == [] {
      assert rows + [r] == [r] && [r][1..] == [];
    } else {
      assert (rows + [r])[1..] == rows[1..] + [r];
      PricedPush(rows[1..], r);
    }
  }

  lemma PricedAtPush(rows: seq<SourceRow>, r: SourceRow)
    ensures PricedAt(rows + [r]) == PricedAt(rows) + if r.price.Null? then {} else {|rows|}
    ensures |PricedAt(rows + [r])| == |PricedAt(rows)| + if r.price.Null? then 0 else 1
  {
    forall i: int
      ensures i in PricedAt(rows + [r]) <==> i in PricedAt(rows) || (i == |rows| && !r.price.Null?)
    {}
  }

  lemma {:induction false} PricedCounts(rows: seq<SourceRow>)
    ensures |PricedAt(rows)| == Priced(rows)
  {
    if rows == [] {
      assert PricedAt(rows) == {};
    } else {
      var (init, last) := (rows[..|rows| - 1], rows[|rows| - 1]);
      PricedCounts(init);
      PricedPush(init, last);
      PricedAtPush(init, last);
      assert init + [last] == rows;
    }
  }

  /** A load commits anything exactly when there is space and, unless small sources are allowed, the source has enough
      priced rows and no active load recorded more than twice as many products. */
  lemma LoadsExactly(db: Db, sources: map<int, Job>, job: Job, batch: nat)
    requires Honest(db, sources) && batch >= 1
    ensures var n := |set i | 0 <= i < |job.source| && job.source[i].price != Null|;
      var goesOn := job.enoughSpace
        && (job.allowSmall
            || (job.minProducts <= n
                && forall k :: 0 <= k < |db.loads| && db.loads[k].status == Active ==>
                     db.loads[k].products in {None, Some(0)} || db.loads[k].products.value <= 2 * n));
      && (Trace(db, job, batch) != [] <==> goesOn)
      && (OutcomeOf(db, job) == Refused <==> !goesOn)
  {
    ActiveLoadIs(db.loads);
    PricedCounts(job.source);
    assert PricedAt(job.source) == set i | 0 <= i < |job.source| && job.source[i].price != Null;
  }

  lemma {:induction false} KeptExactly<T>(rows: seq<Row<T>>, keep: int -> bool, r: Row<T>)
    ensures r in Keep(rows, keep) <==> r in rows && keep(r.generation)
  {
    if rows != [] {
      KeptExactly(rows[1..], keep, r);
      assert r in rows <==> r == rows[0] || r in rows[1..];
    }
  }

  /** The first commit that changes anything clears what unfinished loads left and nothing else. */
  lemma BeginClearsTheUnfinished(db: Db, r: ProductRow, c: CodeRow)
    ensures r in Begin(db).products <==>
      r in db.products && forall l :: l in db.loads && l.generation == r.generation ==> l.status in {Active, Retired}
    ensures c in Begin(db).codes <==>
      c in db.codes && forall l :: l in db.loads && l.generation == c.generation ==> l.status in {Active, Retired}
  {
    KeptExactly(db.products, NotStale(db.loads), r);
    KeptExactly(db.codes, NotStale(db.loads), c);
    FinishedExactly(db.loads, r.generation);
    FinishedExactly(db.loads, c.generation);
  }

  lemma FinishedExactly(loads: seq<LoadRow>, g: int)
    ensures NotStale(loads)(g) <==> forall l :: l in loads && l.generation == g ==> l.status in {Active, Retired}
  {
    if StaleIn(loads, g) {
      var i :|
        0 <= i < |loads| && loads[i].generation == g && (loads[i].status == Loading || loads[i].status == Failed);
      assert loads[i] in loads;
    }
  }

  /** What a completed load makes of the status of an earlier one. */
  function Ended(s: Status): Status {
    match s
    case Active => Retired
    case Loading => Failed
    case _ => s
  }

  lemma LoadsAfter(loads: seq<LoadRow>, g: int, p: int, c: int, k: nat)
    requires k < |loads| && loads[k].generation != g
    ensures var begun := FailStale(loads) + [LoadRow(g, Loading, None, None)];
      var (was, end) := (loads[k], Activate(RetireActive(begun), g, p, c));
      && |end| == |loads| + 1
      && end[|loads|] == LoadRow(g, Active, Some(p), Some(c))
      && end[k] == was.(status := Ended(was.status))
  {
    var begun := FailStale(loads) + [LoadRow(g, Loading, None, None)];
    FailStaleAt(loads);
    RetireActiveAt(begun);
    ActivateAt(RetireActive(begun), g, p, c);
  }

  lemma NextIsOneMore(db: Db)
    ensures if db.loads == [] then NextGeneration(db) == 1
      else exists l :: l in db.loads && NextGeneration(db) == l.generation + 1
    ensures forall l :: l in db.loads ==> l.generation < NextGeneration(db)
  {
    MaxIsAbove(db.loads);
    if db.loads != [] { MaxIsReached(db.loads); }
  }

  lemma PreviousIsActive(db: Db, job: Job, was: LoadRow)
    requires OneActive(db.loads) && OutcomeOf(db, job).Loaded? && was in db.loads
    ensures was.status == Active ==> OutcomeOf(db, job).previous == Some(was.generation)
    ensures OutcomeOf(db, job).previous.Some? ==>
      exists l :: l in db.loads && l.status == Active && OutcomeOf(db, job).previous == Some(l.generation)
  {
    ActiveLoadIs(db.loads);
    if OutcomeOf(db, job).previous.Some? {
      var i :| 0 <= i < |db.loads| && db.loads[i].status == Active;
      assert db.loads[i] in db.loads;
    }
  }

  /** What a completed load leaves in `catalog_index_loads` and returns. */
  lemma LoadRecordsItself(db: Db, sources: map<int, Job>, job: Job, batch: nat, k: nat)
    requires Honest(db, sources) && batch >= 1 && Trace(db, job, batch) != [] && k < |db.loads|
    ensures var (was, end, o) := (db.loads[k], Last(db, Trace(db, job, batch)), OutcomeOf(db, job));
      && |end.loads| == |db.loads| + 1
      && end.loads[|db.loads|] == LoadRow(o.generation, Active, Some(|end.products|), Some(|end.codes|))
      && end.loads[k] == was.(status := Ended(was.status))
      && o.rowsBefore == (|db.products|, |db.codes|)
      && (exists l :: l in db.loads && o.generation == l.generation + 1)
      && (forall l :: l in db.loads ==> l.generation < o.generation)
      && (was.status == Active ==> o.previous == Some(was.generation))
      && (o.previous.Some? ==>
            exists l :: l in db.loads && l.status == Active && o.previous == Some(l.generation))
  {
    var g := NextGeneration(db);
    var (p, c) := (|AllProducts(job.source, job, g)|, |AllCodes(job.source, job, g)|);
    TraceShape(db, job, batch);
    FlippedIsComplete(db, sources, job);
    NextIsOneMore(db);
    assert db.loads[k] in db.loads;
    LoadsAfter(db.loads, g, p, c, k);
    PreviousIsActive(db, job, db.loads[k]);
  }

  // ----- what a record holds

  predicate IsCleaned(value: Option<string>, cleaned: Option<string>, tools: Tools) {
    if value.Some? && tools.clean(value.value) != "" then cleaned == Some(tools.clean(value.value)) else cleaned == None
  }

  /** The row is worth a record: a price of at least one cent that fits the column, an HTTP address and a domain. */
  predicate IsUsable(row: SourceRow, job: Job) {
    && row.price.Amount? && 1 <= RoundHalfEven(row.price.amount * 100.0) <= 99_999_999_999_999
    && row.url.Some? && job.tools.clean(row.url.value) != "" && job.tools.isHttp(job.tools.clean(row.url.value))
    && job.tools.normalise(row.domain) != ""
  }

  predicate IsRecordOf(p: ProductRow, row: SourceRow, job: Job, g: int) {
    var (t, i) := (job.tools, p.item);
    var currency := t.upper(if row.currency.None? then "" else t.clean(row.currency.value));
    && IsUsable(row, job)
    && p.generation == g && i.rowid == row.rowid && i.crawledAt == job.crawledAt && i.available == row.available
    && i.domain == t.normalise(row.domain) && i.host == t.hostOf(i.domain) && i.url == t.clean(row.url.value)
    && IsCleaned(row.title, i.title, t) && IsCleaned(row.brand, i.brand, t)
    && IsCleaned(row.sku, i.sku, t) && IsCleaned(row.mpn, i.mpn, t) && IsCleaned(row.gtin, i.gtin, t)
    && i.price * 100.0 == RoundHalfEven(row.price.amount * 100.0) as real
    && i.currency == (if 1 <= |currency| <= 8 then Some(currency) else None)
    && (i.domain in job.verdicts ==> i.verdict == job.verdicts[i.domain])
    && (i.domain !in job.verdicts ==> i.verdict == "unknown")
  }

  lemma UsableExactly(row: SourceRow, job: Job)
    ensures Listed(row, job) <==> IsUsable(row, job)
  {
    if row.price.Amount? {
      var cents := RoundHalfEven(row.price.amount * 100.0);
      assert ToCents(row.price.amount) * 100.0 == cents as real;
    }
  }

  lemma RecordExactly(row: SourceRow, job: Job, g: int, p: ProductRow)
    ensures (Listed(row, job) && p == ProductOf(row, job, g)) <==> IsRecordOf(p, row, job, g)
  {
    UsableExactly(row, job);
  }

  /** The records of a source are exactly those of its usable rows, column by column. */
  lemma {:induction false} RecordsExactly(rows: seq<SourceRow>, job: Job, g: int, p: ProductRow)
    ensures p in AllProducts(rows, job, g) <==> exists k :: 0 <= k < |rows| && IsRecordOf(p, rows[k], job, g)
  {
    if rows != [] {
      RecordExactly(rows[0], job, g, p);
      RecordsExactly(rows[1..], job, g, p);
      if k :| 0 <= k < |rows[1..]| && IsRecordOf(p, rows[1..][k], job, g) { assert rows[1..][k] == rows[k + 1]; }
      if k :| 0 <= k < |rows| && IsRecordOf(p, rows[k], job, g) && k > 0 { assert rows[1..][k - 1] == rows[k]; }
    }
  }

  predicate IsCodeOf(c: CodeRow, row: SourceRow, job: Job, g: int) {
    && IsUsable(row, job) && c.generation == g && c.item.rowid == row.rowid
    && (c.item.kind == Barcode ==> c.item.codeKey in job.tools.barcodeKeys(row.gtin, row.sku, row.mpn))
    && (c.item.kind == Model ==> c.item.codeKey in job.tools.modelKeys(row.sku, row.mpn, row.title))
  }

  lemma {:induction false} KeyedExactly(keys: seq<string>, g: int, kind: Kind, rowid: int, c: CodeRow)
    ensures c in Keyed(keys, g, kind, rowid) <==>
      c.generation == g && c.item.kind == kind && c.item.rowid == rowid && c.item.codeKey in keys
  {
    if keys != [] {
      KeyedExactly(keys[1..], g, kind, rowid, c);
      assert c.item.codeKey in keys <==> c.item.codeKey == keys[0] || c.item.codeKey in keys[1..];
    }
  }

  /** The lookup codes of a source are exactly the derived keys of its usable rows. */
  lemma {:induction false} CodesExactly(rows: seq<SourceRow>, job: Job, g: int, c: CodeRow)
    ensures c in AllCodes(rows, job, g) <==> exists k :: 0 <= k < |rows| && IsCodeOf(c, rows[k], job, g)
  {
    if rows != [] {
      var r := rows[0];
      UsableExactly(r, job);
      KeyedExactly(job.tools.barcodeKeys(r.gtin, r.sku, r.mpn), g, Barcode, r.rowid, c);
      KeyedExactly(job.tools.modelKeys(r.sku, r.mpn, r.title), g, Model, r.rowid, c);
      CodesExactly(rows[1..], job, g, c);
      if k :| 0 <= k < |rows[1..]| && IsCodeOf(c, rows[1..][k], job, g) { assert rows[1..][k] == rows[k + 1]; }
      if k :| 0 <= k < |rows| && IsCodeOf(c, rows[k], job, g) && k > 0 { assert rows[1..][k - 1] == rows[k]; }
    }
  }

  // ----- any sequence of loads, each of which may crash

  /** One run of the loader of which only the first `commits` commits happen. */
  datatype Run = Run(job: Job, batch: nat, commits: nat)

  function Committed(db: Db, run: Run): seq<Db>
    requires run.batch >= 1
  {
    var t := Trace(db, run.job, run.batch);
    if run.commits < |t| then t[..run.commits] else t
  }

  predicate BatchesPositive(runs: seq<Run>) {
    forall i :: 0 <= i < |runs| ==> runs[i].batch >= 1
  }

  /** Every state committed by a sequence of runs, one loader at a time. */
  function History(db: Db, runs: seq<Run>): seq<Db>
    requires BatchesPositive(runs)
    decreases |runs|
  {
    if runs == [] then []
    else Committed(db, runs[0]) + History(Last(db, Committed(db, runs[0])), runs[1..])
  }

  ghost predicate JobOf(job: Job, runs: seq<Run>) {
    exists i :: 0 <= i < |runs| && runs[i].job == job
  }

  lemma CommittedIsHonest(db: Db, sources: map<int, Job>, run: Run, i: nat)
    requires Honest(db, sources) && run.batch >= 1 && i < |Committed(db, run)|
    ensures Honest(Committed(db, run)[i], sources[NextGeneration(db) := run.job])
  {
    LoadIsAtomicForReaders(db, sources, run.job, run.batch, i);
  }

  ghost predicate FromRuns(known: map<int, Job>, sources: map<int, Job>, runs: seq<Run>) {
    forall g :: g in known ==> (g in sources && known[g] == sources[g]) || JobOf(known[g], runs)
  }

  lemma FromLaterRuns(known: map<int, Job>, sources: map<int, Job>, runs: seq<Run>, g0: int)
    requires runs != []
    requires FromRuns(known, sources[g0 := runs[0].job], runs[1..])
    ensures FromRuns(known, sources, runs)
  {
    assert runs[0].job == runs[0].job;
    forall g | g in known ensures (g in sources && known[g] == sources[g]) || JobOf(known[g], runs) {
      if k :| 0 <= k < |runs[1..]| && runs[1..][k].job == known[g] {
        assert runs[k + 1].job == known[g];
      }
    }
  }

  lemma AfterRun(db: Db, sources: map<int, Job>, run: Run)
    requires Honest(db, sources) && run.batch >= 1
    ensures Honest(Last(db, Committed(db, run)), sources[NextGeneration(db) := run.job])
  {
    var c := Committed(db, run);
    if c == [] {
      MaxIsAbove(db.loads);
      HonestWithMoreSources(db, sources, NextGeneration(db), run.job);
    } else {
      CommittedIsHonest(db, sources, run, |c| - 1);
    }
  }

  lemma HistoryAt(db: Db, runs: seq<Run>, i: nat)
    requires BatchesPositive(runs) && i < |History(db, runs)|
    ensures runs != []
    ensures var c := Committed(db, runs[0]);
      if i < |c| then History(db, runs)[i] == c[i]
      else
        && i - |c| < |History(Last(db, c), runs[1..])|
        && History(db, runs)[i] == History(Last(db, c), runs[1..])[i - |c|]
  {}

  lemma {:induction false} HistoryIsHonest(db: Db, sources: map<int, Job>, runs: seq<Run>, i: nat)
    returns (known: map<int, Job>)
    requires Honest(db, sources) && BatchesPositive(runs) && i < |History(db, runs)|
    ensures Honest(History(db, runs)[i], known) && FromRuns(known, sources, runs)
    decreases |runs|
  {
    var c := Committed(db, runs[0]);
    var g, more := NextGeneration(db), sources[NextGeneration(db) := runs[0].job];
    HistoryAt(db, runs, i);
    if i < |c| {
      CommittedIsHonest(db, sources, runs[0], i);
      known := more;
    } else {
      AfterRun(db, sources, runs[0]);
      known := HistoryIsHonest(Last(db, c), more, runs[1..], i - |c|);
    }
    FromLaterRuns(known, sources, runs, g);
  }

  /** From an empty database, in every state that any sequence of loads ever commits, whatever crashed: at most one
      load is active, no row lies outside a recorded load, generations increase, and what a reader finds is
      nothing at all or exactly the records of the complete source of one of the runs. */
  lemma ReadersSeeOnlyCompleteSources(runs: seq<Run>, i: nat)
    requires BatchesPositive(runs) && i < |History(Db([], [], []), runs)|
    ensures var s := History(Db([], [], []), runs)[i];
      && OneActive(s.loads) && Increasing(s.loads)
      && AllKnown(s.products, s.loads) && AllKnown(s.codes, s.loads)
      && (ViewOf(s).None?
          || exists k :: 0 <= k < |runs| && ViewOf(s) == Some(ViewOfJob(runs[k].job, ViewOf(s).value.generation)))
  {
    var known := HistoryIsHonest(Db([], [], []), map[], runs, i);
    var s := History(Db([], [], []), runs)[i];
    ActiveLoadIs(s.loads);
    if a :| 0 <= a < |s.loads| && s.loads[a].status == Active {
      var g := s.loads[a].generation;
      var k :| 0 <= k < |runs| && runs[k].job == known[g];
      assert ViewOf(s) == Some(ViewOfJob(runs[k].job, g));
    }
  }
}
