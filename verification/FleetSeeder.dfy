/**
 The resumable seeder of scripts/seed_synthetic_fleet.py.

 `draw` stands for the fraction that blake2b derives from three strings, and
 `authority` for what the URL normaliser makes of host and port.  Row ids come from
 a counter that a crash does not wind back.  Every row belongs to one workspace, so the tables are kept
 by workspace slug; the rows of one store reference each other by id.
 */
module FleetSeeder {
  import opened Wrappers
  import opened Ordering
  import opened Sequences
  import opened Rounding
  import opened Decimals
  import opened UrlIdentity

  datatype Plan = Plan(stores: int, products: int, matches: int, extra: int)

  datatype PlanError = NoStores | NoProducts | TooFewMatches | TooManyMatches

  datatype PlanResult = Planned(plan: Plan) | Refused(error: PlanError)

  /** The matches asked for, before rounding. */
  function Offered(products: int, ratio: real): real {
    products as real * ratio
  }

  /** `build_plan` */
  function BuildPlan(stores: int, products: int, ratio: real): PlanResult {
    if stores < 1 then Refused(NoStores)
    else if products < 1 then Refused(NoProducts)
    else if ratio < 1.0 then Refused(TooFewMatches)
    else
      var matches := RoundHalfEven(Offered(products, ratio));
      if matches - products > products then Refused(TooManyMatches)
      else Planned(Plan(stores, products, matches, matches - products))
  }

  predicate ValidPlan(p: Plan) {
    p.stores >= 1 && p.products >= 1 && 0 <= p.extra <= p.products && p.matches == p.products + p.extra
  }

  // ----- names and URLs

  function Slug(prefix: string, index: nat): string {
    prefix + "-" + Padded(index, 3)
  }

  function StoreName(index: nat): string {
    Slug("fleet", index)
  }

  /** `f"p{number:06d}"`, whose width counts a minus sign. */
  function Sku(number: int): string {
    if number >= 0 then "p" + Padded(number, 6) else "p-" + Padded(-number, 5)
  }

  function PathOf(kind: string, store: string, sku: string): string {
    kind + store + "/" + sku
  }

  function PrimaryPath(store: string, index: nat): string {
    PathOf("/p/", store, Sku(index + 1))
  }

  function SecondaryPath(store: string, index: nat): string {
    PathOf("/api/p/", store, Sku(500000 - index))
  }

  /** `base_url.rstrip("/")` */
  function Trimmed(base: string): string {
    if base != [] && base[|base| - 1] == '/' then Trimmed(base[..|base| - 1]) else base
  }

  /** `match_urls_for_product` */
  function UrlsFor(base: string, store: string, index: nat, extra: bool): seq<string> {
    [Trimmed(base) + PrimaryPath(store, index)] + if extra then [Trimmed(base) + SecondaryPath(store, index)] else []
  }

  // ----- which products carry a second match

  type Draw = (string, string, string) -> real

  function ExtraDraw(draw: Draw, store: string, index: nat): real {
    draw("extra", store, Show(index))
  }

  function DrawsBefore(draw: Draw, store: string): (nat, nat) -> bool {
    (i: nat, j: nat) =>
      ExtraDraw(draw, store, i) < ExtraDraw(draw, store, j)
      || (ExtraDraw(draw, store, i) == ExtraDraw(draw, store, j) && i <= j)
  }

  function UpTo(n: nat): (s: seq<nat>)
    ensures |s| == n && forall i :: 0 <= i < n ==> s[i] == i
  {
    seq(n, i => i)
  }

  function RankedProducts(draw: Draw, store: string, products: nat): seq<nat> {
    Sort(DrawsBefore(draw, store), UpTo(products))
  }

  function ExtraIndexes(draw: Draw, store: string, plan: Plan): set<nat>
    requires ValidPlan(plan)
  {
    set i | i in RankedProducts(draw, store, plan.products)[..plan.extra]
  }

  // ----- rows

  datatype Product = Product(id: nat, workspaceId: nat, sku: string, title: string)

  datatype Variant = Variant(id: nat, workspaceId: nat, productId: nat, sku: string, cents: int)

  datatype Match = Match(id: nat, workspaceId: nat, productId: nat, variantId: nat, competitorId: nat, url: string,
                         normalized: string)

  datatype Competitor = Competitor(id: nat, workspaceId: nat, domain: string)

  datatype Rule = Rule(id: nat, workspaceId: nat, nextRunAt: int)

  /** Everything one transaction writes. */
  datatype Store = Store(
    workspaceId: nat, name: nat, competitor: Competitor,
    products: seq<Product>, variants: seq<Variant>, matches: seq<Match>, rule: Rule)

  datatype Limits = Limits(concurrency: int, ratePerMinute: int)

  datatype Args = Args(
    plan: Plan, base: string, domain: string, prefix: string, spacing: int, anchor: int, limits: Limits,
    draw: Draw, authority: Authority, portReads: string -> bool)

  function Normalizer(a: Args): string -> string {
    (url: string) => NormalizeUrl(a.authority, url)
  }

  function Cents(draw: Draw, store: string, sku: string): int {
    999 + (draw("price", store, sku) * 200000.0).Floor
  }

  function ProductRow(a: Args, store: string, ws: nat, i: nat, id: nat): Product {
    Product(id, ws, Sku(i + 1), store + " product " + Sku(i + 1))
  }

  function VariantRow(a: Args, store: string, ws: nat, i: nat, id: nat, productId: nat): Variant {
    Variant(id, ws, productId, Sku(i + 1), Cents(a.draw, store, Sku(i + 1)))
  }

  function MatchRow(normalize: string -> string, ws: nat, competitor: nat, p: Product, v: Variant, url: string,
                    id: nat): Match
  {
    Match(id, ws, p.id, v.id, competitor, url, normalize(url))
  }

  // ----- chunks

  function Flatten<T>(batches: seq<seq<T>>): seq<T> {
    if batches == [] then [] else Flatten(batches[..|batches| - 1]) + batches[|batches| - 1]
  }

  function ChunkSize(size: int): nat {
    if size < 1 then 1 else size
  }

  /** `_chunks`: nothing lost, duplicated or reordered, no batch empty or too large, and only the last may be short. */
  method Chunks<T>(items: seq<T>, size: int) returns (batches: seq<seq<T>>)
    ensures Flatten(batches) == items
    ensures forall b :: 0 <= b < |batches| ==> 1 <= |batches[b]| <= ChunkSize(size)
    ensures forall b :: 0 <= b < |batches| - 1 ==> |batches[b]| == ChunkSize(size)
  {
    batches := [];
    var batch: seq<T> := [];
    for i := 0 to |items|
      invariant Flatten(batches) + batch == items[..i]
      invariant |batch| < ChunkSize(size)
      invariant forall b :: 0 <= b < |batches| ==> |batches[b]| == ChunkSize(size)
    {
      batch := batch + [items[i]];
      assert Flatten(batches) + batch == items[..i + 1];
      if |batch| >= size {
        FlattenOne(batches, batch);
        batches := batches + [batch];
        batch := [];
      }
    }
    assert items[..|items|] == items;
    if batch != [] {
      FlattenOne(batches, batch);
      batches := batches + [batch];
    }
  }

  lemma FlattenOne<T>(batches: seq<seq<T>>, batch: seq<T>)
    ensures Flatten(batches + [batch]) == Flatten(batches) + batch
  {
    assert (batches + [batch])[..|batches|] == batches;
  }

  /** Inserting batch by batch inserts everything, in order. */
  method InsertChunked<T>(items: seq<T>, size: int, counted: int) returns (table: seq<T>, total: int)
    ensures table == items && total == counted + |items|
  {
    var batches := Chunks(items, size);
    table, total := [], counted;
    for b := 0 to |batches|
      invariant table == Flatten(batches[..b]) && total == counted + |table|
    {
      FlattenOne(batches[..b], batches[b]);
      assert batches[..b] + [batches[b]] == batches[..b + 1];
      table := table + batches[b];
      total := total + |batches[b]|;
    }
    assert batches[..|batches|] == batches;
  }

  // ----- what one transaction writes

  function ProductId(first: nat, i: nat): nat { first + 2 + 2 * i }

  function VariantId(first: nat, i: nat): nat { first + 3 + 2 * i }

  function BuiltProducts(a: Args, store: string, first: nat, n: nat): seq<Product> {
    seq(n, i requires 0 <= i < n => ProductRow(a, store, first, i, ProductId(first, i)))
  }

  function BuiltVariants(a: Args, store: string, first: nat, n: nat): seq<Variant> {
    seq(n, i requires 0 <= i < n => VariantRow(a, store, first, i, VariantId(first, i), ProductId(first, i)))
  }

  function MatchOf(normalize: string -> string, first: nat, i: nat, url: string, id: nat): Match {
    Match(id, first, ProductId(first, i), VariantId(first, i), first + 1, url, normalize(url))
  }

  /** The matches of product `i`, whose ids start at `id`. */
  function RowsFor(normalize: string -> string, first: nat, i: nat, urls: seq<string>, id: nat): seq<Match> {
    seq(|urls|, u requires 0 <= u < |urls| => MatchOf(normalize, first, i, urls[u], id + u))
  }

  function BuiltMatches(a: Args, store: string, first: nat, extras: set<nat>, n: nat, id: nat): seq<Match> {
    if n == 0 then []
    else
      WithMatches(Normalizer(a), first, BuiltMatches(a, store, first, extras, n - 1, id), n - 1,
                  UrlsFor(a.base, store, n - 1, n - 1 in extras), id)
  }

  function WithMatches(normalize: string -> string, first: nat, before: seq<Match>, i: nat, urls: seq<string>,
                       id: nat): seq<Match>
  {
    before + RowsFor(normalize, first, i, urls, id + |before|)
  }

  function FirstMatchId(a: Args, first: nat): nat
    requires ValidPlan(a.plan)
  {
    first + 2 + 2 * a.plan.products
  }

  function StoreOf(a: Args, index: nat, first: nat, products: seq<Product>, variants: seq<Variant>,
                   matches: seq<Match>): Store
    requires ValidPlan(a.plan)
  {
    Store(first, index, Competitor(first + 1, first, a.domain), products, variants, matches,
          Rule(FirstMatchId(a, first) + |matches|, first, a.anchor + index * a.spacing))
  }

  function BuildStore(a: Args, index: nat, first: nat): Store
    requires ValidPlan(a.plan)
  {
    var n := a.plan.products;
    StoreOf(a, index, first, BuiltProducts(a, StoreName(index), first, n), BuiltVariants(a, StoreName(index), first, n),
            BuiltMatches(a, StoreName(index), first, ExtraIndexes(a.draw, StoreName(index), a.plan), n,
                         FirstMatchId(a, first)))
  }

  const INSERT_CHUNK := 5000

  method ProductRows(a: Args, store: string, first: nat) returns (products: seq<Product>, variants: seq<Variant>)
    requires ValidPlan(a.plan)
    ensures products == BuiltProducts(a, store, first, a.plan.products)
    ensures variants == BuiltVariants(a, store, first, a.plan.products)
  {
    products, variants := [], [];
    var id := first + 2;
    for i := 0 to a.plan.products
      invariant id == first + 2 + 2 * i
      invariant products == BuiltProducts(a, store, first, i) && variants == BuiltVariants(a, store, first, i)
    {
      ProductsStep(a, store, first, i);
      VariantsStep(a, store, first, i);
      products := products + [ProductRow(a, store, first, i, id)];
      variants := variants + [VariantRow(a, store, first, i, id + 1, id)];
      id := id + 2;
    }
  }

  lemma ProductsStep(a: Args, store: string, first: nat, i: nat)
    ensures BuiltProducts(a, store, first, i + 1) ==
      BuiltProducts(a, store, first, i) + [ProductRow(a, store, first, i, ProductId(first, i))]
  {}

  lemma VariantsStep(a: Args, store: string, first: nat, i: nat)
    ensures BuiltVariants(a, store, first, i + 1) ==
      BuiltVariants(a, store, first, i) + [VariantRow(a, store, first, i, VariantId(first, i), ProductId(first, i))]
  {}

  lemma BuiltIds(a: Args, store: string, first: nat, n: nat, i: nat)
    requires i < n
    ensures BuiltProducts(a, store, first, n)[i].id == ProductId(first, i)
    ensures BuiltVariants(a, store, first, n)[i].id == VariantId(first, i)
  {}

  method MatchRows(a: Args, store: string, first: nat, products: seq<Product>, variants: seq<Variant>, firstId: nat)
    returns (matches: seq<Match>)
    requires ValidPlan(a.plan)
    requires products == BuiltProducts(a, store, first, a.plan.products)
    requires variants == BuiltVariants(a, store, first, a.plan.products)
    ensures matches == BuiltMatches(a, store, first, ExtraIndexes(a.draw, store, a.plan), a.plan.products, firstId)
  {
    var extras := ExtraIndexes(a.draw, store, a.plan);
    matches := [];
    for i := 0 to |products|
      invariant matches == BuiltMatches(a, store, first, extras, i, firstId)
    {
      BuiltIds(a, store, first, a.plan.products, i);
      MatchesStep(a, store, first, extras, i, firstId);
      matches := AddMatches(Normalizer(a), first, matches, i, UrlsFor(a.base, store, i, i in extras), products[i],
                            variants[i], firstId);
    }
  }

  method AddMatches(normalize: string -> string, first: nat, matches: seq<Match>, i: nat, urls: seq<string>,
                    p: Product, v: Variant, id: nat)
    returns (more: seq<Match>)
    requires p.id == ProductId(first, i) && v.id == VariantId(first, i)
    ensures more == WithMatches(normalize, first, matches, i, urls, id)
  {
    var rows := UrlRows(normalize, first, i, urls, p, v, id + |matches|);
    more := matches + rows;
  }

  lemma MatchesStep(a: Args, store: string, first: nat, extras: set<nat>, i: nat, id: nat)
    ensures BuiltMatches(a, store, first, extras, i + 1, id) ==
      WithMatches(Normalizer(a), first, BuiltMatches(a, store, first, extras, i, id), i,
                  UrlsFor(a.base, store, i, i in extras), id)
  {}

  lemma RowsForAre(normalize: string -> string, first: nat, i: nat, urls: seq<string>, id: nat, rows: seq<Match>)
    requires |rows| == |urls| && forall k :: 0 <= k < |urls| ==>
      rows[k] == MatchOf(normalize, first, i, urls[k], id + k)
    ensures rows == RowsFor(normalize, first, i, urls, id)
  {}

  method UrlRows(normalize: string -> string, first: nat, i: nat, urls: seq<string>, p: Product, v: Variant, id: nat)
    returns (rows: seq<Match>)
    requires p.id == ProductId(first, i) && v.id == VariantId(first, i)
    ensures rows == RowsFor(normalize, first, i, urls, id)
  {
    rows := [];
    for u := 0 to |urls|
      invariant |rows| == u && forall k :: 0 <= k < u ==> rows[k] == MatchOf(normalize, first, i, urls[k], id + k)
    {
      rows := rows + [MatchRow(normalize, first, first + 1, p, v, urls[u], id + u)];
    }
    RowsForAre(normalize, first, i, urls, id, rows);
  }

  /** The inserts of one workspace, chunk by chunk. */
  method WriteStore(a: Args, index: nat, first: nat, counts: Counts) returns (s: Store, counts': Counts, nextId: nat)
    requires ValidPlan(a.plan)
    ensures s == BuildStore(a, index, first) && nextId > s.rule.id
    ensures counts' == OneMore(a.plan, counts)
  {
    var products, variants := ProductRows(a, StoreName(index), first);
    var productTable, p := InsertChunked(products, INSERT_CHUNK, counts.products);
    var variantTable, v := InsertChunked(variants, INSERT_CHUNK, counts.variants);
    var rows := MatchRows(a, StoreName(index), first, products, variants, FirstMatchId(a, first));
    var matchTable, m := InsertChunked(rows, INSERT_CHUNK, counts.matches);
    s := StoreOf(a, index, first, productTable, variantTable, matchTable);
    counts' := Counts(p, v, m);
    nextId := s.rule.id + 1;
    BuiltSizes(a, index, first);
  }

  datatype Counts = Counts(products: int, variants: int, matches: int)

  datatype SeedResult = SeedResult(workspaces: nat, counts: Counts, skipped: seq<string>)

  // ----- content up to ids

  datatype VariantView = VariantView(productSku: string, sku: string, cents: int)

  datatype MatchView = MatchView(productSku: string, variantSku: string, url: string, normalized: string)

  datatype StoreView = StoreView(
    name: nat, domain: string, products: seq<(string, string)>, variants: seq<VariantView>, matches: seq<MatchView>,
    nextRunAt: int)

  function SkuOfProduct(products: seq<Product>, id: nat): string {
    if products == [] then "" else if products[0].id == id then products[0].sku else SkuOfProduct(products[1..], id)
  }

  function SkuOfVariant(variants: seq<Variant>, id: nat): string {
    if variants == [] then "" else if variants[0].id == id then variants[0].sku else SkuOfVariant(variants[1..], id)
  }

  function ViewProducts(products: seq<Product>): seq<(string, string)> {
    seq(|products|, i requires 0 <= i < |products| => (products[i].sku, products[i].title))
  }

  function ViewVariants(products: seq<Product>, variants: seq<Variant>): seq<VariantView> {
    seq(|variants|, i requires 0 <= i < |variants| =>
      VariantView(SkuOfProduct(products, variants[i].productId), variants[i].sku, variants[i].cents))
  }

  /** A store with every id resolved to what it names. */
  function View(s: Store): StoreView {
    StoreView(
      s.name, s.competitor.domain, ViewProducts(s.products), ViewVariants(s.products, s.variants),
      ViewMatches(s.products, s.variants, s.matches),
      s.rule.nextRunAt)
  }

  function ViewMatch(products: seq<Product>, variants: seq<Variant>, m: Match): MatchView {
    MatchView(SkuOfProduct(products, m.productId), SkuOfVariant(variants, m.variantId), m.url, m.normalized)
  }

  function ViewMatches(products: seq<Product>, variants: seq<Variant>, ms: seq<Match>): seq<MatchView> {
    seq(|ms|, i requires 0 <= i < |ms| => ViewMatch(products, variants, ms[i]))
  }

  function ViewsOf(normalize: string -> string, sku: string, urls: seq<string>): seq<MatchView> {
    seq(|urls|, u requires 0 <= u < |urls| => MatchView(sku, sku, urls[u], normalize(urls[u])))
  }

  function ExpectedMatches(a: Args, store: string, extras: set<nat>, n: nat): seq<MatchView> {
    if n == 0 then []
    else
      ExpectedMatches(a, store, extras, n - 1)
      + ViewsOf(Normalizer(a), Sku(n), UrlsFor(a.base, store, n - 1, n - 1 in extras))
  }

  function ExpectedProducts(a: Args, store: string, n: nat): seq<(string, string)> {
    seq(n, i requires 0 <= i < n => (Sku(i + 1), store + " product " + Sku(i + 1)))
  }

  function ExpectedVariants(a: Args, store: string, n: nat): seq<VariantView> {
    seq(n, i requires 0 <= i < n => VariantView(Sku(i + 1), Sku(i + 1), Cents(a.draw, store, Sku(i + 1))))
  }

  function Assemble(
      a: Args, index: nat, products: seq<(string, string)>, variants: seq<VariantView>,
      matches: seq<MatchView>): StoreView {
    StoreView(index, a.domain, products, variants, matches, a.anchor + index * a.spacing)
  }

  /** The content of one store: a function of the arguments and the store's index alone. */
  function Expected(a: Args, index: nat): StoreView
    requires ValidPlan(a.plan)
  {
    var n := a.plan.products;
    Assemble(a, index, ExpectedProducts(a, StoreName(index), n), ExpectedVariants(a, StoreName(index), n),
             ExpectedMatches(a, StoreName(index), ExtraIndexes(a.draw, StoreName(index), a.plan), n))
  }

  lemma {:induction false} ProductResolves(products: seq<Product>, i: nat)
    requires i < |products| && forall j, k :: 0 <= j < k < |products| ==> products[j].id != products[k].id
    ensures SkuOfProduct(products, products[i].id) == products[i].sku
  {
    if i > 0 { ProductResolves(products[1..], i - 1); }
  }

  lemma {:induction false} VariantResolves(variants: seq<Variant>, i: nat)
    requires i < |variants| && forall j, k :: 0 <= j < k < |variants| ==> variants[j].id != variants[k].id
    ensures SkuOfVariant(variants, variants[i].id) == variants[i].sku
  {
    if i > 0 { VariantResolves(variants[1..], i - 1); }
  }

  lemma Resolved(a: Args, store: string, first: nat, n: nat, i: nat)
    requires i < n
    ensures SkuOfProduct(BuiltProducts(a, store, first, n), ProductId(first, i)) == Sku(i + 1)
    ensures SkuOfVariant(BuiltVariants(a, store, first, n), VariantId(first, i)) == Sku(i + 1)
  {
    ProductResolves(BuiltProducts(a, store, first, n), i);
    VariantResolves(BuiltVariants(a, store, first, n), i);
  }

  lemma ViewMatchesAppend(products: seq<Product>, variants: seq<Variant>, a: seq<Match>, b: seq<Match>)
    ensures ViewMatches(products, variants, a + b) ==
      ViewMatches(products, variants, a) + ViewMatches(products, variants, b)
  {}

  /** The ids of the product and the variant at `i` lead back to its SKU. */
  predicate Resolves(products: seq<Product>, variants: seq<Variant>, first: nat, i: nat) {
    && SkuOfProduct(products, ProductId(first, i)) == Sku(i + 1)
    && SkuOfVariant(variants, VariantId(first, i)) == Sku(i + 1)
  }

  lemma RowsView(normalize: string -> string, first: nat, products: seq<Product>, variants: seq<Variant>, i: nat,
                 sku: string, urls: seq<string>, id: nat)
    requires SkuOfProduct(products, ProductId(first, i)) == SkuOfVariant(variants, VariantId(first, i)) == sku
    ensures ViewMatches(products, variants, RowsFor(normalize, first, i, urls, id)) == ViewsOf(normalize, sku, urls)
  {
    var rows, views := RowsFor(normalize, first, i, urls, id), ViewsOf(normalize, sku, urls);
    forall u | 0 <= u < |rows|
      ensures ViewMatch(products, variants, rows[u]) == views[u]
    {}
  }

  lemma MatchesViewStep(
      normalize: string -> string, first: nat, products: seq<Product>, variants: seq<Variant>, before: seq<Match>,
      i: nat, sku: string, urls: seq<string>, id: nat)
    requires SkuOfProduct(products, ProductId(first, i)) == SkuOfVariant(variants, VariantId(first, i)) == sku
    ensures ViewMatches(products, variants, WithMatches(normalize, first, before, i, urls, id)) ==
      ViewMatches(products, variants, before) + ViewsOf(normalize, sku, urls)
  {
    RowsView(normalize, first, products, variants, i, sku, urls, id + |before|);
    ViewMatchesAppend(products, variants, before, RowsFor(normalize, first, i, urls, id + |before|));
  }

  lemma {:induction false} MatchesView(
      a: Args, store: string, first: nat, products: seq<Product>, variants: seq<Variant>, extras: set<nat>, k: nat,
      id: nat)
    requires forall i: nat :: i < k ==> Resolves(products, variants, first, i)
    ensures ViewMatches(products, variants, BuiltMatches(a, store, first, extras, k, id)) ==
      ExpectedMatches(a, store, extras, k)
  {
    if k > 0 {
      MatchesView(a, store, first, products, variants, extras, k - 1, id);
      assert Resolves(products, variants, first, k - 1);
      MatchesViewStep(Normalizer(a), first, products, variants, BuiltMatches(a, store, first, extras, k - 1, id),
                      k - 1, Sku(k),
                      UrlsFor(a.base, store, k - 1, k - 1 in extras), id);
    }
  }

  lemma ProductsView(a: Args, store: string, first: nat, n: nat)
    ensures ViewProducts(BuiltProducts(a, store, first, n)) == ExpectedProducts(a, store, n)
  {}

  lemma VariantsView(a: Args, store: string, first: nat, n: nat)
    ensures ViewVariants(BuiltProducts(a, store, first, n), BuiltVariants(a, store, first, n)) ==
      ExpectedVariants(a, store, n)
  {
    var products, variants := BuiltProducts(a, store, first, n), BuiltVariants(a, store, first, n);
    forall i | 0 <= i < n
      ensures SkuOfProduct(products, variants[i].productId) == Sku(i + 1)
    {
      Resolved(a, store, first, n, i);
    }
  }

  lemma ViewOfStore(a: Args, index: nat, first: nat, products: seq<Product>, variants: seq<Variant>,
                    matches: seq<Match>)
    requires ValidPlan(a.plan)
    ensures View(StoreOf(a, index, first, products, variants, matches)) ==
      Assemble(a, index, ViewProducts(products), ViewVariants(products, variants),
               ViewMatches(products, variants, matches))
  {}

  lemma PartsAreExpected(a: Args, store: string, first: nat, n: nat, id: nat, extras: set<nat>)
    ensures var products, variants := BuiltProducts(a, store, first, n), BuiltVariants(a, store, first, n);
      && ViewProducts(products) == ExpectedProducts(a, store, n)
      && ViewVariants(products, variants) == ExpectedVariants(a, store, n)
      && ViewMatches(products, variants, BuiltMatches(a, store, first, extras, n, id)) ==
        ExpectedMatches(a, store, extras, n)
  {
    ProductsView(a, store, first, n);
    VariantsView(a, store, first, n);
    forall i: nat | i < n
      ensures Resolves(BuiltProducts(a, store, first, n), BuiltVariants(a, store, first, n), first, i)
    {
      Resolved(a, store, first, n, i);
    }
    MatchesView(a, store, first, BuiltProducts(a, store, first, n), BuiltVariants(a, store, first, n), extras, n, id);
  }

  /** Whatever ids it mints, a transaction writes the expected content. */
  lemma BuiltIsExpected(a: Args, index: nat, first: nat)
    requires ValidPlan(a.plan)
    ensures View(BuildStore(a, index, first)) == Expected(a, index)
  {
    var n: nat, store, id := a.plan.products, StoreName(index), FirstMatchId(a, first);
    var extras := ExtraIndexes(a.draw, store, a.plan);
    PartsAreExpected(a, store, first, n, id, extras);
    ViewOfStore(a, index, first, BuiltProducts(a, store, first, n), BuiltVariants(a, store, first, n),
                BuiltMatches(a, store, first, extras, n, id));
  }

  // ----- the plan

  /** A plan is made exactly when every product has a match on average and, after rounding, at most two; the documented
      limit of a ratio of two is off by the rounding. */
  lemma PlannedExactly(stores: int, products: int, ratio: real)
    ensures BuildPlan(stores, products, ratio).Planned? <==>
      stores >= 1 && products >= 1 && ratio >= 1.0 && Offered(products, ratio) <= (2 * products) as real + 0.5
    ensures BuildPlan(stores, products, ratio).Planned? ==>
      var p := BuildPlan(stores, products, ratio).plan;
      && ValidPlan(p) && p.stores == stores && p.products == products
      && Offered(products, ratio) - 0.5 <= p.matches as real <= Offered(products, ratio) + 0.5
  {
    if products >= 1 && ratio >= 1.0 {
      OfferedIsEnough(products, ratio);
      HalfEvenMonotone(products as real, Offered(products, ratio));
      HalfEvenOfInteger(products);
      HalfEvenIsNearest(Offered(products, ratio));
      RoundsToAtMost(Offered(products, ratio), products);
    }
  }

  lemma OfferedIsEnough(products: int, ratio: real)
    requires products >= 0 && ratio >= 1.0
    ensures Offered(products, ratio) >= products as real
  {
    assert Offered(products, ratio) - products as real == products as real * (ratio - 1.0);
  }

  lemma RoundsToAtMost(y: real, n: int)
    ensures RoundHalfEven(y) - n > n <==> y > (2 * n) as real + 0.5
  {}

  // ----- names

  lemma PaddedInjective(m: nat, n: nat, width: nat)
    requires Padded(m, width) == Padded(n, width)
    ensures m == n
  {
    ValueOfPadded(m, width);
    ValueOfPadded(n, width);
  }

  lemma SlugInjective(prefix: string, i: nat, j: nat)
    requires Slug(prefix, i) == Slug(prefix, j)
    ensures i == j
  {
    assert Slug(prefix, i)[|prefix| + 1..] == Padded(i, 3);
    assert Slug(prefix, j)[|prefix| + 1..] == Padded(j, 3);
    PaddedInjective(i, j, 3);
  }

  lemma SkuInjective(m: int, n: int)
    requires Sku(m) == Sku(n)
    ensures m == n
  {
    assert IsDigit(Sku(m)[1]) <==> m >= 0;
    assert IsDigit(Sku(n)[1]) <==> n >= 0;
    if m >= 0 {
      assert Sku(m)[1..] == Padded(m, 6) && Sku(n)[1..] == Padded(n, 6);
      PaddedInjective(m, n, 6);
    } else {
      assert Sku(m)[2..] == Padded(-m, 5) && Sku(n)[2..] == Padded(-n, 5);
      PaddedInjective(-m, -n, 5);
    }
  }

  /** The second SKU of product `i` names product `j`. */
  predicate Collides(i: nat, j: nat) {
    Sku(500000 - i) == Sku(j + 1)
  }

  /** No second SKU can name a product of the store exactly as long as the store has at most 250,000 products. */
  lemma SecondariesMissPrimariesExactly(products: nat)
    ensures (forall i: nat, j: nat :: i < products && j < products ==> !Collides(i, j)) <==> products <= 250000
  {
    if products <= 250000 {
      forall i: nat, j: nat | i < products && j < products
        ensures !Collides(i, j)
      {
        if Collides(i, j) { SkuInjective(500000 - i, j + 1); }
      }
    } else {
      assert Collides(250000, 249999);
    }
  }

  /** The two URLs of one product differ whatever the names. */
  lemma UrlsDiffer(base: string, store: string, i: nat)
    ensures Trimmed(base) + PrimaryPath(store, i) != Trimmed(base) + SecondaryPath(store, i)
  {
    SecondCharacter("/p/", store, Sku(i + 1));
    SecondCharacter("/api/p/", store, Sku(500000 - i));
    SuffixesDiffer(Trimmed(base), PrimaryPath(store, i), SecondaryPath(store, i));
  }

  lemma SecondCharacter(kind: string, store: string, sku: string)
    requires |kind| > 1
    ensures |PathOf(kind, store, sku)| > 1 && PathOf(kind, store, sku)[1] == kind[1]
  {}

  predicate IsPlain(c: char) { 'a' <= c <= 'z' || IsDigit(c) || c == '-' || c == '/' }

  predicate AllPlain(s: string) {
    forall i :: 0 <= i < |s| ==> IsPlain(s[i])
  }

  lemma PlainAppend(s: string, t: string)
    requires AllPlain(s) && AllPlain(t)
    ensures AllPlain(s + t)
  {}

  lemma DigitsArePlain(s: string)
    requires AllDigits(s)
    ensures AllPlain(s)
  {
    forall i | 0 <= i < |s| ensures IsPlain(s[i]) { assert IsDigit(s[i]); }
  }

  lemma NamesArePlain(index: nat, number: int)
    ensures AllPlain(StoreName(index)) && IsName(Sku(number))
  {
    DigitsArePlain(Padded(index, 3));
    PlainAppend("fleet-", Padded(index, 3));
    var digits := if number >= 0 then Padded(number, 6) else Padded(-number, 5);
    DigitsArePlain(digits);
    assert IsDigit(digits[|digits| - 1]);
    PlainAppend(if number >= 0 then "p" else "p-", digits);
  }

  /** What the seeder puts behind a base is a path that means nothing else to the URL parser. */
  lemma PlainPathIsSuffix(first: string, rest: string)
    requires first != [] && AllLower(first) && AllPlain(rest) && rest != [] && rest[|rest| - 1] != '/'
    ensures IsPathSuffix("/" + first + "/" + rest)
  {
    var x := "/" + first + "/" + rest;
    assert x[1..] == first + ("/" + rest);
    FindNone(first, EndsNetloc);
    FindAppend(first, "/" + rest, EndsNetloc);
    assert Segment(x) == first;
    assert x[1] == first[0] && x[|x| - 1] == rest[|rest| - 1];
    forall i | 0 <= i < |x|
      ensures IsPlain(x[i])
    {
      if 1 <= i <= |first| { assert x[i] == first[i - 1]; }
      if i > |first| + 1 { assert x[i] == rest[i - |first| - 2]; }
    }
  }

  lemma PathIsSuffix(first: string, middle: string, last: string)
    requires first != [] && AllLower(first) && AllPlain(middle) && AllPlain(last) && last != []
      && last[|last| - 1] != '/'
    ensures IsPathSuffix("/" + first + "/" + middle + "/" + last)
  {
    var rest := middle + "/" + last;
    PlainAppend(middle, "/");
    PlainAppend(middle + "/", last);
    assert rest[|rest| - 1] == last[|last| - 1];
    PlainPathIsSuffix(first, rest);
    assert "/" + first + "/" + rest == "/" + first + "/" + middle + "/" + last;
  }

  predicate IsName(s: string) { AllPlain(s) && s != [] && s[|s| - 1] != '/' }

  lemma PathsAreSuffixes(store: string, sku: string)
    requires AllPlain(store) && IsName(sku)
    ensures IsPathSuffix(PathOf("/p/", store, sku)) && IsPathSuffix(PathOf("/api/p/", store, sku))
  {
    PlainAppend("p/", store);
    PathIsSuffix("p", store, sku);
    PathIsSuffix("api", "p/" + store, sku);
    assert "/" + "p" + "/" + store + "/" + sku == PathOf("/p/", store, sku);
    assert "/" + "api" + "/" + ("p/" + store) + "/" + sku == PathOf("/api/p/", store, sku);
  }

  /** A page and an endpoint below one base have the same identity exactly when the base holds a fragment. */
  lemma PageAndEndpointCollide(authority: Authority, base: string, store: string, sku: string, other: string)
    requires AllPlain(store) && IsName(sku) && IsName(other)
    ensures NormalizeUrl(authority, base + PathOf("/p/", store, sku)) ==
      NormalizeUrl(authority, base + PathOf("/api/p/", store, other))
      <==> '#' in base
  {
    PathsAreSuffixes(store, sku);
    PathsAreSuffixes(store, other);
    SecondCharacter("/p/", store, sku);
    SecondCharacter("/api/p/", store, other);
    CollideExactly(authority, base, PathOf("/p/", store, sku), PathOf("/api/p/", store, other));
  }

  // ----- the extra matches

  lemma DrawsAreOrdered(draw: Draw, store: string, s: seq<nat>)
    ensures TotalPreorderOn(DrawsBefore(draw, store), s) && AntisymmetricOn(DrawsBefore(draw, store), s)
  {}

  lemma RankedIsPermutation(draw: Draw, store: string, products: nat)
    ensures var r := RankedProducts(draw, store, products);
      |r| == products && Distinct(r) && forall i: nat :: i in r <==> i < products
  {
    var r, u := RankedProducts(draw, store, products), UpTo(products);
    SameElements(r, u);
    DistinctCounts(u);
    CountsDistinct(r);
    forall i: nat ensures i in u <==> i < products {
      if i < products { assert u[i] == i; }
    }
  }

  lemma PrefixIsLowest<T>(leq: (T, T) -> bool, r: seq<T>, k: nat, x: T, y: T)
    requires SortedBy(leq, r) && k <= |r| && x in r[..k] && y in r && y !in r[..k]
    ensures leq(x, y) && x != y
  {
    assert forall t :: 0 <= t < k ==> r[t] in r[..k];
    var p :| 0 <= p < k && r[p] == x;
    var q :| 0 <= q < |r| && r[q] == y;
  }

  /** Exactly `extra` products carry a second match, and they are the ones with the lowest draws, ties by index. */
  lemma ExtraIndexesAreLowest(draw: Draw, store: string, plan: Plan)
    requires ValidPlan(plan)
    ensures var e := ExtraIndexes(draw, store, plan);
      && |e| == plan.extra && (forall i :: i in e ==> i < plan.products)
      && forall i: nat, j: nat :: i in e && j < plan.products && j !in e ==> DrawsBefore(draw, store)(i, j) && i != j
  {
    var r := RankedProducts(draw, store, plan.products);
    RankedIsPermutation(draw, store, plan.products);
    DrawsAreOrdered(draw, store, UpTo(plan.products));
    SortSorts(DrawsBefore(draw, store), UpTo(plan.products));
    PrefixIsDistinct(r, plan.extra);
    DistinctSetSize(r[..plan.extra]);
    forall i: nat, j: nat | i in r[..plan.extra] && j < plan.products && j !in r[..plan.extra]
      ensures DrawsBefore(draw, store)(i, j) && i != j
    {
      PrefixIsLowest(DrawsBefore(draw, store), r, plan.extra, i, j);
    }
  }

  function Below(e: set<nat>, n: nat): set<nat> {
    set i | i in e && i < n
  }

  lemma BelowStep(e: set<nat>, n: nat)
    ensures |Below(e, n + 1)| == |Below(e, n)| + if n in e then 1 else 0
  {
    if n in e {
      assert Below(e, n + 1) == Below(e, n) + {n};
    } else {
      assert Below(e, n + 1) == Below(e, n);
    }
  }

  lemma {:induction false} MatchCount(a: Args, store: string, extras: set<nat>, n: nat)
    ensures |ExpectedMatches(a, store, extras, n)| == n + |Below(extras, n)|
  {
    if n == 0 {
      assert Below(extras, 0) == {};
    } else {
      MatchCount(a, store, extras, n - 1);
      BelowStep(extras, n - 1);
    }
  }

  /** Every store gets exactly the planned number of products, variants and matches. */
  lemma StoreSizes(a: Args, index: nat)
    requires ValidPlan(a.plan)
    ensures var v := Expected(a, index);
      |v.products| == |v.variants| == a.plan.products && |v.matches| == a.plan.matches
  {
    var extras := ExtraIndexes(a.draw, StoreName(index), a.plan);
    ExtraIndexesAreLowest(a.draw, StoreName(index), a.plan);
    MatchCount(a, StoreName(index), extras, a.plan.products);
    assert Below(extras, a.plan.products) == extras;
  }

  lemma BuiltSizes(a: Args, index: nat, first: nat)
    requires ValidPlan(a.plan)
    ensures var s := BuildStore(a, index, first);
      |s.products| == |s.variants| == a.plan.products && |s.matches| == a.plan.matches
  {
    var s := BuildStore(a, index, first);
    BuiltIsExpected(a, index, first);
    StoreSizes(a, index);
    assert |View(s).matches| == |s.matches|;
  }

  // ----- the rows of a store

  /** A SKU is a `p` and its number in at least six digits; a slug is the prefix, a dash and the index in at least
      three. Both can be read back. */
  lemma NamesRead(number: nat, prefix: string, index: nat)
    ensures var sku := Sku(number);
      |sku| >= 7 && sku[0] == 'p' && AllDigits(sku[1..]) && Value(sku[1..]) == number
    ensures var (slug, n) := (Slug(prefix, index), |prefix|);
      && |slug| >= n + 4 && slug[..n] == prefix && slug[n] == '-'
      && AllDigits(slug[n + 1..]) && Value(slug[n + 1..]) == index
  {
    assert Sku(number)[1..] == Padded(number, 6);
    assert Slug(prefix, index)[|prefix| + 1..] == Padded(index, 3);
    assert Slug(prefix, index)[..|prefix|] == prefix;
    ValueOfPadded(number, 6);
    ValueOfPadded(index, 3);
  }

  /** The base loses its slashes at the end and nothing else. */
  lemma {:induction false} TrimmedExactly(base: string)
    ensures Trimmed(base) <= base && (Trimmed(base) == [] || Trimmed(base)[|Trimmed(base)| - 1] != '/')
    ensures forall i :: |Trimmed(base)| <= i < |base| ==> base[i] == '/'
  {
    if base != [] && base[|base| - 1] == '/' { TrimmedExactly(base[..|base| - 1]); }
  }

  /** The page of product `i` carries the product's own SKU; its endpoint, if it has one, that of a far-away number. */
  predicate IsAddress(url: string, base: string, store: string, sku: string, i: nat, extra: bool) {
    || url == base + ("/p/" + store + "/" + sku)
    || (extra && url == base + ("/api/p/" + store + "/" + Sku(500000 - i)))
  }

  /** A match of product `i`, which product and variant name alike, at one of its addresses. */
  predicate IsMatchOf(v: MatchView, a: Args, store: string, i: nat, extra: bool) {
    && v.productSku == v.variantSku == Sku(i + 1) && v.normalized == NormalizeUrl(a.authority, v.url)
    && IsAddress(v.url, Trimmed(a.base), store, v.productSku, i, extra)
  }

  lemma UrlsAre(base: string, store: string, i: nat, extra: bool, url: string)
    ensures url in UrlsFor(base, store, i, extra) <==> IsAddress(url, Trimmed(base), store, Sku(i + 1), i, extra)
  {}

  lemma ViewsOfAre(normalize: string -> string, sku: string, urls: seq<string>, v: MatchView)
    ensures v in ViewsOf(normalize, sku, urls) <==> v.url in urls && v == MatchView(sku, sku, v.url, normalize(v.url))
  {
    var views := ViewsOf(normalize, sku, urls);
    if v.url in urls && v == MatchView(sku, sku, v.url, normalize(v.url)) {
      var u :| 0 <= u < |urls| && urls[u] == v.url;
      assert views[u] == v;
    }
  }

  lemma MatchesOfProduct(a: Args, store: string, i: nat, extra: bool, v: MatchView)
    ensures v in ViewsOf(Normalizer(a), Sku(i + 1), UrlsFor(a.base, store, i, extra)) <==>
      IsMatchOf(v, a, store, i, extra)
  {
    ViewsOfAre(Normalizer(a), Sku(i + 1), UrlsFor(a.base, store, i, extra), v);
    UrlsAre(a.base, store, i, extra, v.url);
  }

  function MatchesAt(a: Args, store: string, extras: set<nat>, i: nat): seq<MatchView> {
    ViewsOf(Normalizer(a), Sku(i + 1), UrlsFor(a.base, store, i, i in extras))
  }

  function MatchesUpTo(a: Args, store: string, extras: set<nat>, n: nat): seq<seq<MatchView>> {
    seq(n, i requires 0 <= i < n => MatchesAt(a, store, extras, i))
  }

  lemma MatchesGrow(a: Args, store: string, extras: set<nat>, n: nat)
    ensures ExpectedMatches(a, store, extras, n + 1)
         == ExpectedMatches(a, store, extras, n) + MatchesAt(a, store, extras, n)
    ensures MatchesUpTo(a, store, extras, n + 1) == MatchesUpTo(a, store, extras, n) + [MatchesAt(a, store, extras, n)]
  {}

  lemma {:induction false} MatchesAreFlat(a: Args, store: string, extras: set<nat>, n: nat)
    ensures ExpectedMatches(a, store, extras, n) == Flatten(MatchesUpTo(a, store, extras, n))
  {
    if n > 0 {
      MatchesAreFlat(a, store, extras, n - 1);
      MatchesGrow(a, store, extras, n - 1);
      FlattenOne(MatchesUpTo(a, store, extras, n - 1), MatchesAt(a, store, extras, n - 1));
    }
  }

  lemma {:induction false} InFlatten<T>(batches: seq<seq<T>>, x: T)
    ensures x in Flatten(batches) <==> exists b :: 0 <= b < |batches| && x in batches[b]
  {
    if batches != [] {
      var init := batches[..|batches| - 1];
      InFlatten(init, x);
      if b :| 0 <= b < |init| && x in init[b] { assert x in batches[b]; }
    }
  }

  lemma InSomeBatch<T>(batches: seq<seq<T>>, i: nat, batch: seq<T>, x: T)
    requires i < |batches| && batches[i] == batch && x in batch
    ensures x in Flatten(batches)
  {
    InFlatten(batches, x);
  }

  lemma StoreMatches(a: Args, index: nat, store: string, extras: set<nat>)
    requires ValidPlan(a.plan) && store == Slug("fleet", index) && extras == ExtraIndexes(a.draw, store, a.plan)
    ensures Expected(a, index).matches == Flatten(MatchesUpTo(a, store, extras, a.plan.products))
  {
    MatchesAreFlat(a, store, extras, a.plan.products);
  }

  /** Products are numbered from one, each with one variant under its SKU, priced from 9.99 by the draw, and the store's
      refresh starts `index` spacings after the anchor. */
  lemma RowsExactly(a: Args, index: nat, i: nat)
    requires ValidPlan(a.plan) && i < a.plan.products
    ensures var (v, store, sku) := (Expected(a, index), Slug("fleet", index), Sku(i + 1));
      && v.name == index && v.domain == a.domain && v.nextRunAt == a.anchor + index * a.spacing
      && |v.products| == |v.variants| == a.plan.products
      && v.products[i] == (sku, store + " product " + sku)
      && v.variants[i].productSku == v.variants[i].sku == sku
      && var cents := v.variants[i].cents;
         (cents - 999) as real <= a.draw("price", store, sku) * 200000.0 < (cents - 998) as real
  {}

  /** Every match of a store is the page of one of its products or, for one of the planned extra ones, its endpoint. */
  lemma MatchIsOfProduct(a: Args, index: nat, store: string, extras: set<nat>, v: MatchView) returns (i: nat)
    requires ValidPlan(a.plan) && store == Slug("fleet", index) && extras == ExtraIndexes(a.draw, store, a.plan)
    requires v in Expected(a, index).matches
    ensures i < a.plan.products && IsMatchOf(v, a, store, i, i in extras)
  {
    var batches := MatchesUpTo(a, store, extras, a.plan.products);
    StoreMatches(a, index, store, extras);
    InFlatten(batches, v);
    i :| 0 <= i < |batches| && v in batches[i];
    MatchesOfProduct(a, store, i, i in extras, v);
  }

  /** And every page, and every planned endpoint, is there. */
  lemma ProductHasMatch(a: Args, index: nat, store: string, extras: set<nat>, v: MatchView, i: nat)
    requires ValidPlan(a.plan) && store == Slug("fleet", index) && extras == ExtraIndexes(a.draw, store, a.plan)
    requires i < a.plan.products && IsMatchOf(v, a, store, i, i in extras)
    ensures v in Expected(a, index).matches
  {
    StoreMatches(a, index, store, extras);
    MatchesOfProduct(a, store, i, i in extras, v);
    InSomeBatch(MatchesUpTo(a, store, extras, a.plan.products), i, MatchesAt(a, store, extras, i), v);
  }

  // ----- the match key

  /** What a caller can look up before the run: one match for every product, or a base without a fragment. */
  predicate KeepsApart(a: Args) {
    a.plan.extra == 0 || '#' !in a.base
  }

  /** And a base whose port, if it has one, can be read. */
  predicate Fits(a: Args) {
    KeepsApart(a) && ReadableBase(a.portReads, Trimmed(a.base))
  }

  lemma {:induction false} TrimmedKeeps(base: string, c: char)
    requires c != '/'
    ensures c in Trimmed(base) <==> c in base
  {
    if base != [] && base[|base| - 1] == '/' {
      TrimmedKeeps(base[..|base| - 1], c);
      assert base == base[..|base| - 1] + [base[|base| - 1]];
    }
  }

  predicate SameKey(m: Match, n: Match) {
    m.workspaceId == n.workspaceId && m.variantId == n.variantId && m.competitorId == n.competitorId
    && m.normalized == n.normalized
  }

  /** The unique key of the matches table. */
  predicate KeysDistinct(ms: seq<Match>) {
    forall i, j :: 0 <= i < j < |ms| ==> !SameKey(ms[i], ms[j])
  }

  ghost predicate VariantsBelow(ms: seq<Match>, bound: nat) {
    forall i :: 0 <= i < |ms| ==> ms[i].variantId < bound
  }

  ghost predicate OfVariant(rows: seq<Match>, variant: nat) {
    forall i :: 0 <= i < |rows| ==> rows[i].variantId == variant
  }

  lemma JoinedBelow(before: seq<Match>, rows: seq<Match>, variant: nat)
    requires VariantsBelow(before, variant) && OfVariant(rows, variant)
    ensures VariantsBelow(before + rows, variant + 2)
  {}

  lemma JoinedKeys(before: seq<Match>, rows: seq<Match>, variant: nat)
    requires VariantsBelow(before, variant) && OfVariant(rows, variant)
    ensures KeysDistinct(before + rows) <==> KeysDistinct(before) && KeysDistinct(rows)
  {
    var all := before + rows;
    assert forall i :: 0 <= i < |before| ==> all[i] == before[i];
    assert forall i :: 0 <= i < |rows| ==> rows[i] == all[|before| + i];
  }

  lemma RowsHaveVariant(normalize: string -> string, first: nat, i: nat, urls: seq<string>, id: nat)
    ensures OfVariant(RowsFor(normalize, first, i, urls, id), VariantId(first, i))
  {}

  predicate UrlsApart(normalize: string -> string, urls: seq<string>) {
    forall u, v :: 0 <= u < v < |urls| ==> normalize(urls[u]) != normalize(urls[v])
  }

  lemma RowsHaveKeys(normalize: string -> string, first: nat, i: nat, urls: seq<string>, id: nat)
    ensures KeysDistinct(RowsFor(normalize, first, i, urls, id)) <==> UrlsApart(normalize, urls)
  {
    var rows := RowsFor(normalize, first, i, urls, id);
    forall u, v | 0 <= u < v < |urls|
      ensures SameKey(rows[u], rows[v]) <==> normalize(urls[u]) == normalize(urls[v])
    {}
  }

  lemma KeysStep(normalize: string -> string, first: nat, before: seq<Match>, i: nat, urls: seq<string>, id: nat)
    requires VariantsBelow(before, VariantId(first, i))
    ensures KeysDistinct(WithMatches(normalize, first, before, i, urls, id)) <==>
      KeysDistinct(before) && UrlsApart(normalize, urls)
  {
    RowsHaveVariant(normalize, first, i, urls, id + |before|);
    RowsHaveKeys(normalize, first, i, urls, id + |before|);
    JoinedKeys(before, RowsFor(normalize, first, i, urls, id + |before|), VariantId(first, i));
  }

  lemma VariantsStepUp(normalize: string -> string, first: nat, before: seq<Match>, i: nat, urls: seq<string>, id: nat)
    requires VariantsBelow(before, VariantId(first, i))
    ensures VariantsBelow(WithMatches(normalize, first, before, i, urls, id), VariantId(first, i + 1))
  {
    RowsHaveVariant(normalize, first, i, urls, id + |before|);
    JoinedBelow(before, RowsFor(normalize, first, i, urls, id + |before|), VariantId(first, i));
  }

  lemma UrlsApartExactly(a: Args, index: nat, i: nat, extra: bool)
    ensures UrlsApart(Normalizer(a), UrlsFor(a.base, StoreName(index), i, extra)) <==> extra ==> '#' !in a.base
  {
    PathsCollide(a, index, i);
    var t := Trimmed(a.base);
    TwoApart(Normalizer(a), t + PrimaryPath(StoreName(index), i), t + SecondaryPath(StoreName(index), i));
  }

  lemma PathsCollide(a: Args, index: nat, i: nat)
    ensures var t := Trimmed(a.base);
      Normalizer(a)(t + PrimaryPath(StoreName(index), i)) == Normalizer(a)(t + SecondaryPath(StoreName(index), i)) <==>
          '#' in a.base
  {
    NamesArePlain(index, i + 1);
    NamesArePlain(index, 500000 - i);
    PageAndEndpointCollide(a.authority, Trimmed(a.base), StoreName(index), Sku(i + 1), Sku(500000 - i));
    TrimmedKeeps(a.base, '#');
  }

  lemma TwoApart(normalize: string -> string, u: string, v: string)
    ensures UrlsApart(normalize, [u] + [v]) <==> normalize(u) != normalize(v)
    ensures UrlsApart(normalize, [u] + [])
  {
    assert ([u] + [v])[0] == u && ([u] + [v])[1] == v;
  }

  lemma {:induction false} BuiltVariantsBelow(a: Args, store: string, first: nat, extras: set<nat>, n: nat, id: nat)
    ensures VariantsBelow(BuiltMatches(a, store, first, extras, n, id), VariantId(first, n))
  {
    if n > 0 {
      BuiltVariantsBelow(a, store, first, extras, n - 1, id);
      VariantsStepUp(Normalizer(a), first, BuiltMatches(a, store, first, extras, n - 1, id), n - 1,
                     UrlsFor(a.base, store, n - 1, n - 1 in extras), id);
    }
  }

  lemma {:induction false} BuiltKeysDistinct(a: Args, index: nat, first: nat, extras: set<nat>, n: nat, id: nat)
    ensures KeysDistinct(BuiltMatches(a, StoreName(index), first, extras, n, id)) <==>
      Below(extras, n) == {} || '#' !in a.base
  {
    if n > 0 {
      var store := StoreName(index);
      BuiltVariantsBelow(a, store, first, extras, n - 1, id);
      BuiltKeysDistinct(a, index, first, extras, n - 1, id);
      KeysStep(Normalizer(a), first, BuiltMatches(a, store, first, extras, n - 1, id), n - 1,
               UrlsFor(a.base, store, n - 1, n - 1 in extras), id);
      UrlsApartExactly(a, index, n - 1, n - 1 in extras);
      NoneBelow(extras, n - 1);
    }
  }

  lemma NoneBelow(extras: set<nat>, n: nat)
    ensures Below(extras, n + 1) == {} <==> Below(extras, n) == {} && n !in extras
  {
    if n in extras { assert n in Below(extras, n + 1); }
    assert forall i :: i in Below(extras, n) ==> i in Below(extras, n + 1);
  }

  /** The port is read for every URL; the first one raises, or none does. */
  lemma UrlsReadable(a: Args, index: nat, i: nat)
    ensures Readable(a.portReads, Trimmed(a.base) + PrimaryPath(StoreName(index), i))
      <==> ReadableBase(a.portReads, Trimmed(a.base))
    ensures Readable(a.portReads, Trimmed(a.base) + SecondaryPath(StoreName(index), i))
      <==> ReadableBase(a.portReads, Trimmed(a.base))
  {
    NamesArePlain(index, i + 1);
    NamesArePlain(index, 500000 - i);
    PathsReadable(a.portReads, Trimmed(a.base), StoreName(index), Sku(i + 1));
    PathsReadable(a.portReads, Trimmed(a.base), StoreName(index), Sku(500000 - i));
  }

  lemma PathsReadable(portReads: string -> bool, base: string, store: string, sku: string)
    requires AllPlain(store) && IsName(sku)
    ensures Readable(portReads, base + PathOf("/p/", store, sku)) <==> ReadableBase(portReads, base)
    ensures Readable(portReads, base + PathOf("/api/p/", store, sku)) <==> ReadableBase(portReads, base)
  {
    PathsAreSuffixes(store, sku);
    ReadableBelow(portReads, base, PathOf("/p/", store, sku));
    ReadableBelow(portReads, base, PathOf("/api/p/", store, sku));
  }

  /** No two matches of a store share the unique key exactly when no product carries a second match or the base has no
      fragment, whatever the host and the ids. */
  lemma MatchKeysDistinctExactly(a: Args, index: nat, first: nat)
    requires ValidPlan(a.plan)
    ensures KeysDistinct(BuildStore(a, index, first).matches) <==> KeepsApart(a)
  {
    var extras := ExtraIndexes(a.draw, StoreName(index), a.plan);
    BuiltKeysDistinct(a, index, first, extras, a.plan.products, FirstMatchId(a, first));
    ExtraIndexesAreLowest(a.draw, StoreName(index), a.plan);
    assert Below(extras, a.plan.products) == extras;
  }

  // ----- a base that is accepted and collides

  const PROBE := "/p/fleet-000/p000001"

  /** `validate_origin_base_url`: `safe` stands for its checks of scheme and host, and there are no others. */
  predicate Accepts(safe: (string, string) -> bool, base: string) {
    IsSafe(safe, SplitUrl(Cleaned(Trimmed(base) + PROBE)))
  }

  predicate IsSafe(safe: (string, string) -> bool, u: Split) {
    (u.scheme == "http" || u.scheme == "https") && u.netloc != "" && safe(u.scheme, u.netloc)
  }

  /** Scheme and host stand in the base itself. */
  predicate NamesHost(base: string) {
    var c := Cleaned(Trimmed(base));
    HasScheme(c) && HasNetloc(AfterScheme(c))
  }

  lemma {:induction false} TrimmedTail(base: string, x: string)
    requires x != [] && x[0] == '#'
    ensures exists z :: IsTail(z) && Trimmed(base + x) == Trimmed(base) + z
    decreases |x|
  {
    if x[|x| - 1] == '/' {
      assert (base + x)[..|base + x| - 1] == base + x[..|x| - 1];
      TrimmedTail(base, x[..|x| - 1]);
    } else {
      assert (base + x)[|base + x| - 1] == x[|x| - 1];
      SlashesBehind(base);
      var z :| Trimmed(base) + z == base && (z != [] ==> z[0] == '/');
      Regrouped(Trimmed(base), z, x);
      assert IsTail(z + x);
    }
  }

  predicate IsTail(z: string) { z != [] && EndsNetloc(z[0]) && !IsBlank(z[0]) }

  lemma {:induction false} SlashesBehind(base: string)
    ensures exists z :: Trimmed(base) + z == base && (z != [] ==> z[0] == '/')
  {
    if base != [] && base[|base| - 1] == '/' {
      var init := base[..|base| - 1];
      SlashesBehind(init);
      var z :| Trimmed(init) + z == init && (z != [] ==> z[0] == '/');
      assert Trimmed(base) + (z + ['/']) == base;
      assert (z + ['/'])[0] == '/';
    } else {
      assert Trimmed(base) + [] == base;
    }
  }

  lemma SafeBehind(safe: (string, string) -> bool, base: string, z: string)
    requires NamesHost(base) && z != [] && EndsNetloc(z[0])
    ensures IsSafe(safe, SplitUrl(Cleaned(Trimmed(base) + z))) <==> IsSafe(safe, SplitUrl(Cleaned(Trimmed(base))))
  {
    CleanedAppend(Trimmed(base), z);
    assert Remaining(z)[0] == z[0];
    HostStays(Cleaned(Trimmed(base)), Remaining(z));
  }

  /** The validator looks at scheme and host alone: whatever fragment is added to an accepted base, it stays
      accepted. */
  lemma FragmentUnseen(safe: (string, string) -> bool, base: string, fragment: string)
    requires Accepts(safe, base) && NamesHost(base)
    ensures Accepts(safe, base + ("#" + fragment))
  {
    TrimmedTail(base, "#" + fragment);
    var z :| IsTail(z) && Trimmed(base + ("#" + fragment)) == Trimmed(base) + z;
    Regrouped(Trimmed(base), z, PROBE);
    SafeBehind(safe, base, PROBE);
    SafeBehind(safe, base, z + PROBE);
  }

  /** So for every accepted base there are accepted ones under which no store with an extra match can be written. */
  lemma AcceptedBaseCollides(safe: (string, string) -> bool, a: Args, fragment: string, index: nat, first: nat)
    requires ValidPlan(a.plan) && a.plan.extra > 0 && Accepts(safe, a.base) && NamesHost(a.base)
    ensures var b := a.(base := a.base + ("#" + fragment));
      Accepts(safe, b.base) && !KeysDistinct(BuildStore(b, index, first).matches)
  {
    var b := a.(base := a.base + ("#" + fragment));
    FragmentUnseen(safe, a.base, fragment);
    MatchKeysDistinctExactly(b, index, first);
    assert b.base[|a.base|] == '#';
  }

  /** A plain origin is accepted, if its host is, with or without a slash behind it. */
  lemma OriginIsAccepted(safe: (string, string) -> bool, scheme: string, host: string)
    requires (scheme == "http" || scheme == "https") && IsOrigin(scheme, host) && host[|host| - 1] != '/'
      && safe(scheme, host)
    ensures var base := scheme + ("://" + host) + "/"; Accepts(safe, base) && NamesHost(base)
  {
    var c := scheme + ("://" + host);
    assert (c + "/")[..|c|] == c && c[|c| - 1] == host[|host| - 1];
    assert Trimmed(c + "/") == c;
    OriginIsClean(scheme, host);
    OriginSplits(scheme, host);
    SafeBehind(safe, c + "/", PROBE);
  }

  /** One input: an origin with a fragment, under any plan that asks for an extra match. */
  lemma FragmentBaseCollides(safe: (string, string) -> bool, a: Args, index: nat, first: nat)
    requires ValidPlan(a.plan) && a.plan.extra > 0 && a.base == "https://fixture.example/#x"
    requires safe("https", "fixture.example")
    ensures Accepts(safe, a.base) && !KeysDistinct(BuildStore(a, index, first).matches)
  {
    OriginIsAccepted(safe, "https", "fixture.example");
    OriginWithFragment();
    var base := "https" + ("://" + "fixture.example") + "/";
    AcceptedBaseCollides(safe, a.(base := base), "x", index, first);
    assert a.(base := base).(base := base + ("#" + "x")) == a;
  }

  lemma OriginWithFragment()
    ensures "https" + ("://" + "fixture.example") + "/" + ("#" + "x") == "https://fixture.example/#x"
  {}

  // ----- runs

  /** What any run, interrupted or not, may have done to the stores. */
  ghost predicate Advanced(before: map<string, Store>, after: map<string, Store>, a: Args)
    requires ValidPlan(a.plan)
  {
    && Kept(before, after) && OnlyPlanned(before, after, a, a.plan.stores)
    && (forall i: nat :: i < a.plan.stores && Slug(a.prefix, i) in after ==> SeededAt(before, after, a, i))
  }

  function PlanSlugs(a: Args, n: nat): set<string> {
    set i: nat | i < n :: Slug(a.prefix, i)
  }

  ghost predicate Complete(stores: map<string, Store>, a: Args)
    requires ValidPlan(a.plan)
  {
    PlanSlugs(a, a.plan.stores) <= stores.Keys
  }

  class FleetDb {
    var stores: map<string, Store>
    var limits: map<string, Limits>
    var nextId: nat

    constructor ()
      ensures stores == map[] && limits == map[] && nextId == 0
    {
      stores, limits, nextId := map[], map[], 0;
    }

    /** One store in one transaction, which commits if `commits` says there is time left and no match was refused by the
        unique key. */
    method SeedStore(a: Args, index: nat, counts: Counts, commits: nat) returns (committed: bool, counts': Counts)
      requires ValidPlan(a.plan) && index < a.plan.stores && Slug(a.prefix, index) !in stores
      modifies this`stores, this`nextId
      ensures committed <==> commits > 0 && Fits(a)
      ensures !committed ==> stores == old(stores)
      ensures committed ==> stores == old(stores)[Slug(a.prefix, index) := BuildStore(a, index, old(nextId))]
      ensures counts' == OneMore(a.plan, counts)
      ensures nextId > old(nextId)
    {
      var s, c, next := WriteStore(a, index, nextId, counts);
      counts' := c;
      nextId := next;
      MatchKeysDistinctExactly(a, index, old(nextId));
      var firstUrl := Trimmed(a.base) + PrimaryPath(StoreName(index), 0);
      UrlsReadable(a, index, 0);
      committed := commits > 0 && Readable(a.portReads, firstUrl) && KeysDistinct(s.matches);
      if committed {
        stores := stores[Slug(a.prefix, index) := s];
      }
    }

    /** `seed_fleet`, interrupted before the commit after the first `commits` ones, or aborted by a store whose matches
        collide, or run to its end. */
    method SeedFleet(a: Args, commits: nat) returns (r: Option<SeedResult>)
      requires ValidPlan(a.plan)
      modifies this
      ensures RunFrom(Fleet(old(stores), old(limits)), Fleet(stores, limits), a)
      ensures limits == if commits > 0 then old(limits)[a.domain := a.limits] else old(limits)
      ensures r.Some? ==> Finished(Fleet(stores, limits), a)
      ensures r.Some? ==>
        && r.value.workspaces + |r.value.skipped| == a.plan.stores
        && r.value.counts == Totals(a.plan, r.value.workspaces)
        && forall i :: 0 <= i < |r.value.skipped| ==> r.value.skipped[i] in old(stores)
      ensures r.None? ==> commits <= a.plan.stores || !Fits(a)
      ensures !Fits(a) ==> stores == old(stores) && (r.Some? ==> Complete(old(stores), a))
      ensures nextId >= old(nextId)
    {
      if commits == 0 {
        return None;
      }
      limits := limits[a.domain := a.limits];
      var left := commits - 1;
      var workspaces, counts, skipped := 0, Counts(0, 0, 0), [];
      TotalsStep(a.plan, 0);
      for index := 0 to a.plan.stores
        invariant limits == old(limits)[a.domain := a.limits] && nextId >= old(nextId)
        invariant Progress(old(stores), stores, a, index)
        invariant workspaces + |skipped| == index && counts == Totals(a.plan, workspaces)
        invariant left + workspaces == commits - 1 && left >= 0
        invariant forall i :: 0 <= i < |skipped| ==> skipped[i] in old(stores)
        invariant !Fits(a) ==> stores == old(stores)
      {
        var slug := Slug(a.prefix, index);
        ProgressSkips(old(stores), stores, a, index);
        if slug in stores {
          skipped := skipped + [slug];
          continue;
        }
        ghost var before := stores;
        BuiltIsExpected(a, index, nextId);
        var committed, counted := SeedStore(a, index, counts, left);
        if !committed {
          ProgressIsAdvanced(old(stores), stores, a, index);
          return None;
        }
        ProgressGrows(old(stores), before, a, index, stores[slug]);
        TotalsStep(a.plan, workspaces);
        left := left - 1;
        workspaces := workspaces + 1;
        counts := counted;
      }
      ProgressIsAdvanced(old(stores), stores, a, a.plan.stores);
      ProgressIsComplete(old(stores), stores, a);
      r := Some(SeedResult(workspaces, counts, skipped));
    }
  }

  function OneMore(plan: Plan, counts: Counts): Counts {
    Counts(counts.products + plan.products, counts.variants + plan.products, counts.matches + plan.matches)
  }

  lemma TotalsStep(plan: Plan, workspaces: nat)
    ensures Totals(plan, workspaces + 1) == OneMore(plan, Totals(plan, workspaces))
    ensures Totals(plan, 0) == Counts(0, 0, 0)
  {}

  function Totals(plan: Plan, workspaces: nat): Counts {
    Counts(workspaces * plan.products, workspaces * plan.products, workspaces * plan.matches)
  }

  ghost predicate Kept(before: map<string, Store>, now: map<string, Store>) {
    forall s :: s in before ==> s in now && now[s] == before[s]
  }

  ghost predicate OnlyPlanned(before: map<string, Store>, now: map<string, Store>, a: Args, index: nat) {
    forall s :: s in now && s !in before ==> s in PlanSlugs(a, index)
  }

  ghost predicate SeededAt(before: map<string, Store>, now: map<string, Store>, a: Args, i: nat)
    requires ValidPlan(a.plan)
  {
    && Slug(a.prefix, i) in now
    && (Slug(a.prefix, i) !in before ==> View(now[Slug(a.prefix, i)]) == Expected(a, i))
  }

  /** The stores before `index` are all there; the others are as they were. */
  ghost predicate Progress(before: map<string, Store>, now: map<string, Store>, a: Args, index: nat)
    requires ValidPlan(a.plan)
  {
    && index <= a.plan.stores && Kept(before, now) && OnlyPlanned(before, now, a, index)
    && SeededBelow(before, now, a, index)
  }

  /** The store at `index` exists exactly if it did before the run. */
  lemma ProgressSkips(before: map<string, Store>, now: map<string, Store>, a: Args, index: nat)
    requires ValidPlan(a.plan) && Progress(before, now, a, index) && index < a.plan.stores
    ensures Slug(a.prefix, index) in now <==> Slug(a.prefix, index) in before
    ensures Slug(a.prefix, index) in now ==> Progress(before, now, a, index + 1)
  {
    var slug := Slug(a.prefix, index);
    if slug in now && slug !in before {
      var i: nat :| i < index && Slug(a.prefix, i) == slug;
      SlugInjective(a.prefix, i, index);
    }
  }

  lemma PlanSlugsGrow(a: Args, m: nat, n: nat)
    requires m <= n
    ensures PlanSlugs(a, m) <= PlanSlugs(a, n)
    ensures m < n ==> Slug(a.prefix, m) in PlanSlugs(a, n)
  {}

  ghost predicate SeededBelow(before: map<string, Store>, now: map<string, Store>, a: Args, index: nat)
    requires ValidPlan(a.plan)
  {
    forall i: nat :: i < index ==> SeededAt(before, now, a, i)
  }

  lemma StillSeeded(before: map<string, Store>, now: map<string, Store>, a: Args, index: nat, s: Store)
    requires ValidPlan(a.plan) && SeededBelow(before, now, a, index)
    requires Slug(a.prefix, index) !in now && View(s) == Expected(a, index)
    ensures SeededBelow(before, now[Slug(a.prefix, index) := s], a, index + 1)
  {
    var after := now[Slug(a.prefix, index) := s];
    assert SeededAt(before, after, a, index);
    forall i: nat | i < index
      ensures SeededAt(before, after, a, i)
    {
      assert SeededAt(before, now, a, i);
    }
  }

  lemma StillPlanned(before: map<string, Store>, now: map<string, Store>, a: Args, index: nat, s: Store)
    requires OnlyPlanned(before, now, a, index)
    ensures OnlyPlanned(before, now[Slug(a.prefix, index) := s], a, index + 1)
  {
    PlanSlugsGrow(a, index, index + 1);
  }

  lemma ProgressGrows(before: map<string, Store>, now: map<string, Store>, a: Args, index: nat, s: Store)
    requires ValidPlan(a.plan) && Progress(before, now, a, index) && index < a.plan.stores
    requires Slug(a.prefix, index) !in now && View(s) == Expected(a, index)
    ensures Progress(before, now[Slug(a.prefix, index) := s], a, index + 1)
  {
    StillPlanned(before, now, a, index, s);
    StillSeeded(before, now, a, index, s);
  }

  lemma ProgressIsAdvanced(before: map<string, Store>, now: map<string, Store>, a: Args, index: nat)
    requires ValidPlan(a.plan) && Progress(before, now, a, index)
    ensures Advanced(before, now, a)
  {
    PlanSlugsGrow(a, index, a.plan.stores);
    forall i: nat | i < a.plan.stores && Slug(a.prefix, i) in now
      ensures SeededAt(before, now, a, i)
    {
      SeededOrOld(before, now, a, index, i);
    }
  }

  lemma SeededOrOld(before: map<string, Store>, now: map<string, Store>, a: Args, index: nat, i: nat)
    requires ValidPlan(a.plan) && Progress(before, now, a, index) && Slug(a.prefix, i) in now
    ensures SeededAt(before, now, a, i)
  {
    if Slug(a.prefix, i) !in before {
      var j: nat :| j < index && Slug(a.prefix, j) == Slug(a.prefix, i);
      SlugInjective(a.prefix, i, j);
    }
  }

  lemma ProgressIsComplete(before: map<string, Store>, now: map<string, Store>, a: Args)
    requires ValidPlan(a.plan) && Progress(before, now, a, a.plan.stores)
    ensures Complete(now, a)
  {
    forall s | s in PlanSlugs(a, a.plan.stores)
      ensures s in now
    {
      var i: nat :| i < a.plan.stores && Slug(a.prefix, i) == s;
      assert SeededAt(before, now, a, i);
    }
  }

  // ----- convergence

  /** What the seeder has written: the stores and the limits of its domain. */
  datatype Fleet = Fleet(stores: map<string, Store>, limits: map<string, Limits>)

  /** What any run does, by the contract of `SeedFleet`. */
  ghost predicate RunFrom(before: Fleet, after: Fleet, a: Args)
    requires ValidPlan(a.plan)
  {
    && Advanced(before.stores, after.stores, a)
    && (after.limits == before.limits || after.limits == before.limits[a.domain := a.limits])
  }

  /** What a run that ends leaves. */
  ghost predicate Finished(f: Fleet, a: Args)
    requires ValidPlan(a.plan)
  {
    Complete(f.stores, a) && a.domain in f.limits && f.limits[a.domain] == a.limits
  }

  /** A history of runs with the same arguments, each interrupted anywhere or not at all. */
  ghost predicate History(h: seq<Fleet>, a: Args)
    requires ValidPlan(a.plan)
  {
    h != [] && forall k :: 0 <= k < |h| - 1 ==> RunFrom(h[k], h[k + 1], a)
  }

  lemma AdvancedTwice(x: map<string, Store>, y: map<string, Store>, z: map<string, Store>, a: Args)
    requires ValidPlan(a.plan) && Advanced(x, y, a) && Advanced(y, z, a)
    ensures Advanced(x, z, a)
  {
    forall i: nat | i < a.plan.stores && Slug(a.prefix, i) in z
      ensures SeededAt(x, z, a, i)
    {
      assert SeededAt(y, z, a, i);
      if Slug(a.prefix, i) in y { assert SeededAt(x, y, a, i); }
    }
  }

  lemma RunTwice(x: Fleet, y: Fleet, z: Fleet, a: Args)
    requires ValidPlan(a.plan) && RunFrom(x, y, a) && RunFrom(y, z, a)
    ensures RunFrom(x, z, a)
  {
    AdvancedTwice(x.stores, y.stores, z.stores, a);
  }

  lemma {:induction false} HistoryAdvances(h: seq<Fleet>, a: Args)
    requires ValidPlan(a.plan) && History(h, a)
    ensures RunFrom(h[0], h[|h| - 1], a)
  {
    if |h| > 1 {
      var init := h[..|h| - 1];
      HistoryAdvances(init, a);
      assert RunFrom(h[|h| - 2], h[|h| - 1], a);
      RunTwice(h[0], h[|h| - 2], h[|h| - 1], a);
    }
  }

  function Views(stores: map<string, Store>): map<string, StoreView> {
    map s | s in stores :: View(stores[s])
  }

  lemma CompleteKeys(start: map<string, Store>, x: map<string, Store>, a: Args)
    requires ValidPlan(a.plan) && Advanced(start, x, a) && Complete(x, a)
    ensures x.Keys == start.Keys + PlanSlugs(a, a.plan.stores)
  {}

  lemma ViewIsDetermined(start: map<string, Store>, x: map<string, Store>, a: Args, i: nat)
    requires ValidPlan(a.plan) && Advanced(start, x, a) && Complete(x, a) && i < a.plan.stores
    ensures Slug(a.prefix, i) in x
    ensures View(x[Slug(a.prefix, i)]) == if Slug(a.prefix, i) in start then View(start[Slug(a.prefix, i)])
      else Expected(a, i)
  {
    assert Slug(a.prefix, i) in PlanSlugs(a, a.plan.stores);
    assert SeededAt(start, x, a, i);
  }

  lemma CompleteIsDetermined(start: map<string, Store>, x: map<string, Store>, y: map<string, Store>, a: Args)
    requires ValidPlan(a.plan) && Advanced(start, x, a) && Complete(x, a) && Advanced(start, y, a) && Complete(y, a)
    ensures Views(x) == Views(y)
  {
    CompleteKeys(start, x, a);
    CompleteKeys(start, y, a);
    forall s | s in x
      ensures View(x[s]) == View(y[s])
    {
      ViewsAgree(start, x, y, a, s);
    }
  }

  lemma ViewsAgree(start: map<string, Store>, x: map<string, Store>, y: map<string, Store>, a: Args, s: string)
    requires ValidPlan(a.plan) && Advanced(start, x, a) && Complete(x, a) && Advanced(start, y, a) && Complete(y, a)
    requires s in x && s in y && (s in start || s in PlanSlugs(a, a.plan.stores))
    ensures View(x[s]) == View(y[s])
  {
    if s in PlanSlugs(a, a.plan.stores) {
      var i: nat :| i < a.plan.stores && Slug(a.prefix, i) == s;
      ViewIsDetermined(start, x, a, i);
      ViewIsDetermined(start, y, a, i);
    }
  }

  /** However often a seeding was interrupted, once a run ends the database holds, up to ids, what one uninterrupted
      run from the same start would have left, stores and limits. */
  lemma ResumedEqualsUninterrupted(h: seq<Fleet>, once: Fleet, a: Args)
    requires ValidPlan(a.plan) && History(h, a) && Finished(h[|h| - 1], a)
    requires RunFrom(h[0], once, a) && Finished(once, a)
    ensures Views(h[|h| - 1].stores) == Views(once.stores)
    ensures h[|h| - 1].limits == once.limits == h[0].limits[a.domain := a.limits]
  {
    HistoryAdvances(h, a);
    CompleteIsDetermined(h[0].stores, h[|h| - 1].stores, once.stores, a);
    LimitsAreDetermined(h[0], h[|h| - 1], a);
    LimitsAreDetermined(h[0], once, a);
  }

  lemma LimitsAreDetermined(start: Fleet, x: Fleet, a: Args)
    requires ValidPlan(a.plan) && RunFrom(start, x, a) && Finished(x, a)
    ensures x.limits == start.limits[a.domain := a.limits]
  {}

  /** A run over a complete fleet changes nothing. */
  lemma CompleteStays(x: Fleet, again: Fleet, a: Args)
    requires ValidPlan(a.plan) && Finished(x, a) && RunFrom(x, again, a)
    ensures again == x
  {
    assert PlanSlugs(a, a.plan.stores) <= again.stores.Keys;
    CompleteKeys(x.stores, again.stores, a);
    assert x.limits[a.domain := a.limits] == x.limits;
  }
}
