/**
 `_walk_json_for_price_key` and `_sibling_currency` of scripts/onboard_competitor.py:
 a budgeted search of a JSON document that returns a pointer, and the walk that
 resolves the parent of such a pointer.
 */
module PriceKeySearch {
  import opened Wrappers
  import opened Decimals

  /** A parsed document; `text` is Python's `str()` of a number. Object keys are distinct, in document order. */
  datatype Json =
    | Null
    | Bool(b: bool)
    | Num(text: string)
    | Str(s: string)
    | Obj(entries: seq<Entry>)
    | Arr(items: seq<Json>)

  datatype Entry = Entry(key: string, value: Json)

  datatype Hit = Hit(pointer: string, value: Json)

  /** The key hints (on lower-cased names) and the test that a stripped text is a plain decimal number. */
  datatype Hints = Hints(isPriceKey: string -> bool, isCurrencyKey: string -> bool, isPriceText: string -> bool)

  const MAX_DEPTH := 8

  /** The budget a scan starts with. */
  const MAX_NODES := 5000

  // ----- the search

  predicate IsPriceScalar(h: Hints, v: Json) {
    match v
    case Num(text) => h.isPriceText(text)
    case Str(s) => h.isPriceText(s)
    case _ => false
  }

  predicate IsPriceEntry(h: Hints, e: Entry) {
    h.isPriceKey(e.key) && IsPriceScalar(h, e.value)
  }

  /** The first loop over an object: a price key with a price value on this very level. */
  function ScalarHit(h: Hints, es: seq<Entry>, pointer: string): Option<Hit> {
    if es == [] then None
    else if IsPriceEntry(h, es[0]) then Some(Hit(pointer + "/" + es[0].key, es[0].value))
    else ScalarHit(h, es[1..], pointer)
  }

  /** The search, with the budget left over. */
  function Search(h: Hints, doc: Json, pointer: string, depth: nat, budget: int): (Option<Hit>, int)
    decreases doc, 1, 0
  {
    if budget <= 0 || depth > MAX_DEPTH then (None, budget)
    else
      match doc
      case Obj(es) =>
        (match ScalarHit(h, es, pointer)
         case Some(hit) => (Some(hit), budget - 1)
         case None => SearchEntries(h, doc, es, pointer, depth + 1, budget - 1))
      case Arr(items) => SearchItems(h, doc, items, 0, pointer, depth + 1, budget - 1)
      case _ => (None, budget - 1)
  }

  function SearchEntries(h: Hints, doc: Json, es: seq<Entry>, pointer: string, depth: nat,
                         budget: int): (Option<Hit>, int)
    requires forall i :: 0 <= i < |es| ==> es[i].value < doc
    decreases doc, 0, |es|
  {
    if es == [] then (None, budget)
    else
      var r := Search(h, es[0].value, pointer + "/" + es[0].key, depth, budget);
      if r.0.Some? then r else SearchEntries(h, doc, es[1..], pointer, depth, r.1)
  }

  function SearchItems(h: Hints, doc: Json, items: seq<Json>, index: nat, pointer: string, depth: nat,
                       budget: int): (Option<Hit>, int)
    requires forall i :: 0 <= i < |items| ==> items[i] < doc
    decreases doc, 0, |items|
  {
    if items == [] then (None, budget)
    else
      var r := Search(h, items[0], pointer + "/" + Show(index), depth, budget);
      if r.0.Some? then r else SearchItems(h, doc, items[1..], index + 1, pointer, depth, r.1)
  }

  /** The one-element list through which all the recursive calls share their budget. */
  class Budget {
    var left: int

    constructor (nodes: int)
      ensures left == nodes
    {
      left := nodes;
    }
  }

  method WalkJsonForPriceKey(h: Hints, doc: Json, pointer: string, depth: nat, budget: Budget)
    returns (hit: Option<Hit>)
    modifies budget
    ensures (hit, budget.left) == Search(h, doc, pointer, depth, old(budget.left))
    decreases doc
  {
    ghost var goal := Search(h, doc, pointer, depth, budget.left);
    if budget.left <= 0 || depth > MAX_DEPTH {
      return None;
    }
    budget.left := budget.left - 1;
    match doc
    case Obj(es) =>
      assert es[0..] == es;
      for i := 0 to |es|
        invariant ScalarHit(h, es, pointer) == ScalarHit(h, es[i..], pointer)
        invariant budget.left == old(budget.left) - 1
      {
        assert es[i..][0] == es[i] && es[i..][1..] == es[i + 1..];
        if IsPriceEntry(h, es[i]) {
          return Some(Hit(pointer + "/" + es[i].key, es[i].value));
        }
      }
      for i := 0 to |es|
        invariant SearchEntries(h, doc, es[i..], pointer, depth + 1, budget.left) == goal
      {
        assert es[i..][0] == es[i] && es[i..][1..] == es[i + 1..];
        hit := WalkJsonForPriceKey(h, es[i].value, pointer + "/" + es[i].key, depth + 1, budget);
        if hit.Some? {
          return hit;
        }
      }
      return None;
    case Arr(items) =>
      assert items[0..] == items;
      for i := 0 to |items|
        invariant SearchItems(h, doc, items[i..], i, pointer, depth + 1, budget.left) == goal
      {
        assert items[i..][0] == items[i] && items[i..][1..] == items[i + 1..];
        hit := WalkJsonForPriceKey(h, items[i], pointer + "/" + Show(i), depth + 1, budget);
        if hit.Some? {
          return hit;
        }
      }
      return None;
    case _ =>
      return None;
  }

  // ----- pointers

  function FirstSlash(s: string): (k: nat)
    ensures k <= |s|
    ensures forall i :: 0 <= i < k ==> s[i] != '/'
    ensures k < |s| ==> s[k] == '/'
  {
    if s == [] || s[0] == '/' then 0 else 1 + FirstSlash(s[1..])
  }

  /** `[t for t in s.split("/") if t]` */
  function Tokens(s: string): seq<string> {
    if s == [] then []
    else
      var k := FirstSlash(s);
      (if k == 0 then [] else [s[..k]]) + (if k < |s| then Tokens(s[k + 1..]) else [])
  }

  /** `s.rsplit("/", 1)[0]` */
  function ParentPointer(s: string): string {
    if s == [] then []
    else if s[|s| - 1] == '/' then s[..|s| - 1]
    else if '/' in s then ParentPointer(s[..|s| - 1])
    else s
  }

  predicate SlashFree(s: string) {
    forall i :: 0 <= i < |s| ==> s[i] != '/'
  }

  predicate Clean(key: string) {
    key != [] && SlashFree(key)
  }

  function Render(tokens: seq<string>): string {
    if tokens == [] then [] else Render(tokens[..|tokens| - 1]) + "/" + tokens[|tokens| - 1]
  }

  function Lookup(es: seq<Entry>, key: string): Option<Json> {
    if es == [] then None
    else if es[0].key == key then Some(es[0].value)
    else Lookup(es[1..], key)
  }

  /** One step of the walk of `_sibling_currency`. */
  function Step(doc: Json, token: string): Option<Json> {
    match doc
    case Obj(es) => Lookup(es, token)
    case Arr(items) =>
      if token != [] && AllDigits(token) && 0 <= Value(token) < |items| then Some(items[Value(token)]) else None
    case _ => None
  }

  function Resolve(doc: Json, tokens: seq<string>): Option<Json>
    decreases |tokens|
  {
    if tokens == [] then Some(doc)
    else
      match Step(doc, tokens[0])
      case None => None
      case Some(next) => Resolve(next, tokens[1..])
  }

  function FirstCurrency(h: Hints, es: seq<Entry>): Option<string> {
    if es == [] then None
    else if h.isCurrencyKey(es[0].key) && es[0].value.Str? then Some(es[0].value.s)
    else FirstCurrency(h, es[1..])
  }

  function CurrencyBeside(h: Hints, doc: Json, pointer: string): Option<string> {
    match Resolve(doc, Tokens(ParentPointer(pointer)))
    case Some(Obj(es)) => FirstCurrency(h, es)
    case _ => None
  }

  method SiblingCurrency(h: Hints, doc: Json, pointer: string) returns (currency: Option<string>)
    ensures currency == CurrencyBeside(h, doc, pointer)
  {
    var tokens := Tokens(ParentPointer(pointer));
    var current := doc;
    assert tokens[0..] == tokens;
    for i := 0 to |tokens|
      invariant Resolve(current, tokens[i..]) == Resolve(doc, tokens)
    {
      assert tokens[i..][0] == tokens[i] && tokens[i..][1..] == tokens[i + 1..];
      match Step(current, tokens[i]) {
        case None => return None;
        case Some(next) => current := next;
      }
    }
    if !current.Obj? {
      return None;
    }
    var es := current.entries;
    assert es[0..] == es;
    for i := 0 to |es|
      invariant FirstCurrency(h, es[i..]) == FirstCurrency(h, es)
    {
      assert es[i..][0] == es[i] && es[i..][1..] == es[i + 1..];
      if h.isCurrencyKey(es[i].key) && es[i].value.Str? {
        return Some(es[i].value.s);
      }
    }
    return None;
  }

  // ----- documents

  ghost predicate DistinctKeys(es: seq<Entry>) {
    forall i, j :: 0 <= i < j < |es| ==> es[i].key != es[j].key
  }

  /** Every object of the document has distinct keys, as any parsed document has. */
  ghost predicate Parsed(doc: Json) {
    match doc
    case Obj(es) => DistinctKeys(es) && forall i :: 0 <= i < |es| ==> Parsed(es[i].value)
    case Arr(items) => forall i :: 0 <= i < |items| ==> Parsed(items[i])
    case _ => true
  }

  ghost predicate AllClean(path: seq<string>) {
    forall i :: 0 <= i < |path| ==> Clean(path[i])
  }

  /** A price key over a number or a text that reads as a price. */
  predicate HoldsPrice(h: Hints, e: Entry) {
    && h.isPriceKey(e.key)
    && (e.value.Num? || e.value.Str?) && h.isPriceText(if e.value.Num? then e.value.text else e.value.s)
  }

  /** Somewhere in the document a price key holds a price value. */
  ghost predicate HasPrice(h: Hints, doc: Json) {
    match doc
    case Obj(es) => exists i :: 0 <= i < |es| && (HoldsPrice(h, es[i]) || HasPrice(h, es[i].value))
    case Arr(items) => exists i :: 0 <= i < |items| && HasPrice(h, items[i])
    case _ => false
  }

  /** No part of the document lies more than `d` levels below its root. */
  ghost predicate NoDeeperThan(doc: Json, d: int) {
    d >= 0
    && match doc
       case Obj(es) => forall i :: 0 <= i < |es| ==> NoDeeperThan(es[i].value, d - 1)
       case Arr(items) => forall i :: 0 <= i < |items| ==> NoDeeperThan(items[i], d - 1)
       case _ => true
  }

  // ----- search then resolve

  lemma {:induction false} LookupAt(es: seq<Entry>, i: nat)
    requires DistinctKeys(es) && i < |es|
    ensures Lookup(es, es[i].key) == Some(es[i].value)
  {
    if i > 0 { LookupAt(es[1..], i - 1); }
  }

  lemma {:induction false} ScalarHitIs(h: Hints, es: seq<Entry>, pointer: string)
    ensures ScalarHit(h, es, pointer).None? <==> forall i :: 0 <= i < |es| ==> !IsPriceEntry(h, es[i])
    ensures ScalarHit(h, es, pointer).Some? ==>
      exists i :: 0 <= i < |es| && IsPriceEntry(h, es[i])
        && ScalarHit(h, es, pointer) == Some(Hit(pointer + "/" + es[i].key, es[i].value))
  {
    if es != [] && !IsPriceEntry(h, es[0]) {
      ScalarHitIs(h, es[1..], pointer);
      assert forall i :: 0 < i < |es| ==> es[i] == es[1..][i - 1];
      if ScalarHit(h, es[1..], pointer).Some? {
        var i :| 0 <= i < |es[1..]| && IsPriceEntry(h, es[1..][i])
          && ScalarHit(h, es[1..], pointer) == Some(Hit(pointer + "/" + es[1..][i].key, es[1..][i].value));
        assert es[i + 1] == es[1..][i];
      }
    }
  }

  /** `tokens` leads from `doc` to `hit.value` through an object that holds it under a price key, and `hit.pointer`
      is `base` followed by exactly those tokens. */
  ghost predicate Leads(h: Hints, doc: Json, base: string, tokens: seq<string>, hit: Hit) {
    && tokens != []
    && hit.pointer == base + Render(tokens)
    && Resolve(doc, tokens) == Some(hit.value)
    && HoldsUnder(Resolve(doc, tokens[..|tokens| - 1]), tokens[|tokens| - 1], hit.value)
    && HoldsPrice(h, Entry(tokens[|tokens| - 1], hit.value))
  }

  predicate HoldsUnder(parent: Option<Json>, key: string, value: Json) {
    parent.Some? && parent.value.Obj? && Entry(key, value) in parent.value.entries
  }

  lemma {:induction false} RenderCons(token: string, tokens: seq<string>)
    ensures Render([token] + tokens) == "/" + token + Render(tokens)
  {
    var all := [token] + tokens;
    if tokens == [] {
      assert all[..0] == [];
    } else {
      assert all[..|all| - 1] == [token] + tokens[..|tokens| - 1];
      RenderCons(token, tokens[..|tokens| - 1]);
    }
  }

  lemma LeadsThrough(h: Hints, doc: Json, base: string, token: string, child: Json, tokens: seq<string>, hit: Hit)
    requires Step(doc, token) == Some(child)
    requires Leads(h, child, base + "/" + token, tokens, hit)
    ensures Leads(h, doc, base, [token] + tokens, hit)
  {
    var all := [token] + tokens;
    RenderCons(token, tokens);
    assert base + "/" + token + Render(tokens) == base + ("/" + token + Render(tokens));
    assert all[1..] == tokens && all[..|all| - 1][1..] == tokens[..|tokens| - 1];
    assert all[..|all| - 1][0] == token;
  }

  lemma {:induction false} SearchLeads(h: Hints, doc: Json, pointer: string, depth: nat, budget: int)
    returns (tokens: seq<string>)
    requires Parsed(doc) && Search(h, doc, pointer, depth, budget).0.Some?
    ensures Leads(h, doc, pointer, tokens, Search(h, doc, pointer, depth, budget).0.value)
    decreases doc, 1, 0
  {
    match doc
    case Obj(es) =>
      ScalarHitIs(h, es, pointer);
      if ScalarHit(h, es, pointer).Some? {
        var i :| 0 <= i < |es| && IsPriceEntry(h, es[i])
          && ScalarHit(h, es, pointer) == Some(Hit(pointer + "/" + es[i].key, es[i].value));
        tokens := [es[i].key];
        LookupAt(es, i);
        RenderCons(es[i].key, []);
        assert tokens[..0] == [] && [es[i].key] + [] == tokens && tokens[1..] == [];
        assert Entry(es[i].key, es[i].value) == es[i];
        assert pointer + "/" + es[i].key == pointer + ("/" + es[i].key + Render([]));
      } else {
        tokens := EntriesLead(h, doc, 0, pointer, depth + 1, budget - 1);
      }
    case Arr(items) =>
      tokens := ItemsLead(h, doc, 0, pointer, depth + 1, budget - 1);
  }

  lemma {:induction false} EntriesLead(h: Hints, doc: Json, k: nat, pointer: string, depth: nat, budget: int)
    returns (tokens: seq<string>)
    requires doc.Obj? && Parsed(doc) && k <= |doc.entries|
    requires SearchEntries(h, doc, doc.entries[k..], pointer, depth, budget).0.Some?
    ensures Leads(h, doc, pointer, tokens, SearchEntries(h, doc, doc.entries[k..], pointer, depth, budget).0.value)
    decreases doc, 0, |doc.entries| - k
  {
    var e := doc.entries[k];
    assert doc.entries[k..][0] == e && doc.entries[k..][1..] == doc.entries[k + 1..];
    var r := Search(h, e.value, pointer + "/" + e.key, depth, budget);
    if r.0.Some? {
      var rest := SearchLeads(h, e.value, pointer + "/" + e.key, depth, budget);
      LookupAt(doc.entries, k);
      LeadsThrough(h, doc, pointer, e.key, e.value, rest, r.0.value);
      tokens := [e.key] + rest;
    } else {
      tokens := EntriesLead(h, doc, k + 1, pointer, depth, r.1);
    }
  }

  lemma DigitsAreClean(n: nat)
    ensures Clean(Show(n)) && Value(Show(n)) == n
  {
    ValueOfShow(n);
    assert forall i :: 0 <= i < |Show(n)| ==> IsDigit(Show(n)[i]);
  }

  lemma {:induction false} ItemsLead(h: Hints, doc: Json, k: nat, pointer: string, depth: nat, budget: int)
    returns (tokens: seq<string>)
    requires doc.Arr? && Parsed(doc) && k <= |doc.items|
    requires SearchItems(h, doc, doc.items[k..], k, pointer, depth, budget).0.Some?
    ensures Leads(h, doc, pointer, tokens, SearchItems(h, doc, doc.items[k..], k, pointer, depth, budget).0.value)
    decreases doc, 0, |doc.items| - k
  {
    var item := doc.items[k];
    assert doc.items[k..][0] == item && doc.items[k..][1..] == doc.items[k + 1..];
    var r := Search(h, item, pointer + "/" + Show(k), depth, budget);
    DigitsAreClean(k);
    if r.0.Some? {
      var rest := SearchLeads(h, item, pointer + "/" + Show(k), depth, budget);
      LeadsThrough(h, doc, pointer, Show(k), item, rest, r.0.value);
      tokens := [Show(k)] + rest;
    } else {
      tokens := ItemsLead(h, doc, k + 1, pointer, depth, r.1);
    }
  }

  lemma {:induction false} FirstSlashIs(s: string, k: nat)
    requires k <= |s| && (forall i :: 0 <= i < k ==> s[i] != '/') && (k < |s| ==> s[k] == '/')
    ensures FirstSlash(s) == k
  {
    if k > 0 { FirstSlashIs(s[1..], k - 1); }
  }

  lemma TokensOfStep(token: string, rest: string)
    requires Clean(token) && (rest == [] || rest[0] == '/')
    ensures Tokens("/" + token + rest) == [token] + Tokens(rest)
  {
    assert ("/" + token + rest)[1..] == token + rest;
    LeadingSlash("/" + token + rest);
    FirstToken(token, rest);
    if rest != [] { LeadingSlash(rest); }
  }

  lemma LeadingSlash(s: string)
    requires s != [] && s[0] == '/'
    ensures Tokens(s) == Tokens(s[1..])
  {
    FirstSlashIs(s, 0);
  }

  lemma FirstToken(token: string, rest: string)
    requires Clean(token) && (rest == [] || rest[0] == '/')
    ensures Tokens(token + rest) == [token] + if rest == [] then [] else Tokens(rest[1..])
  {
    var t := token + rest;
    FirstSlashIs(t, |token|);
    assert t[..|token|] == token;
    if rest != [] { assert t[|token| + 1..] == rest[1..]; }
  }

  /** Splitting a rendered pointer gives its tokens back, provided they are clean. */
  lemma {:induction false} TokensOfRender(tokens: seq<string>)
    requires forall i :: 0 <= i < |tokens| ==> Clean(tokens[i])
    ensures Tokens(Render(tokens)) == tokens
    ensures Render(tokens) == [] || Render(tokens)[0] == '/'
  {
    if tokens != [] {
      assert tokens == [tokens[0]] + tokens[1..];
      RenderCons(tokens[0], tokens[1..]);
      TokensOfRender(tokens[1..]);
      TokensOfStep(tokens[0], Render(tokens[1..]));
    }
  }

  lemma {:induction false} ParentOfStep(base: string, token: string)
    requires SlashFree(token)
    ensures ParentPointer(base + "/" + token) == base
  {
    var s := base + "/" + token;
    if token == [] {
      assert s[..|s| - 1] == base;
    } else {
      assert s[|base|] == '/';
      assert s[..|s| - 1] == base + "/" + token[..|token| - 1];
      ParentOfStep(base, token[..|token| - 1]);
    }
  }

  /** Splitting what was rendered gives the path back exactly when every step of it is clean. */
  lemma SplitsBackExactly(path: seq<string>)
    ensures Tokens(Render(path)) == path <==> AllClean(path)
  {
    TokensAreClean(Render(path));
    if AllClean(path) { TokensOfRender(path); }
  }

  lemma LeadsResolves(h: Hints, doc: Json, path: seq<string>, hit: Hit)
    requires Leads(h, doc, [], path, hit) && SlashFree(path[|path| - 1])
    ensures ParentPointer(hit.pointer) == Render(path[..|path| - 1])
    ensures hit.pointer == Render(path) == ParentPointer(hit.pointer) + "/" + path[|path| - 1]
  {
    assert [] + Render(path) == Render(path);
    ParentOfStep(Render(path[..|path| - 1]), path[|path| - 1]);
  }

  /** For every document: the pointer found is the rendered path to the value found, through the object that holds it
      under a price key. When the steps of that path are clean, whatever the keys elsewhere, the pointer resolves to the
      value, its parent to the holder, and the currency reported is the holder's. */
  lemma FoundPointerResolves(h: Hints, doc: Json, budget: int) returns (path: seq<string>)
    requires Parsed(doc) && Search(h, doc, [], 0, budget).0.Some?
    ensures var hit := Search(h, doc, [], 0, budget).0.value;
      && Leads(h, doc, [], path, hit)
      && (AllClean(path) ==>
            && Resolve(doc, Tokens(hit.pointer)) == Some(hit.value)
            && (var parent := Resolve(doc, Tokens(ParentPointer(hit.pointer)));
                && HoldsUnder(parent, path[|path| - 1], hit.value)
                && hit.pointer == ParentPointer(hit.pointer) + "/" + path[|path| - 1]
                && CurrencyBeside(h, doc, hit.pointer) == FirstCurrency(h, parent.value.entries)))
  {
    path := SearchLeads(h, doc, [], 0, budget);
    if AllClean(path) {
      LeadsResolves(h, doc, path, Search(h, doc, [], 0, budget).0.value);
      SplitsBackExactly(path);
      SplitsBackExactly(path[..|path| - 1]);
    }
  }

  /** Every key of the document is clean. */
  ghost predicate CleanKeys(doc: Json) {
    match doc
    case Obj(es) => forall i :: 0 <= i < |es| ==> Clean(es[i].key) && CleanKeys(es[i].value)
    case Arr(items) => forall i :: 0 <= i < |items| ==> CleanKeys(items[i])
    case _ => true
  }

  lemma {:induction false} LookupFinds(es: seq<Entry>, key: string)
    ensures Lookup(es, key).Some? ==>
      exists i :: 0 <= i < |es| && es[i].key == key && Some(es[i].value) == Lookup(es, key)
  {
    if es != [] && es[0].key != key {
      LookupFinds(es[1..], key);
      if i :| 0 <= i < |es[1..]| && es[1..][i].key == key && Some(es[1..][i].value) == Lookup(es[1..], key) {
        assert es[i + 1] == es[1..][i];
      }
    }
  }

  /** Where every key of a document is clean, so is every path through it: there search and resolve always undo each
      other. */
  lemma {:induction false} CleanDocumentCleanPath(doc: Json, path: seq<string>)
    requires CleanKeys(doc) && Resolve(doc, path).Some?
    ensures AllClean(path)
    decreases |path|
  {
    if path != [] {
      var next := Step(doc, path[0]).value;
      if doc.Obj? { LookupFinds(doc.entries, path[0]); }
      CleanDocumentCleanPath(next, path[1..]);
      assert forall i :: 0 < i < |path| ==> path[i] == path[1..][i - 1];
      assert Clean(path[0]);
    }
  }

  /** The code does not escape keys in its pointers (section 3 of RFC 6901 does). For every document, search and resolve
      undo each other exactly as far as the path is clean: the parent pointer splits into the way to the holder if and
      only if every step above the price key is non-empty and slash-free, the whole pointer into the way to the value if
      and only if every step is. */
  lemma ParentResolvesExactly(h: Hints, doc: Json, budget: int) returns (path: seq<string>)
    requires Parsed(doc) && Search(h, doc, [], 0, budget).0.Some?
    requires forall key :: h.isPriceKey(key) ==> SlashFree(key)
    ensures var hit := Search(h, doc, [], 0, budget).0.value;
      && Leads(h, doc, [], path, hit)
      && (Tokens(ParentPointer(hit.pointer)) == path[..|path| - 1] <==> AllClean(path[..|path| - 1]))
      && (Tokens(hit.pointer) == path <==> AllClean(path))
  {
    path := SearchLeads(h, doc, [], 0, budget);
    LeadsResolves(h, doc, path, Search(h, doc, [], 0, budget).0.value);
    SplitsBackExactly(path);
    SplitsBackExactly(path[..|path| - 1]);
  }

  // ----- what finding nothing means

  function Nodes(doc: Json): nat
    decreases doc, 1, 0
  {
    match doc
    case Obj(es) => 1 + EntryNodes(doc, es)
    case Arr(items) => 1 + ItemNodes(doc, items)
    case _ => 1
  }

  function EntryNodes(doc: Json, es: seq<Entry>): nat
    requires forall i :: 0 <= i < |es| ==> es[i].value < doc
    decreases doc, 0, |es|
  {
    if es == [] then 0 else Nodes(es[0].value) + EntryNodes(doc, es[1..])
  }

  function ItemNodes(doc: Json, items: seq<Json>): nat
    requires forall i :: 0 <= i < |items| ==> items[i] < doc
    decreases doc, 0, |items|
  {
    if items == [] then 0 else Nodes(items[0]) + ItemNodes(doc, items[1..])
  }

  /** The budget is a hard cap: the nodes visited (what the budget lost) are never more than the budget
      nor than the nodes there are. */
  lemma {:induction false} VisitsWithinBudget(h: Hints, doc: Json, pointer: string, depth: nat, budget: nat)
    ensures 0 <= Search(h, doc, pointer, depth, budget).1 <= budget
    ensures budget - Search(h, doc, pointer, depth, budget).1 <= Nodes(doc)
    decreases doc, 1, 0
  {
    if budget > 0 && depth <= MAX_DEPTH {
      match doc
      case Obj(es) =>
        if ScalarHit(h, es, pointer).None? { EntryVisits(h, doc, es, pointer, depth + 1, budget - 1); }
      case Arr(items) => ItemVisits(h, doc, items, 0, pointer, depth + 1, budget - 1);
      case _ =>
    }
  }

  lemma {:induction false} EntryVisits(h: Hints, doc: Json, es: seq<Entry>, pointer: string, depth: nat, budget: nat)
    requires forall i :: 0 <= i < |es| ==> es[i].value < doc
    ensures 0 <= SearchEntries(h, doc, es, pointer, depth, budget).1 <= budget
    ensures budget - SearchEntries(h, doc, es, pointer, depth, budget).1 <= EntryNodes(doc, es)
    decreases doc, 0, |es|
  {
    if es != [] {
      var r := Search(h, es[0].value, pointer + "/" + es[0].key, depth, budget);
      VisitsWithinBudget(h, es[0].value, pointer + "/" + es[0].key, depth, budget);
      if r.0.None? { EntryVisits(h, doc, es[1..], pointer, depth, r.1); }
    }
  }

  lemma {:induction false} ItemVisits(h: Hints, doc: Json, items: seq<Json>, k: nat, pointer: string, depth: nat,
                                      budget: nat)
    requires forall i :: 0 <= i < |items| ==> items[i] < doc
    ensures 0 <= SearchItems(h, doc, items, k, pointer, depth, budget).1 <= budget
    ensures budget - SearchItems(h, doc, items, k, pointer, depth, budget).1 <= ItemNodes(doc, items)
    decreases doc, 0, |items|
  {
    if items != [] {
      var r := Search(h, items[0], pointer + "/" + Show(k), depth, budget);
      VisitsWithinBudget(h, items[0], pointer + "/" + Show(k), depth, budget);
      if r.0.None? { ItemVisits(h, doc, items[1..], k + 1, pointer, depth, r.1); }
    }
  }

  /** With the budget not exhausted (some left over, or enough for every node) and no part of the document too deep,
      nothing found means there is nothing to find; and whatever is found is there. */
  lemma {:induction false} NoneMeansNoPrice(h: Hints, doc: Json, pointer: string, depth: nat, budget: nat)
    requires NoDeeperThan(doc, MAX_DEPTH - depth)
    ensures Search(h, doc, pointer, depth, budget).0.Some? ==> HasPrice(h, doc)
    ensures Search(h, doc, pointer, depth, budget).0.None?
            && (Search(h, doc, pointer, depth, budget).1 > 0 || Nodes(doc) <= budget)
      ==> !HasPrice(h, doc)
    decreases doc, 1, 0
  {
    VisitsWithinBudget(h, doc, pointer, depth, budget);
    if budget > 0 {
      match doc
      case Obj(es) =>
        ScalarHitIs(h, es, pointer);
        if ScalarHit(h, es, pointer).None? {
          EntriesNone(h, doc, es, pointer, depth + 1, budget - 1);
        }
      case Arr(items) => ItemsNone(h, doc, items, 0, pointer, depth + 1, budget - 1);
      case _ =>
    }
  }

  lemma {:induction false} EntriesNone(h: Hints, doc: Json, es: seq<Entry>, pointer: string, depth: nat, budget: nat)
    requires forall i :: 0 <= i < |es| ==> es[i].value < doc && NoDeeperThan(es[i].value, MAX_DEPTH - depth)
    ensures SearchEntries(h, doc, es, pointer, depth, budget).0.Some? ==>
      exists i :: 0 <= i < |es| && HasPrice(h, es[i].value)
    ensures SearchEntries(h, doc, es, pointer, depth, budget).0.None?
            && (SearchEntries(h, doc, es, pointer, depth, budget).1 > 0 || EntryNodes(doc, es) <= budget)
      ==> forall i :: 0 <= i < |es| ==> !HasPrice(h, es[i].value)
    decreases doc, 0, |es|
  {
    if es != [] {
      var r := Search(h, es[0].value, pointer + "/" + es[0].key, depth, budget);
      NoneMeansNoPrice(h, es[0].value, pointer + "/" + es[0].key, depth, budget);
      VisitsWithinBudget(h, es[0].value, pointer + "/" + es[0].key, depth, budget);
      if r.0.None? {
        EntriesNone(h, doc, es[1..], pointer, depth, r.1);
        EntryVisits(h, doc, es[1..], pointer, depth, r.1);
        if i :| 0 <= i < |es[1..]| && HasPrice(h, es[1..][i].value) { assert HasPrice(h, es[i + 1].value); }
        assert forall i :: 0 < i < |es| ==> es[i] == es[1..][i - 1];
      }
    }
  }

  lemma {:induction false} ItemsNone(h: Hints, doc: Json, items: seq<Json>, k: nat, pointer: string, depth: nat,
                                     budget: nat)
    requires forall i :: 0 <= i < |items| ==> items[i] < doc && NoDeeperThan(items[i], MAX_DEPTH - depth)
    ensures SearchItems(h, doc, items, k, pointer, depth, budget).0.Some? ==>
      exists i :: 0 <= i < |items| && HasPrice(h, items[i])
    ensures SearchItems(h, doc, items, k, pointer, depth, budget).0.None?
            && (SearchItems(h, doc, items, k, pointer, depth, budget).1 > 0 || ItemNodes(doc, items) <= budget)
      ==> forall i :: 0 <= i < |items| ==> !HasPrice(h, items[i])
    decreases doc, 0, |items|
  {
    if items != [] {
      var r := Search(h, items[0], pointer + "/" + Show(k), depth, budget);
      NoneMeansNoPrice(h, items[0], pointer + "/" + Show(k), depth, budget);
      VisitsWithinBudget(h, items[0], pointer + "/" + Show(k), depth, budget);
      if r.0.None? {
        ItemsNone(h, doc, items[1..], k + 1, pointer, depth, r.1);
        ItemVisits(h, doc, items[1..], k + 1, pointer, depth, r.1);
        if i :| 0 <= i < |items[1..]| && HasPrice(h, items[1..][i]) { assert HasPrice(h, items[i + 1]); }
        assert forall i :: 0 < i < |items| ==> items[i] == items[1..][i - 1];
      }
    }
  }

  /** On a document of no more nodes than the budget and within the depth limit, the search decides whether there is a
      price. */
  lemma SearchDecides(h: Hints, doc: Json, budget: nat)
    requires Nodes(doc) <= budget && NoDeeperThan(doc, 8)
    ensures Search(h, doc, [], 0, budget).0.Some? <==> HasPrice(h, doc)
  {
    VisitsWithinBudget(h, doc, [], 0, budget);
    NoneMeansNoPrice(h, doc, [], 0, budget);
  }

  // ----- why the keys have to be clean

  lemma {:induction false} TokensAreClean(s: string)
    ensures forall i :: 0 <= i < |Tokens(s)| ==> Clean(Tokens(s)[i])
    decreases |s|
  {
    if s != [] {
      var k := FirstSlash(s);
      if k < |s| { TokensAreClean(s[k + 1..]); }
      if k != 0 { assert Clean(s[..k]); }
    }
  }

  /** Every key that is empty or holds a slash does fail: for a price one level down, under `key`, the parent pointer
      leads back to the object that holds the price exactly when `key` is clean, and elsewhere or nowhere otherwise. */
  lemma UncleanKeyLosesTheHolder(h: Hints, key: string, priceKey: string, price: Json, budget: int)
    requires IsPriceEntry(h, Entry(priceKey, price)) && SlashFree(priceKey) && budget >= 2
    ensures var inner := Obj([Entry(priceKey, price)]);
      var doc := Obj([Entry(key, inner)]);
      && Search(h, doc, [], 0, budget).0 == Some(Hit("/" + key + "/" + priceKey, price))
      && (Resolve(doc, Tokens(ParentPointer("/" + key + "/" + priceKey))) == Some(inner) <==> Clean(key))
  {
    var inner := Obj([Entry(priceKey, price)]);
    var doc := Obj([Entry(key, inner)]);
    assert [] + "/" + key == "/" + key;
    var below := Search(h, inner, "/" + key, 1, budget - 1);
    assert below.0 == Some(Hit("/" + key + "/" + priceKey, price));
    assert doc.entries[0].value == inner && !IsPriceEntry(h, doc.entries[0]) && doc.entries[1..] == [];
    assert ScalarHit(h, doc.entries, []) == None;
    assert SearchEntries(h, doc, doc.entries, [], 1, budget - 1) == below;
    ParentOfStep("/" + key, priceKey);
    var tokens := Tokens("/" + key);
    TokensAreClean("/" + key);
    if Clean(key) {
      TokensOfStep(key, []);
      assert "/" + key + [] == "/" + key;
    } else if tokens != [] {
      assert tokens[0] != key;
      assert Lookup(doc.entries, tokens[0]) == None by { assert doc.entries[1..] == []; }
    } else {
      assert inner < doc.entries[0];
      assert inner != doc;
    }
  }

  // ----- which price, and which currency

  /** The hit is the price entry an object holds first, nearest level first: an object's own entries before anything
      below them, and what lies below in document order. */
  ghost predicate IsFirstHit(h: Hints, doc: Json, pointer: string, hit: Hit) {
    match doc
    case Obj(es) =>
      || (exists i :: 0 <= i < |es| && HoldsPrice(h, es[i]) && (forall j :: 0 <= j < i ==> !HoldsPrice(h, es[j]))
            && hit == Hit(pointer + "/" + es[i].key, es[i].value))
      || ((forall j :: 0 <= j < |es| ==> !HoldsPrice(h, es[j]))
          && exists i :: 0 <= i < |es| && (forall j :: 0 <= j < i ==> !HasPrice(h, es[j].value))
               && IsFirstHit(h, es[i].value, pointer + "/" + es[i].key, hit))
    case Arr(items) =>
      exists i :: 0 <= i < |items| && (forall j :: 0 <= j < i ==> !HasPrice(h, items[j]))
        && IsFirstHit(h, items[i], pointer + "/" + Show(i), hit)
    case _ => false
  }

  lemma {:induction false} ScalarHitIsFirst(h: Hints, es: seq<Entry>, pointer: string) returns (i: nat)
    requires ScalarHit(h, es, pointer).Some?
    ensures i < |es| && IsPriceEntry(h, es[i]) && forall j :: 0 <= j < i ==> !IsPriceEntry(h, es[j])
    ensures ScalarHit(h, es, pointer) == Some(Hit(pointer + "/" + es[i].key, es[i].value))
  {
    if IsPriceEntry(h, es[0]) {
      i := 0;
    } else {
      var k := ScalarHitIsFirst(h, es[1..], pointer);
      i := k + 1;
      assert forall j :: 0 < j <= i ==> es[j] == es[1..][j - 1];
    }
  }

  lemma {:induction false} EntriesNeedBudget(h: Hints, doc: Json, es: seq<Entry>, pointer: string, depth: nat)
    requires forall i :: 0 <= i < |es| ==> es[i].value < doc
    ensures SearchEntries(h, doc, es, pointer, depth, 0).0.None?
  {
    if es != [] { EntriesNeedBudget(h, doc, es[1..], pointer, depth); }
  }

  lemma {:induction false} ItemsNeedBudget(h: Hints, doc: Json, items: seq<Json>, k: nat, pointer: string, depth: nat)
    requires forall i :: 0 <= i < |items| ==> items[i] < doc
    ensures SearchItems(h, doc, items, k, pointer, depth, 0).0.None?
    decreases |items|
  {
    if items != [] { ItemsNeedBudget(h, doc, items[1..], k + 1, pointer, depth); }
  }

  lemma {:induction false} EntriesFirst(h: Hints, doc: Json, k: nat, pointer: string, depth: nat, budget: nat)
    returns (i: nat)
    requires doc.Obj? && k <= |doc.entries| && NoDeeperThan(doc, MAX_DEPTH - depth + 1)
    requires forall j :: 0 <= j < k ==> !HasPrice(h, doc.entries[j].value)
    requires SearchEntries(h, doc, doc.entries[k..], pointer, depth, budget).0.Some?
    ensures i < |doc.entries| && forall j :: 0 <= j < i ==> !HasPrice(h, doc.entries[j].value)
    ensures IsFirstHit(h, doc.entries[i].value, pointer + "/" + doc.entries[i].key,
                       SearchEntries(h, doc, doc.entries[k..], pointer, depth, budget).0.value)
    decreases doc, 0, |doc.entries| - k
  {
    var e := doc.entries[k];
    assert doc.entries[k..][0] == e && doc.entries[k..][1..] == doc.entries[k + 1..];
    var r := Search(h, e.value, pointer + "/" + e.key, depth, budget);
    VisitsWithinBudget(h, e.value, pointer + "/" + e.key, depth, budget);
    if r.0.Some? {
      HitIsFirst(h, e.value, pointer + "/" + e.key, depth, budget);
      i := k;
    } else {
      if r.1 == 0 { EntriesNeedBudget(h, doc, doc.entries[k + 1..], pointer, depth); }
      NoneMeansNoPrice(h, e.value, pointer + "/" + e.key, depth, budget);
      i := EntriesFirst(h, doc, k + 1, pointer, depth, r.1);
    }
  }

  lemma {:induction false} ItemsFirst(h: Hints, doc: Json, k: nat, pointer: string, depth: nat, budget: nat)
    returns (i: nat)
    requires doc.Arr? && k <= |doc.items| && NoDeeperThan(doc, MAX_DEPTH - depth + 1)
    requires forall j :: 0 <= j < k ==> !HasPrice(h, doc.items[j])
    requires SearchItems(h, doc, doc.items[k..], k, pointer, depth, budget).0.Some?
    ensures i < |doc.items| && forall j :: 0 <= j < i ==> !HasPrice(h, doc.items[j])
    ensures IsFirstHit(h, doc.items[i], pointer + "/" + Show(i),
                       SearchItems(h, doc, doc.items[k..], k, pointer, depth, budget).0.value)
    decreases doc, 0, |doc.items| - k
  {
    var item := doc.items[k];
    assert doc.items[k..][0] == item && doc.items[k..][1..] == doc.items[k + 1..];
    var r := Search(h, item, pointer + "/" + Show(k), depth, budget);
    VisitsWithinBudget(h, item, pointer + "/" + Show(k), depth, budget);
    if r.0.Some? {
      HitIsFirst(h, item, pointer + "/" + Show(k), depth, budget);
      i := k;
    } else {
      if r.1 == 0 { ItemsNeedBudget(h, doc, doc.items[k + 1..], k + 1, pointer, depth); }
      NoneMeansNoPrice(h, item, pointer + "/" + Show(k), depth, budget);
      i := ItemsFirst(h, doc, k + 1, pointer, depth, r.1);
    }
  }

  /** In a document that is not too deep, whatever the budget, a hit is the first price. */
  lemma {:induction false} HitIsFirst(h: Hints, doc: Json, pointer: string, depth: nat, budget: nat)
    requires NoDeeperThan(doc, MAX_DEPTH - depth) && Search(h, doc, pointer, depth, budget).0.Some?
    ensures IsFirstHit(h, doc, pointer, Search(h, doc, pointer, depth, budget).0.value)
    decreases doc, 1, 0
  {
    match doc
    case Obj(es) =>
      ScalarHitIs(h, es, pointer);
      if ScalarHit(h, es, pointer).Some? {
        var i := ScalarHitIsFirst(h, es, pointer);
      } else {
        assert es[0..] == es;
        var i := EntriesFirst(h, doc, 0, pointer, depth + 1, budget - 1);
      }
    case Arr(items) =>
      assert items[0..] == items;
      var i := ItemsFirst(h, doc, 0, pointer, depth + 1, budget - 1);
  }

  /** The currency found is the first text under a currency key, and there is none only if no such text is there. */
  lemma {:induction false} FirstCurrencyExactly(h: Hints, es: seq<Entry>)
    ensures FirstCurrency(h, es).None? <==>
      forall i :: 0 <= i < |es| ==> !(h.isCurrencyKey(es[i].key) && es[i].value.Str?)
    ensures FirstCurrency(h, es).Some? ==>
      exists i :: 0 <= i < |es| && h.isCurrencyKey(es[i].key) && es[i].value == Str(FirstCurrency(h, es).value)
        && forall j :: 0 <= j < i ==> !(h.isCurrencyKey(es[j].key) && es[j].value.Str?)
  {
    if es != [] && !(h.isCurrencyKey(es[0].key) && es[0].value.Str?) {
      var rest := es[1..];
      FirstCurrencyExactly(h, rest);
      assert forall j :: 0 < j < |es| ==> es[j] == rest[j - 1];
      if FirstCurrency(h, rest).Some? {
        var i :| 0 <= i < |rest| && h.isCurrencyKey(rest[i].key) && rest[i].value == Str(FirstCurrency(h, rest).value)
          && forall j :: 0 <= j < i ==> !(h.isCurrencyKey(rest[j].key) && rest[j].value.Str?);
        assert es[i + 1] == rest[i];
      }
    }
  }
}
