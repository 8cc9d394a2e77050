/**
 scripts/check_workspace_scoping.py: the static guard that every query on a
 workspace-owned model is scoped. A node is identified by its path from the root
 of the syntax tree (the script uses object identity).
 */
module ScopingGuard {
  import opened Wrappers
  import opened Sequences

  datatype Node =
    | Name(id: string)
    | Attribute(value: Node, attr: string)
    | Call(func: Node, args: seq<Node>, keywords: seq<Node>, line: int)
    | Keyword(arg: Option<string>, argument: Node)
    | Other(parts: seq<Node>)

  type Path = seq<nat>

  const WORKSPACE_ID := "workspace_id"
  const SCOPING_METHODS := {"where", "filter", "filter_by"}

  // ----- the tree

  /** `ast.iter_child_nodes`, in field order. */
  function Children(n: Node): (r: seq<Node>)
    ensures forall i :: 0 <= i < |r| ==> r[i] < n
  {
    match n
    case Name(_) => []
    case Attribute(v, _) => [v]
    case Call(f, args, kws, _) => [f] + args + kws
    case Keyword(_, v) => [v]
    case Other(parts) => parts
  }

  function At(n: Node, p: Path): Option<Node>
    decreases |p|
  {
    if p == [] then Some(n)
    else if p[0] < |Children(n)| then At(Children(n)[p[0]], p[1..])
    else None
  }

  function Size(n: Node): nat
    decreases n, 1
  {
    1 + SizeOf(n, Children(n))
  }

  function SizeOf(n: Node, ns: seq<Node>): nat
    requires forall i :: 0 <= i < |ns| ==> ns[i] < n
    decreases n, 0, |ns|
  {
    if ns == [] then 0 else Size(ns[0]) + SizeOf(n, ns[1..])
  }

  function TotalSize(ns: seq<Node>): nat {
    if ns == [] then 0 else Size(ns[0]) + TotalSize(ns[1..])
  }

  lemma {:induction false} SizeOfIsTotal(n: Node, ns: seq<Node>)
    requires forall i :: 0 <= i < |ns| ==> ns[i] < n
    ensures SizeOf(n, ns) == TotalSize(ns)
  {
    if ns != [] { SizeOfIsTotal(n, ns[1..]); }
  }

  lemma {:induction false} TotalSizeAppend(a: seq<Node>, b: seq<Node>)
    ensures TotalSize(a + b) == TotalSize(a) + TotalSize(b)
  {
    if a == [] {
      assert a + b == b;
    } else {
      assert (a + b)[0] == a[0] && (a + b)[1..] == a[1..] + b;
      TotalSizeAppend(a[1..], b);
    }
  }

  lemma SizeIsOnePlusChildren(n: Node)
    ensures Size(n) == 1 + TotalSize(Children(n))
  {
    SizeOfIsTotal(n, Children(n));
  }

  // ----- references to workspace_id

  predicate NamesWorkspaceId(n: Node) {
    match n
    case Attribute(_, attr) => attr == WORKSPACE_ID
    case Name(id) => id == WORKSPACE_ID
    case Keyword(arg, _) => arg == Some(WORKSPACE_ID)
    case _ => false
  }

  /** Somewhere at or below `n` something is named `workspace_id`. */
  ghost predicate Mentions(n: Node) {
    exists p :: At(n, p).Some? && NamesWorkspaceId(At(n, p).value)
  }

  lemma MentionsByChildren(n: Node)
    ensures Mentions(n) <==> NamesWorkspaceId(n) || exists i :: 0 <= i < |Children(n)| && Mentions(Children(n)[i])
  {
    if Mentions(n) && !NamesWorkspaceId(n) {
      var p :| At(n, p).Some? && NamesWorkspaceId(At(n, p).value);
      assert At(Children(n)[p[0]], p[1..]).Some?;
      assert Mentions(Children(n)[p[0]]);
    }
    if NamesWorkspaceId(n) { assert At(n, []).Some?; }
    if i :| 0 <= i < |Children(n)| && Mentions(Children(n)[i]) {
      var p :| At(Children(n)[i], p).Some? && NamesWorkspaceId(At(Children(n)[i], p).value);
      var q := [i] + p;
      assert q[0] == i && q[1..] == p;
      assert At(n, q).Some?;
    }
  }

  ghost predicate AnyMentions(ns: seq<Node>) {
    exists i :: 0 <= i < |ns| && Mentions(ns[i])
  }

  lemma AnyMentionsStep(ns: seq<Node>)
    requires ns != []
    ensures AnyMentions(ns) <==> NamesWorkspaceId(ns[0]) || AnyMentions(ns[1..] + Children(ns[0]))
  {
    MentionsByChildren(ns[0]);
    var kids, next := Children(ns[0]), ns[1..] + Children(ns[0]);
    if i :| 0 <= i < |kids| && Mentions(kids[i]) { assert next[|ns| - 1 + i] == kids[i]; }
    if i :| 0 < i < |ns| && Mentions(ns[i]) { assert next[i - 1] == ns[i]; }
    if i :| 0 <= i < |next| && Mentions(next[i]) {
      assert next[i] == if i < |ns| - 1 then ns[i + 1] else kids[i - (|ns| - 1)];
    }
  }

  /** `_expr_references_workspace_id`: breadth first, as `ast.walk` visits. */
  method ExprReferencesWorkspaceId(n: Node) returns (found: bool)
    ensures found <==> Mentions(n)
  {
    var todo := [n];
    while todo != []
      invariant AnyMentions(todo) <==> Mentions(n)
      decreases TotalSize(todo)
    {
      AnyMentionsStep(todo);
      TotalSizeAppend(todo[1..], Children(todo[0]));
      SizeIsOnePlusChildren(todo[0]);
      var sub := todo[0];
      if NamesWorkspaceId(sub) {
        return true;
      }
      todo := todo[1..] + Children(sub);
    }
    return false;
  }

  ghost predicate KeywordScopes(kw: Node) {
    kw.Keyword? && (kw.arg == Some(WORKSPACE_ID) || Mentions(kw.argument))
  }

  ghost predicate HasWorkspacePredicate(call: Node) {
    call.Call? && (AnyMentions(call.args) || exists i :: 0 <= i < |call.keywords| && KeywordScopes(call.keywords[i]))
  }

  method CallHasWorkspacePredicate(call: Node) returns (found: bool)
    requires call.Call?
    ensures found <==> HasWorkspacePredicate(call)
  {
    for i := 0 to |call.args|
      invariant forall j :: 0 <= j < i ==> !Mentions(call.args[j])
    {
      var hit := ExprReferencesWorkspaceId(call.args[i]);
      if hit { return true; }
    }
    for i := 0 to |call.keywords|
      invariant forall j :: 0 <= j < i ==> !KeywordScopes(call.keywords[j])
    {
      var kw := call.keywords[i];
      if kw.Keyword? {
        if kw.arg == Some(WORKSPACE_ID) { return true; }
        var hit := ExprReferencesWorkspaceId(kw.argument);
        if hit { return true; }
      }
    }
    return false;
  }

  // ----- walking the tree

  predicate Valid(root: Node, p: Path) {
    At(root, p).Some?
  }

  lemma {:induction false} AtAppend(n: Node, p: Path, q: Path)
    ensures At(n, p + q) == if At(n, p).Some? then At(At(n, p).value, q) else None
    decreases |p|
  {
    if p == [] {
      assert p + q == q;
    } else {
      assert (p + q)[0] == p[0] && (p + q)[1..] == p[1..] + q;
      if p[0] < |Children(n)| { AtAppend(Children(n)[p[0]], p[1..], q); }
    }
  }

  lemma ChildAt(root: Node, p: Path, i: nat)
    requires Valid(root, p)
    ensures Valid(root, p + [i]) <==> i < |Children(At(root, p).value)|
    ensures Valid(root, p + [i]) ==> At(root, p + [i]).value == Children(At(root, p).value)[i]
  {
    AtAppend(root, p, [i]);
    assert [i][1..] == [];
  }

  lemma PrefixIsValid(root: Node, p: Path, q: Path)
    requires Valid(root, q) && p <= q
    ensures Valid(root, p)
  {
    assert q == p + q[|p|..];
    AtAppend(root, p, q[|p|..]);
  }

  function ChildPaths(root: Node, p: Path): (r: seq<Path>)
    requires Valid(root, p)
    ensures |r| == |Children(At(root, p).value)|
    ensures forall i :: 0 <= i < |r| ==> r[i] == p + [i]
    ensures forall i :: 0 <= i < |r| ==> Valid(root, r[i])
  {
    var kids := Children(At(root, p).value);
    var r := seq(|kids|, i requires 0 <= i < |kids| => p + [i]);
    assert forall i :: 0 <= i < |r| ==> Valid(root, r[i]) by {
      forall i | 0 <= i < |r| ensures Valid(root, r[i]) { ChildAt(root, p, i); }
    }
    r
  }

  function PendingSize(root: Node, pending: seq<Path>): nat
    requires forall i :: 0 <= i < |pending| ==> Valid(root, pending[i])
  {
    if pending == [] then 0
    else
      assert Valid(root, pending[0]);
      Size(At(root, pending[0]).value) + PendingSize(root, pending[1..])
  }

  lemma {:induction false} PendingSizeAppend(root: Node, a: seq<Path>, b: seq<Path>)
    requires forall i :: 0 <= i < |a| ==> Valid(root, a[i])
    requires forall i :: 0 <= i < |b| ==> Valid(root, b[i])
    ensures PendingSize(root, a + b) == PendingSize(root, a) + PendingSize(root, b)
  {
    if a == [] {
      assert a + b == b;
    } else {
      assert (a + b)[0] == a[0] && (a + b)[1..] == a[1..] + b;
      PendingSizeAppend(root, a[1..], b);
    }
  }

  lemma {:induction false} PendingSizeIsTotal(root: Node, ps: seq<Path>, ns: seq<Node>)
    requires |ps| == |ns|
    requires forall i :: 0 <= i < |ps| ==> Valid(root, ps[i]) && At(root, ps[i]).value == ns[i]
    ensures PendingSize(root, ps) == TotalSize(ns)
  {
    if ps != [] { PendingSizeIsTotal(root, ps[1..], ns[1..]); }
  }

  lemma PendingShrinks(root: Node, pending: seq<Path>)
    requires pending != [] && forall i :: 0 <= i < |pending| ==> Valid(root, pending[i])
    ensures forall i :: 0 <= i < |pending[1..] + ChildPaths(root, pending[0])| ==>
      Valid(root, (pending[1..] + ChildPaths(root, pending[0]))[i])
    ensures PendingSize(root, pending[1..] + ChildPaths(root, pending[0])) < PendingSize(root, pending)
  {
    var p := pending[0];
    var n, kids := At(root, p).value, ChildPaths(root, p);
    forall i | 0 <= i < |kids| ensures At(root, kids[i]).value == Children(n)[i] { ChildAt(root, p, i); }
    PendingSizeAppend(root, pending[1..], kids);
    PendingSizeIsTotal(root, kids, Children(n));
    SizeIsOnePlusChildren(n);
  }

  /** The order in which `ast.walk` yields nodes, given the queue it still has to serve. */
  function WalkFrom(root: Node, pending: seq<Path>): seq<Path>
    requires forall i :: 0 <= i < |pending| ==> Valid(root, pending[i])
    decreases PendingSize(root, pending)
  {
    if pending == [] then []
    else
      PendingShrinks(root, pending);
      [pending[0]] + WalkFrom(root, pending[1..] + ChildPaths(root, pending[0]))
  }

  function Walk(root: Node): seq<Path> {
    WalkFrom(root, [[]])
  }

  /** No queued path lies at or below another. */
  ghost predicate Antichain(pending: seq<Path>) {
    forall i, j :: 0 <= i < |pending| && 0 <= j < |pending| && i != j ==> !(pending[i] <= pending[j])
  }

  ghost predicate Below(pending: seq<Path>, q: Path) {
    exists i :: 0 <= i < |pending| && pending[i] <= q
  }

  lemma ChildPrefix(p: Path, k: nat, q: Path)
    ensures p + [k] <= q ==> p <= q
    ensures q <= p + [k] ==> q == p + [k] || q <= p
    ensures !(p + [k] <= p)
  {
    if q <= p + [k] && |q| <= |p| {
      assert forall i :: 0 <= i < |q| ==> q[i] == (p + [k])[i];
    }
  }

  lemma SiblingPrefix(p: Path, a: nat, b: nat)
    ensures p + [a] <= p + [b] ==> a == b
  {
    assert (p + [a])[|p|] == a && (p + [b])[|p|] == b;
  }

  lemma AntichainStep(root: Node, pending: seq<Path>)
    requires pending != [] && forall i :: 0 <= i < |pending| ==> Valid(root, pending[i])
    requires Antichain(pending)
    ensures Antichain(pending[1..] + ChildPaths(root, pending[0]))
    ensures !Below(pending[1..] + ChildPaths(root, pending[0]), pending[0])
  {
    var p, kids, m := pending[0], ChildPaths(root, pending[0]), |pending| - 1;
    var next := pending[1..] + kids;
    forall i | 0 <= i < |next|
      ensures i < m ==> next[i] == pending[i + 1]
      ensures i >= m ==> next[i] == p + [i - m] {}
    forall i, j | 0 <= i < |next| && 0 <= j < |next| && i != j ensures !(next[i] <= next[j]) {
      if j >= m { ChildPrefix(p, j - m, next[i]); }
      if i >= m { ChildPrefix(p, i - m, next[j]); }
      if i >= m && j >= m { SiblingPrefix(p, i - m, j - m); }
    }
    forall i | 0 <= i < |next| ensures !(next[i] <= p) {
      if i >= m { ChildPrefix(p, i - m, p); }
    }
  }

  lemma BelowStep(root: Node, pending: seq<Path>, q: Path)
    requires pending != [] && forall i :: 0 <= i < |pending| ==> Valid(root, pending[i])
    requires Valid(root, q)
    ensures Below(pending, q) <==> q == pending[0] || Below(pending[1..] + ChildPaths(root, pending[0]), q)
  {
    var p, kids := pending[0], ChildPaths(root, pending[0]);
    var next := pending[1..] + kids;
    if i :| 0 <= i < |pending| && pending[i] <= q {
      if i > 0 {
        assert next[i - 1] == pending[i];
      } else if q != p {
        var k := q[|p|];
        assert p + [k] <= q;
        PrefixIsValid(root, p + [k], q);
        ChildAt(root, p, k);
        assert next[|pending| - 1 + k] == p + [k];
      }
    }
    if i :| 0 <= i < |next| && next[i] <= q {
      if i < |pending| - 1 { assert pending[i + 1] == next[i]; } else { assert p <= next[i]; assert pending[0] <= q; }
    }
    if q == p { assert pending[0] <= q; }
  }

  /** The walk yields every node at or below the queue, exactly once. */
  lemma {:induction false} WalkFromIsExact(root: Node, pending: seq<Path>)
    requires forall i :: 0 <= i < |pending| ==> Valid(root, pending[i])
    requires Antichain(pending)
    ensures forall q :: q in WalkFrom(root, pending) <==> Valid(root, q) && Below(pending, q)
    ensures forall i, j :: 0 <= i < j < |WalkFrom(root, pending)| ==>
      WalkFrom(root, pending)[i] != WalkFrom(root, pending)[j]
    decreases PendingSize(root, pending)
  {
    if pending != [] {
      PendingShrinks(root, pending);
      AntichainStep(root, pending);
      var next := pending[1..] + ChildPaths(root, pending[0]);
      WalkFromIsExact(root, next);
      var rest := WalkFrom(root, next);
      forall q ensures q in WalkFrom(root, pending) <==> Valid(root, q) && Below(pending, q) {
        if Valid(root, q) { BelowStep(root, pending, q); }
      }
      assert pending[0] !in rest;
    }
  }

  lemma WalkIsExact(root: Node)
    ensures forall q :: q in Walk(root) <==> Valid(root, q)
    ensures forall i, j :: 0 <= i < j < |Walk(root)| ==> Walk(root)[i] != Walk(root)[j]
  {
    var start: seq<Path> := [[]];
    WalkFromIsExact(root, start);
    forall q: Path ensures Below(start, q) { assert start[0] <= q; }
  }

  lemma WalkStep(root: Node, order: seq<Path>, todo: seq<Path>)
    requires todo != [] && forall i :: 0 <= i < |todo| ==> Valid(root, todo[i])
    ensures var next := todo[1..] + ChildPaths(root, todo[0]);
      && (forall i :: 0 <= i < |next| ==> Valid(root, next[i]))
      && PendingSize(root, next) < PendingSize(root, todo)
      && order + [todo[0]] + WalkFrom(root, next) == order + WalkFrom(root, todo)
  {
    PendingShrinks(root, todo);
  }

  /** `ast.walk`, as a queue. */
  method WalkTree(root: Node) returns (order: seq<Path>)
    ensures order == Walk(root)
  {
    order := [];
    var todo: seq<Path> := [[]];
    while todo != []
      invariant forall i :: 0 <= i < |todo| ==> Valid(root, todo[i])
      invariant order + WalkFrom(root, todo) == Walk(root)
      decreases PendingSize(root, todo)
    {
      WalkStep(root, order, todo);
      order := order + [todo[0]];
      todo := todo[1..] + ChildPaths(root, todo[0]);
    }
  }

  // ----- the parent map

  ghost predicate IsParentMap(root: Node, parents: map<Path, Path>) {
    && (forall q :: q in parents <==> q != [] && Valid(root, q))
    && (forall q :: q in parents ==> q != [] && parents[q] == q[..|q| - 1])
  }

  /** The parent map after the children of the nodes in `done` have been entered. */
  ghost predicate ParentsOf(root: Node, done: seq<Path>, parents: map<Path, Path>) {
    forall q :: q in parents <==> q != [] && Valid(root, q) && q[..|q| - 1] in done
  }

  method EnterChildren(root: Node, p: Path, before: map<Path, Path>) returns (parents: map<Path, Path>)
    requires Valid(root, p)
    ensures forall q :: q in parents <==> q in before || q in ChildPaths(root, p)
    ensures forall q :: q in parents ==> parents[q] == if q in ChildPaths(root, p) then p else before[q]
  {
    var kids := ChildPaths(root, p);
    parents := before;
    for k := 0 to |kids|
      invariant forall q :: q in parents <==> q in before || q in kids[..k]
      invariant forall q :: q in parents ==> parents[q] == if q in kids[..k] then p else before[q]
    {
      assert kids[..k + 1] == kids[..k] + [kids[k]];
      parents := parents[kids[k] := p];
    }
    assert kids[..|kids|] == kids;
  }

  lemma OneMoreParent(root: Node, done: seq<Path>, p: Path, before: map<Path, Path>, parents: map<Path, Path>)
    requires Valid(root, p) && ParentsOf(root, done, before)
    requires forall q :: q in before ==> q != [] && before[q] == q[..|q| - 1]
    requires forall q :: q in parents <==> q in before || q in ChildPaths(root, p)
    requires forall q :: q in parents ==> parents[q] == if q in ChildPaths(root, p) then p else before[q]
    ensures ParentsOf(root, done + [p], parents)
    ensures forall q :: q in parents ==> q != [] && parents[q] == q[..|q| - 1]
  {
    forall q ensures q in ChildPaths(root, p) <==> q != [] && Valid(root, q) && q[..|q| - 1] == p {
      KidsAreChildren(root, p, q);
    }
  }

  lemma AllParents(root: Node, parents: map<Path, Path>)
    requires ParentsOf(root, Walk(root), parents)
    requires forall q :: q in parents ==> q != [] && parents[q] == q[..|q| - 1]
    ensures IsParentMap(root, parents)
  {
    WalkIsExact(root);
    forall q | q != [] && Valid(root, q) ensures q in parents {
      assert q[..|q| - 1] <= q;
      PrefixIsValid(root, q[..|q| - 1], q);
      assert q[..|q| - 1] in Walk(root);
    }
  }

  lemma WalkIsValid(root: Node)
    ensures forall p :: p in Walk(root) ==> Valid(root, p)
  {
    WalkIsExact(root);
  }

  method BuildParentMap(root: Node) returns (parents: map<Path, Path>)
    ensures IsParentMap(root, parents)
  {
    var order := WalkTree(root);
    WalkIsValid(root);
    parents := map[];
    for i := 0 to |order|
      invariant ParentsOf(root, order[..i], parents)
      invariant forall q :: q in parents ==> q != [] && parents[q] == q[..|q| - 1]
    {
      assert order[i] in order;
      var next := EnterChildren(root, order[i], parents);
      OneMoreParent(root, order[..i], order[i], parents, next);
      assert order[..i + 1] == order[..i] + [order[i]];
      parents := next;
    }
    assert order[..|order|] == order;
    AllParents(root, parents);
  }

  lemma KidsAreChildren(root: Node, p: Path, q: Path)
    requires Valid(root, p)
    ensures q in ChildPaths(root, p) <==> q != [] && Valid(root, q) && q[..|q| - 1] == p
  {
    if q in ChildPaths(root, p) {
      var i :| 0 <= i < |ChildPaths(root, p)| && ChildPaths(root, p)[i] == q;
      assert q == p + [i];
    }
    if q != [] && Valid(root, q) && q[..|q| - 1] == p {
      var k := q[|q| - 1];
      assert q == p + [k];
      ChildAt(root, p, k);
      assert ChildPaths(root, p)[k] == q;
    }
  }

  // ----- fluent call chains, top down

  predicate MethodCall(root: Node, q: Path) {
    Valid(root, q) && At(root, q).value.Call? && At(root, q).value.func.Attribute?
  }

  /** Where the receiver of a method call at `q` sits: the value of its function, `<receiver>.attr(...)`. */
  function Receiver(q: Path): Path {
    q + [0, 0]
  }

  /** The method call at `q` heads a fluent chain `p.a(...).b(...)...` that starts at `p`. */
  predicate Heads(root: Node, q: Path, p: Path)
    decreases |p| - |q|
  {
    |q| + 2 <= |p| && MethodCall(root, q) && (Receiver(q) == p || Heads(root, Receiver(q), p))
  }

  ghost predicate ScopingCall(root: Node, q: Path) {
    MethodCall(root, q) && At(root, q).value.func.attr in SCOPING_METHODS && HasWorkspacePredicate(At(root, q).value)
  }

  /** Some enclosing method call of the chain that starts at `p` is a scoping method with a workspace predicate. */
  ghost predicate ScopedChain(root: Node, p: Path) {
    exists q :: Heads(root, q, p) && ScopingCall(root, q)
  }

  /** The call one link up the chain from `c`. */
  function Up(c: Path): Path
    requires |c| >= 2
  {
    c[..|c| - 2]
  }

  predicate OnChain(root: Node, c: Path, p: Path) {
    c == p || Heads(root, c, p)
  }

  lemma {:induction false} HeadsIsPrefix(root: Node, q: Path, p: Path)
    requires Heads(root, q, p)
    ensures q <= p && (|p| - |q|) % 2 == 0
    decreases |p| - |q|
  {
    if Receiver(q) != p { HeadsIsPrefix(root, Receiver(q), p); }
  }

  /** Chains are linear: between a head `q` and any point `c` below it on the chain there is a link just above `c`. */
  lemma {:induction false} LinkAbove(root: Node, q: Path, c: Path, p: Path)
    requires Heads(root, q, p) && OnChain(root, c, p) && |q| < |c|
    ensures |c| >= 2 && MethodCall(root, Up(c)) && Receiver(Up(c)) == c && Heads(root, Up(c), p) && |q| <= |Up(c)|
    decreases |p| - |q|
  {
    HeadsIsPrefix(root, q, p);
    if c != p { HeadsIsPrefix(root, c, p); }
    var r := Receiver(q);
    if r != p { HeadsIsPrefix(root, r, p); }
    assert |c| >= |r|;
    if |c| == |r| {
      assert c == r;
      assert Up(c) == q;
    } else {
      LinkAbove(root, r, c, p);
    }
  }

  lemma LinkIsInTree(root: Node, c: Path)
    requires |c| >= 2 && MethodCall(root, Up(c)) && Receiver(Up(c)) == c
    ensures var u := Up(c);
      && Valid(root, u + [0]) && At(root, u + [0]).value == At(root, u).value.func
      && Valid(root, c) && c[..|c| - 1] == u + [0] && c[|c| - 1] == 0
  {
    var u := Up(c);
    ChildAt(root, u, 0);
    ChildAt(root, u + [0], 0);
    assert c == (u + [0]) + [0];
  }

  /** Bottom up: `c` is the receiver of a method call exactly when the two parents above it say so. */
  lemma ParentsShowLink(root: Node, parents: map<Path, Path>, c: Path)
    requires IsParentMap(root, parents) && Valid(root, c)
    ensures (|c| >= 2 && MethodCall(root, Up(c)) && Receiver(Up(c)) == c) <==>
      (c in parents
       && var parent := parents[c];
          At(root, parent).Some? && At(root, parent).value.Attribute? && parent + [0] == c
          && parent in parents && At(root, parents[parent]).Some? && At(root, parents[parent]).value.Call?
          && parents[parent] + [0] == parent)
  {
    if |c| >= 2 && MethodCall(root, Up(c)) && Receiver(Up(c)) == c {
      LinkIsInTree(root, c);
      assert (Up(c) + [0])[..|Up(c) + [0]| - 1] == Up(c);
      PrefixIsValid(root, Up(c), c);
    } else if c in parents {
      var parent := parents[c];
      if At(root, parent).Some? && parent in parents && At(root, parents[parent]).Some?
         && At(root, parents[parent]).value.Call? && parents[parent] + [0] == parent && parent + [0] == c {
        ChildAt(root, parents[parent], 0);
        assert Up(c) == parents[parent];
        assert c == Receiver(Up(c));
      }
    }
  }

  /** `_chain_is_scoped`: the climb from the call at `p` through the parent map. */
  method ChainIsScoped(root: Node, p: Path, parents: map<Path, Path>) returns (scoped: bool)
    requires Valid(root, p) && IsParentMap(root, parents)
    ensures scoped <==> ScopedChain(root, p)
  {
    var current := p;
    while true
      invariant Valid(root, current) && OnChain(root, current, p)
      invariant forall q :: Heads(root, q, p) && ScopingCall(root, q) ==> |q| < |current|
      decreases |current|
    {
      ParentsShowLink(root, parents, current);
      forall q | Heads(root, q, p) && ScopingCall(root, q)
        ensures |current| >= 2 && MethodCall(root, Up(current)) && Receiver(Up(current)) == current
                && Heads(root, Up(current), p) && |q| <= |Up(current)|
      {
        LinkAbove(root, q, current, p);
      }
      if current !in parents {
        return false;
      }
      var parent := parents[current];
      if At(root, parent).None? || !At(root, parent).value.Attribute? || parent + [0] != current {
        return false;
      }
      if parent !in parents || At(root, parents[parent]).None? || !At(root, parents[parent]).value.Call?
         || parents[parent] + [0] != parent {
        return false;
      }
      var callParent := parents[parent];
      assert Up(current) == callParent;
      HeadsFromLink(root, callParent, current, p);
      var call := At(root, callParent).value;
      if call.func.attr in SCOPING_METHODS {
        var has := CallHasWorkspacePredicate(call);
        if has {
          return true;
        }
      }
      SameHead(root, callParent, p);
      current := callParent;
    }
  }

  lemma HeadsFromLink(root: Node, u: Path, c: Path, p: Path)
    requires MethodCall(root, u) && Receiver(u) == c && OnChain(root, c, p)
    ensures Heads(root, u, p)
  {}

  lemma SameHead(root: Node, u: Path, p: Path)
    requires Heads(root, u, p)
    ensures forall q :: Heads(root, q, p) && |q| == |u| ==> q == u
  {
    HeadsIsPrefix(root, u, p);
    forall q | Heads(root, q, p) && |q| == |u| ensures q == u { HeadsIsPrefix(root, q, p); }
  }

  // ----- the check of one file

  datatype Pattern = Get | SelectCall | Query

  datatype Violation = Violation(line: int, pattern: Pattern, model: string)

  const NOQA_MARKER := "# noqa: workspace-scope"

  predicate MatchesAt(s: string, m: string, i: nat) {
    i + |m| <= |s| && s[i..i + |m|] == m
  }

  predicate Contains(s: string, m: string) {
    exists i :: 0 <= i <= |s| && MatchesAt(s, m, i)
  }

  predicate LineHasNoqa(lines: seq<string>, line: int) {
    1 <= line <= |lines| && Contains(lines[line - 1], NOQA_MARKER)
  }

  /** `_name_or_attr_matches` */
  function GuardedModel(n: Node, guarded: set<string>): Option<string> {
    match n
    case Name(id) => if id in guarded then Some(id) else None
    case Attribute(_, attr) => if attr in guarded then Some(attr) else None
    case _ => None
  }

  /** Which of the guarded call shapes a node is, whatever its model. */
  function PatternOf(n: Node): Option<Pattern> {
    if !n.Call? || n.args == [] then None
    else
      match n.func
      case Attribute(_, attr) => if attr == "get" then Some(Get) else if attr == "query" then Some(Query) else None
      case Name(id) => if id == "select" then Some(SelectCall) else None
      case _ => None
  }

  /** The guarded access made at `p`, if any: its shape and the model it names. */
  function AccessAt(root: Node, guarded: set<string>, p: Path): Option<(Pattern, string)>
    requires Valid(root, p)
  {
    var n := At(root, p).value;
    match PatternOf(n)
    case None => None
    case Some(pattern) =>
      match GuardedModel(n.args[0], guarded)
      case None => None
      case Some(model) => Some((pattern, model))
  }

  /** The access at `p` is excused: its line carries the pragma, or it is a query whose chain is scoped. */
  ghost predicate Excused(root: Node, guarded: set<string>, lines: seq<string>, p: Path)
    requires Valid(root, p) && AccessAt(root, guarded, p).Some?
  {
    || LineHasNoqa(lines, At(root, p).value.line)
    || (AccessAt(root, guarded, p).value.0 != Get && ScopedChain(root, p))
  }

  ghost predicate Offends(root: Node, guarded: set<string>, lines: seq<string>, p: Path) {
    Valid(root, p) && AccessAt(root, guarded, p).Some? && !Excused(root, guarded, lines, p)
  }

  function ViolationAt(root: Node, guarded: set<string>, p: Path): Violation
    requires Valid(root, p) && AccessAt(root, guarded, p).Some?
  {
    var access := AccessAt(root, guarded, p).value;
    Violation(At(root, p).value.line, access.0, access.1)
  }

  ghost function Report(root: Node, guarded: set<string>, lines: seq<string>, order: seq<Path>): seq<Violation> {
    if order == [] then []
    else (if Offends(root, guarded, lines, order[0]) then [ViolationAt(root, guarded, order[0])] else [])
         + Report(root, guarded, lines, order[1..])
  }

  method CheckFile(root: Node, guarded: set<string>, lines: seq<string>) returns (violations: seq<Violation>)
    ensures violations == Report(root, guarded, lines, Walk(root))
  {
    var parents := BuildParentMap(root);
    var order := WalkTree(root);
    WalkIsExact(root);
    violations := [];
    assert order[0..] == order;
    for i := 0 to |order|
      invariant violations + Report(root, guarded, lines, order[i..]) == Report(root, guarded, lines, order)
    {
      assert order[i] in order;
      var found := CheckNode(root, guarded, lines, order[i], parents);
      ReportStep(root, guarded, lines, order, i, violations, found);
      violations := violations + found;
    }
    assert order[|order|..] == [];
  }

  lemma ReportStep(root: Node, guarded: set<string>, lines: seq<string>, order: seq<Path>, i: nat,
                   before: seq<Violation>, found: seq<Violation>)
    requires i < |order|
    requires found == if Offends(root, guarded, lines, order[i]) then [ViolationAt(root, guarded, order[i])] else []
    ensures (before + found) + Report(root, guarded, lines, order[i + 1..])
         == before + Report(root, guarded, lines, order[i..])
  {
    assert order[i..][0] == order[i] && order[i..][1..] == order[i + 1..];
    Assoc(before, found, Report(root, guarded, lines, order[i + 1..]));
  }

  /** What makes a node of a guarded shape offend, and what is then said of it. */
  lemma VerdictAt(root: Node, guarded: set<string>, lines: seq<string>, p: Path)
    requires Valid(root, p)
    ensures var n := At(root, p).value;
      match PatternOf(n)
      case None => !Offends(root, guarded, lines, p)
      case Some(pattern) =>
        var model := GuardedModel(n.args[0], guarded);
        && (Offends(root, guarded, lines, p) <==>
              model.Some? && !LineHasNoqa(lines, n.line) && (pattern == Get || !ScopedChain(root, p)))
        && (model.Some? ==> AccessAt(root, guarded, p) == Some((pattern, model.value)))
  {}

  /** The body of the loop over `ast.walk(tree)`. */
  method CheckNode(root: Node, guarded: set<string>, lines: seq<string>, p: Path, parents: map<Path, Path>)
    returns (found: seq<Violation>)
    requires Valid(root, p) && IsParentMap(root, parents)
    ensures found == if Offends(root, guarded, lines, p) then [ViolationAt(root, guarded, p)] else []
  {
    var node := At(root, p).value;
    VerdictAt(root, guarded, lines, p);
    if !node.Call? {
      return [];
    }
    if node.func.Attribute? && node.func.attr == "get" && node.args != [] {
      var model := GuardedModel(node.args[0], guarded);
      if model.Some? && !LineHasNoqa(lines, node.line) {
        return [Violation(node.line, Get, model.value)];
      }
      return [];
    }
    if node.func.Name? && node.func.id == "select" && node.args != [] {
      found := CheckQuery(root, guarded, lines, p, parents, SelectCall);
      return;
    }
    if node.func.Attribute? && node.func.attr == "query" && node.args != [] {
      found := CheckQuery(root, guarded, lines, p, parents, Query);
      return;
    }
    return [];
  }

  /** A `select` or a `query`: it needs a scoped chain or the pragma. */
  method CheckQuery(root: Node, guarded: set<string>, lines: seq<string>, p: Path, parents: map<Path, Path>,
                    pattern: Pattern)
    returns (found: seq<Violation>)
    requires Valid(root, p) && IsParentMap(root, parents)
    requires At(root, p).value.Call? && PatternOf(At(root, p).value) == Some(pattern) && pattern != Get
    ensures found == if Offends(root, guarded, lines, p) then [ViolationAt(root, guarded, p)] else []
  {
    var node := At(root, p).value;
    VerdictAt(root, guarded, lines, p);
    var model := GuardedModel(node.args[0], guarded);
    if model.Some? {
      var scoped := ChainIsScoped(root, p, parents);
      if !scoped && !LineHasNoqa(lines, node.line) {
        return [Violation(node.line, pattern, model.value)];
      }
    }
    return [];
  }

  // ----- what the report means

  ghost function Sites(root: Node, guarded: set<string>, lines: seq<string>, order: seq<Path>): seq<Path> {
    if order == [] then []
    else (if Offends(root, guarded, lines, order[0]) then [order[0]] else []) + Sites(root, guarded, lines, order[1..])
  }

  lemma {:induction false} SitesAreOffences(root: Node, guarded: set<string>, lines: seq<string>, order: seq<Path>)
    requires forall i, j :: 0 <= i < j < |order| ==> order[i] != order[j]
    ensures var s := Sites(root, guarded, lines, order);
      && (forall p :: p in s <==> p in order && Offends(root, guarded, lines, p))
      && (forall i, j :: 0 <= i < j < |s| ==> s[i] != s[j])
  {
    if order != [] {
      SitesAreOffences(root, guarded, lines, order[1..]);
      assert order == [order[0]] + order[1..];
      assert order[0] !in order[1..];
    }
  }

  ghost predicate Describes(root: Node, guarded: set<string>, lines: seq<string>, sites: seq<Path>,
                            report: seq<Violation>)
  {
    && |report| == |sites|
    && (forall i :: 0 <= i < |sites| ==>
          Offends(root, guarded, lines, sites[i]) && report[i] == ViolationAt(root, guarded, sites[i]))
  }

  lemma DescribesOneMore(root: Node, guarded: set<string>, lines: seq<string>, p: Path, sites: seq<Path>,
                         report: seq<Violation>)
    requires Describes(root, guarded, lines, sites, report) && Offends(root, guarded, lines, p)
    ensures Describes(root, guarded, lines, [p] + sites, [ViolationAt(root, guarded, p)] + report)
  {}

  lemma {:induction false} ReportFollowsSites(root: Node, guarded: set<string>, lines: seq<string>, order: seq<Path>)
    ensures Describes(root, guarded, lines, Sites(root, guarded, lines, order), Report(root, guarded, lines, order))
  {
    if order != [] {
      ReportFollowsSites(root, guarded, lines, order[1..]);
      if Offends(root, guarded, lines, order[0]) {
        DescribesOneMore(root, guarded, lines, order[0], Sites(root, guarded, lines, order[1..]),
                         Report(root, guarded, lines, order[1..]));
      }
    }
  }

  /** The report has one entry for each offending call of the file and no other: the sites of its entries
      are distinct and are exactly the offending nodes of the whole tree. */
  lemma EachOffenceReportedOnce(root: Node, guarded: set<string>, lines: seq<string>) returns (sites: seq<Path>)
    ensures forall p :: p in sites <==> Offends(root, guarded, lines, p)
    ensures forall i, j :: 0 <= i < j < |sites| ==> sites[i] != sites[j]
    ensures |Report(root, guarded, lines, Walk(root))| == |sites|
    ensures forall i :: 0 <= i < |sites| ==>
      Offends(root, guarded, lines, sites[i])
      && Report(root, guarded, lines, Walk(root))[i] == ViolationAt(root, guarded, sites[i])
  {
    WalkIsExact(root);
    SitesAreOffences(root, guarded, lines, Walk(root));
    ReportFollowsSites(root, guarded, lines, Walk(root));
    sites := Sites(root, guarded, lines, Walk(root));
  }

  /** A file passes exactly when every guarded `.get` carries the pragma and every guarded `select` or `query` carries
      it or is scoped somewhere up its own call chain. */
  lemma CleanExactly(root: Node, guarded: set<string>, lines: seq<string>)
    ensures Report(root, guarded, lines, Walk(root)) == [] <==>
      forall p :: Valid(root, p) && AccessAt(root, guarded, p).Some? ==> Excused(root, guarded, lines, p)
  {
    var sites := EachOffenceReportedOnce(root, guarded, lines);
    if p :| Valid(root, p) && AccessAt(root, guarded, p).Some? && !Excused(root, guarded, lines, p) {
      assert Offends(root, guarded, lines, p);
      assert p in sites;
    }
    if sites != [] { assert Offends(root, guarded, lines, sites[0]); }
  }

  // ----- the order of the walk

  /** The first difference of two paths decides. */
  ghost predicate LeftOf(p: Path, q: Path) {
    exists k :: 0 <= k < |p| && k < |q| && p[k] < q[k] && p[..k] == q[..k]
  }

  /** Upper levels first, from left to right. */
  ghost predicate Earlier(p: Path, q: Path) {
    |p| < |q| || (|p| == |q| && LeftOf(p, q))
  }

  /** A queue of a breadth-first walk: in order, over at most two levels, the lower one holding only children of nodes
      to the left of the first. */
  ghost predicate Queued(pending: seq<Path>) {
    && (forall i, j :: 0 <= i < j < |pending| ==> Earlier(pending[i], pending[j]))
    && (forall j :: 0 <= j < |pending| ==>
          || |pending[j]| == |pending[0]|
          || (|pending[j]| == |pending[0]| + 1 && LeftOf(pending[j][..|pending[0]|], pending[0])))
  }

  lemma LeftOfChildren(p: Path, q: Path, i: nat, j: nat)
    ensures i < j ==> Earlier(p + [i], p + [j])
    ensures LeftOf(p, q) && |p| == |q| ==> LeftOf(p + [i], q + [j])
  {
    if i < j { assert (p + [i])[..|p|] == (p + [j])[..|p|]; }
    if LeftOf(p, q) && |p| == |q| {
      var k :| 0 <= k < |p| && k < |q| && p[k] < q[k] && p[..k] == q[..k];
      assert (p + [i])[..k] == p[..k] && (q + [j])[..k] == q[..k];
    }
  }

  /** `next` is the queue without its first path, and the children of that path behind it. */
  ghost predicate Served(pending: seq<Path>, next: seq<Path>) {
    && |pending| > 0 && |next| >= |pending| - 1
    && (forall i :: 0 <= i < |pending| - 1 ==> next[i] == pending[i + 1])
    && (forall i: nat :: |pending| - 1 <= i < |next| ==> next[i] == pending[0] + [i - (|pending| - 1)])
  }

  lemma NextIsEarlier(pending: seq<Path>, next: seq<Path>, i: nat, j: nat)
    requires Queued(pending) && Served(pending, next) && i < j < |next|
    ensures Earlier(next[i], next[j])
  {
    var p, m := pending[0], |pending| - 1;
    if j < m {
      assert Earlier(pending[i + 1], pending[j + 1]);
    } else if i >= m {
      LeftOfChildren(p, p, i - m, j - m);
    } else if |next[i]| == |p| + 1 {
      var c := next[i];
      assert c == pending[i + 1] && c == c[..|p|] + [c[|p|]];
      LeftOfChildren(c[..|p|], p, c[|p|], j - m);
    }
  }

  lemma NextIsNear(pending: seq<Path>, next: seq<Path>, j: nat)
    requires Queued(pending) && Served(pending, next) && j < |next|
    ensures |next[j]| == |next[0]| || (|next[j]| == |next[0]| + 1 && LeftOf(next[j][..|next[0]|], next[0]))
  {
    var p, m := pending[0], |pending| - 1;
    if j > 0 { NextIsEarlier(pending, next, 0, j); }
    if |next[0]| == |p| && |next[j]| == |p| + 1 {
      assert next[0] == pending[1] && Earlier(p, pending[1]);
      if j >= m {
        assert next[j][..|p|] == p;
      } else {
        assert next[j] == pending[j + 1];
        LeftOfTwice(next[j][..|p|], p, next[0]);
      }
    }
  }

  lemma QueueMovesOn(pending: seq<Path>, next: seq<Path>)
    requires Queued(pending) && Served(pending, next)
    ensures Queued(next)
    ensures forall i :: 0 <= i < |next| ==> Earlier(pending[0], next[i])
  {
    forall i, j | 0 <= i < j < |next| ensures Earlier(next[i], next[j]) { NextIsEarlier(pending, next, i, j); }
    forall j | 0 <= j < |next|
      ensures |next[j]| == |next[0]| || (|next[j]| == |next[0]| + 1 && LeftOf(next[j][..|next[0]|], next[0]))
    {
      NextIsNear(pending, next, j);
    }
  }

  lemma LeftOfTwice(a: Path, b: Path, c: Path)
    requires LeftOf(a, b) && LeftOf(b, c) && |a| == |b| == |c|
    ensures LeftOf(a, c)
  {
    var j :| 0 <= j < |a| && j < |b| && a[j] < b[j] && a[..j] == b[..j];
    var k :| 0 <= k < |b| && k < |c| && b[k] < c[k] && b[..k] == c[..k];
    var n := if j < k then j else k;
    assert a[..n] == a[..j][..n] && b[..n] == b[..j][..n] && b[..n] == b[..k][..n] && c[..n] == c[..k][..n];
    if j < k { assert b[..k][j] == c[..k][j]; }
    if k < j { assert a[..j][k] == b[..j][k]; }
    assert a[n] < c[n];
  }

  ghost predicate InOrder(order: seq<Path>) {
    forall i, j :: 0 <= i < j < |order| ==> Earlier(order[i], order[j])
  }

  lemma EarlierThanBelow(p: Path, next: seq<Path>, q: Path)
    requires Below(next, q) && forall i :: 0 <= i < |next| ==> Earlier(p, next[i])
    ensures Earlier(p, q)
  {
    var i :| 0 <= i < |next| && next[i] <= q;
    assert Earlier(p, next[i]);
  }

  lemma FirstInOrder(p: Path, rest: seq<Path>)
    requires InOrder(rest) && forall q :: q in rest ==> Earlier(p, q)
    ensures InOrder([p] + rest)
  {}

  lemma {:induction false} WalkFromInOrder(root: Node, pending: seq<Path>)
    requires forall i :: 0 <= i < |pending| ==> Valid(root, pending[i])
    requires Antichain(pending) && Queued(pending)
    ensures InOrder(WalkFrom(root, pending))
    decreases PendingSize(root, pending)
  {
    if pending != [] {
      var next := pending[1..] + ChildPaths(root, pending[0]);
      PendingShrinks(root, pending);
      AntichainStep(root, pending);
      QueueMovesOn(pending, next);
      WalkFromInOrder(root, next);
      WalkFromIsExact(root, next);
      forall q | q in WalkFrom(root, next) ensures Earlier(pending[0], q) { EarlierThanBelow(pending[0], next, q); }
      FirstInOrder(pending[0], WalkFrom(root, next));
    }
  }

  /** The walk goes level by level, each from left to right. */
  lemma WalkIsBreadthFirst(root: Node)
    ensures InOrder(Walk(root))
  {
    WalkFromInOrder(root, [[]]);
  }

  // ----- an offence, told in the syntax

  /** `workspace_id` is named somewhere in the expression, as a name, an attribute or a keyword. */
  ghost predicate NamesItDeep(n: Node) {
    match n
    case Name(id) => id == "workspace_id"
    case Attribute(value, attr) => attr == "workspace_id" || NamesItDeep(value)
    case Call(func, args, keywords, _) =>
      || NamesItDeep(func)
      || (exists i :: 0 <= i < |args| && NamesItDeep(args[i]))
      || (exists i :: 0 <= i < |keywords| && NamesItDeep(keywords[i]))
    case Keyword(arg, argument) => arg == Some("workspace_id") || NamesItDeep(argument)
    case Other(parts) => exists i :: 0 <= i < |parts| && NamesItDeep(parts[i])
  }

  lemma {:induction false} MentionsDeep(n: Node)
    ensures Mentions(n) <==> NamesItDeep(n)
  {
    MentionsByChildren(n);
    forall i | 0 <= i < |Children(n)| ensures Mentions(Children(n)[i]) <==> NamesItDeep(Children(n)[i]) {
      MentionsDeep(Children(n)[i]);
    }
    match n
    case Attribute(value, _) => assert Children(n)[0] == value;
    case Keyword(_, argument) => assert Children(n)[0] == argument;
    case Call(func, args, keywords, _) =>
      assert Children(n)[0] == func;
      if i :| 0 <= i < |args| && NamesItDeep(args[i]) { assert Children(n)[1 + i] == args[i]; }
      if i :| 0 <= i < |keywords| && NamesItDeep(keywords[i]) { assert Children(n)[1 + |args| + i] == keywords[i]; }
    case Other(parts) => assert Children(n) == parts;
    case Name(_) =>
  }

  /** `<receiver>.where(...)` and its like, with the workspace in an argument. */
  ghost predicate Scopes(n: Node) {
    && n.Call? && n.func.Attribute? && n.func.attr in {"where", "filter", "filter_by"}
    && (|| (exists i :: 0 <= i < |n.args| && NamesItDeep(n.args[i]))
        || (exists i :: 0 <= i < |n.keywords| && n.keywords[i].Keyword? && NamesItDeep(n.keywords[i])))
  }

  lemma ScopesExactly(root: Node, q: Path)
    ensures ScopingCall(root, q) <==> At(root, q).Some? && Scopes(At(root, q).value)
  {
    if At(root, q).Some? && At(root, q).value.Call? {
      var n := At(root, q).value;
      forall i | 0 <= i < |n.args| ensures Mentions(n.args[i]) <==> NamesItDeep(n.args[i]) { MentionsDeep(n.args[i]); }
      forall i | 0 <= i < |n.keywords| && n.keywords[i].Keyword?
        ensures Mentions(n.keywords[i].argument) <==> NamesItDeep(n.keywords[i].argument)
      {
        MentionsDeep(n.keywords[i].argument);
      }
    }
  }

  predicate MethodAt(n: Option<Node>) {
    n.Some? && n.value.Call? && n.value.func.Attribute?
  }

  /** From `q` down to `p` through `links` method calls: from each through its function to its receiver. */
  ghost predicate ChainDown(root: Node, q: Path, p: Path, links: int) {
    && links >= 1 && |q| + 2 * links == |p| && q <= p
    && forall j :: 0 <= j < links ==> LinkDown(root, p, |q| + 2 * j)
  }

  predicate LinkDown(root: Node, p: Path, at: int) {
    0 <= at && at + 2 <= |p| && p[at] == 0 && p[at + 1] == 0 && MethodAt(At(root, p[..at]))
  }

  lemma FirstLink(root: Node, q: Path, p: Path)
    requires q + [0, 0] <= p
    ensures q <= p && (MethodCall(root, q) <==> LinkDown(root, p, |q|))
  {
    var r := q + [0, 0];
    assert p[..|q|] == q && p[|q|] == r[|q|] && p[|q| + 1] == r[|q| + 1];
  }

  lemma OneLinkMore(root: Node, q: Path, p: Path, links: int)
    requires LinkDown(root, p, |q|) && q <= p && ChainDown(root, q + [0, 0], p, links)
    ensures ChainDown(root, q, p, links + 1)
  {
    forall j | 1 <= j <= links ensures LinkDown(root, p, |q| + 2 * j) {
      assert LinkDown(root, p, |q + [0, 0]| + 2 * (j - 1));
    }
  }

  lemma {:induction false} HeadsGoDown(root: Node, q: Path, p: Path) returns (links: int)
    requires Heads(root, q, p)
    ensures ChainDown(root, q, p, links)
    decreases |p| - |q|
  {
    var r := q + [0, 0];
    if r == p {
      FirstLink(root, q, p);
      links := 1;
    } else {
      HeadsIsPrefix(root, r, p);
      FirstLink(root, q, p);
      var rest := HeadsGoDown(root, r, p);
      OneLinkMore(root, q, p, rest);
      links := rest + 1;
    }
  }

  lemma {:induction false} DownIsHeads(root: Node, q: Path, p: Path, links: int)
    requires ChainDown(root, q, p, links)
    ensures Heads(root, q, p)
    decreases links
  {
    var r := q + [0, 0];
    assert LinkDown(root, p, |q| + 2 * 0);
    assert p[..|q|] == q && p[..|q| + 2] == r;
    if links > 1 {
      forall j | 0 <= j < links - 1 ensures LinkDown(root, p, |r| + 2 * j) {
        assert LinkDown(root, p, |q| + 2 * (j + 1));
      }
      DownIsHeads(root, r, p, links - 1);
    }
  }

  /** Some method call up the chain of the access at `p` scopes it. */
  ghost predicate ScopedAbove(root: Node, p: Path) {
    exists q, links :: ChainDown(root, q, p, links) && At(root, q).Some? && Scopes(At(root, q).value)
  }

  lemma ScopedExactly(root: Node, p: Path)
    ensures ScopedChain(root, p) <==> ScopedAbove(root, p)
  {
    if q :| Heads(root, q, p) && ScopingCall(root, q) {
      var links := HeadsGoDown(root, q, p);
      ScopesExactly(root, q);
    }
    if q, links :| ChainDown(root, q, p, links) && At(root, q).Some? && Scopes(At(root, q).value) {
      DownIsHeads(root, q, p, links);
      ScopesExactly(root, q);
    }
  }

  ghost predicate IsPartOf(m: string, s: string) {
    exists before, after :: s == before + m + after
  }

  /** A guarded model in the first argument of `.get`, or of `select` or `.query` outside any scoped chain, on a line
      without the pragma. */
  ghost predicate IsOffence(root: Node, n: Node, guarded: set<string>, lines: seq<string>, p: Path) {
    && n.Call? && n.args != []
    && ((n.args[0].Name? && n.args[0].id in guarded) || (n.args[0].Attribute? && n.args[0].attr in guarded))
    && !(1 <= n.line <= |lines| && IsPartOf("# noqa: workspace-scope", lines[n.line - 1]))
    && (|| (n.func.Attribute? && n.func.attr == "get")
        || ((n.func == Name("select") || (n.func.Attribute? && n.func.attr == "query"))
            && !ScopedAbove(root, p)))
  }

  lemma ContainsExactly(s: string, m: string)
    ensures Contains(s, m) <==> IsPartOf(m, s)
  {
    if i :| 0 <= i <= |s| && MatchesAt(s, m, i) { assert s == s[..i] + m + s[i + |m|..]; }
    if before, after :| s == before + m + after { assert MatchesAt(s, m, |before|); }
  }

  /** A node is reported exactly when it is an offence, with its line, its shape and its model. */
  lemma OffendsExactly(root: Node, guarded: set<string>, lines: seq<string>, p: Path)
    ensures Offends(root, guarded, lines, p) <==>
      At(root, p).Some? && IsOffence(root, At(root, p).value, guarded, lines, p)
    ensures Offends(root, guarded, lines, p) ==>
      var (n, v) := (At(root, p).value, ViolationAt(root, guarded, p));
      && v.line == n.line && v.model == (if n.args[0].Name? then n.args[0].id else n.args[0].attr)
      && v.pattern == (if n.func.Name? then SelectCall else if n.func.attr == "get" then Get else Query)
  {
    ScopedExactly(root, p);
    if At(root, p).Some? {
      VerdictAt(root, guarded, lines, p);
      if At(root, p).value.Call? && 1 <= At(root, p).value.line <= |lines| {
        ContainsExactly(lines[At(root, p).value.line - 1], NOQA_MARKER);
      }
    }
  }
}
