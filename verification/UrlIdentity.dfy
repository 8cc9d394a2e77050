/**
 The identity of a competitor URL, libs/shared/app_shared/url_pattern.py, on top of
 Python's `urlsplit`.

 `authority` stands for what becomes of host and port under a scheme: lower case,
 without `www.` and default ports.  A host of lower-case letters alone is its own
 canonical form.
 */
module UrlIdentity {

  // ----- urlsplit

  /** The index of the first character that stops the scan, or the length. */
  function Find(s: string, stop: char -> bool): (k: nat)
    ensures k <= |s|
  {
    if s == [] || stop(s[0]) then 0 else 1 + Find(s[1..], stop)
  }

  predicate IsBlank(c: char) { c <= ' ' }

  predicate IsRemoved(c: char) { c == '\t' || c == '\r' || c == '\n' }

  function Remaining(s: string): string {
    if s == [] then [] else (if IsRemoved(s[0]) then [] else [s[0]]) + Remaining(s[1..])
  }

  /** `urlsplit` drops leading control characters and blanks, then every tab and line break. */
  function Cleaned(url: string): string {
    Remaining(url[Find(url, c => !IsBlank(c))..])
  }

  predicate IsLetter(c: char) { 'a' <= c <= 'z' || 'A' <= c <= 'Z' }

  predicate IsSchemeChar(c: char) { IsLetter(c) || '0' <= c <= '9' || c in "+-." }

  predicate IsColon(c: char) { c == ':' }

  predicate EndsNetloc(c: char) { c == '/' || c == '?' || c == '#' }

  predicate IsHash(c: char) { c == '#' }

  predicate IsQuestion(c: char) { c == '?' }

  function Lower(s: string): string {
    seq(|s|, i requires 0 <= i < |s| => if 'A' <= s[i] <= 'Z' then s[i] - 'A' + 'a' else s[i])
  }

  predicate HasScheme(url: string) {
    var k := Find(url, IsColon);
    0 < k < |url| && IsLetter(url[0]) && forall i :: 0 <= i < k ==> IsSchemeChar(url[i])
  }

  function SchemeOf(url: string): string {
    if HasScheme(url) then Lower(url[..Find(url, IsColon)]) else ""
  }

  function AfterScheme(url: string): string {
    if HasScheme(url) then url[Find(url, IsColon) + 1..] else url
  }

  /** What `urlsplit` makes of a cleaned URL, before it cuts query and fragment off the rest. */
  datatype Split = Split(scheme: string, netloc: string, rest: string)

  function SplitUrl(url: string): Split {
    Split(SchemeOf(url), NetlocOf(AfterScheme(url)), RestOf(AfterScheme(url)))
  }

  predicate HasNetloc(s: string) { |s| >= 2 && s[0] == '/' && s[1] == '/' }

  function NetlocOf(s: string): string {
    if HasNetloc(s) then s[2..][..Find(s[2..], EndsNetloc)] else ""
  }

  function RestOf(s: string): string {
    if HasNetloc(s) then s[2..][Find(s[2..], EndsNetloc)..] else s
  }

  // ----- normalize_url

  type Authority = (string, string) -> string

  predicate AllLower(s: string) {
    forall i :: 0 <= i < |s| ==> 'a' <= s[i] <= 'z'
  }

  function Canonical(authority: Authority, scheme: string, netloc: string): string {
    if AllLower(netloc) then netloc else authority(scheme, netloc)
  }

  /** One trailing slash goes, and a path of one slash. */
  function TrimmedPath(path: string): string {
    var p := if path != "/" && path != [] && path[|path| - 1] == '/' then path[..|path| - 1] else path;
    if p == "/" then "" else p
  }

  /** Path and query of what follows the host, the fragment cut off. */
  function PathAndQuery(rest: string): string {
    Shown(rest[..Find(rest, IsHash)])
  }

  function Shown(s: string): string {
    var k := Find(s, IsQuestion);
    TrimmedPath(s[..k]) + if k + 1 < |s| then "?" + s[k + 1..] else ""
  }

  function Rendered(authority: Authority, u: Split): string {
    u.scheme + "://" + Canonical(authority, u.scheme, u.netloc) + PathAndQuery(u.rest)
  }

  /** `normalize_url` */
  function NormalizeUrl(authority: Authority, url: string): string {
    Rendered(authority, SplitUrl(Cleaned(url)))
  }

  // ----- appending to a base

  lemma {:induction false} FindIs(s: string, stop: char -> bool)
    ensures var k := Find(s, stop);
      (forall i :: 0 <= i < k ==> !stop(s[i])) && (k < |s| ==> stop(s[k]))
  {
    if s != [] && !stop(s[0]) {
      FindIs(s[1..], stop);
      assert forall i :: 0 < i < |s| ==> s[i] == s[1..][i - 1];
    }
  }

  lemma {:induction false} FindAppend(a: string, b: string, stop: char -> bool)
    ensures Find(a + b, stop) == if Find(a, stop) < |a| then Find(a, stop) else |a| + Find(b, stop)
  {
    if a == [] {
      assert a + b == b;
    } else if !stop(a[0]) {
      FindAppend(a[1..], b, stop);
      assert (a + b)[1..] == a[1..] + b;
    }
  }

  lemma FindNone(s: string, stop: char -> bool)
    requires forall i :: 0 <= i < |s| ==> !stop(s[i])
    ensures Find(s, stop) == |s|
  {
    FindIs(s, stop);
  }

  /** The first stop is where one stands with none before it. */
  lemma FindAt(s: string, stop: char -> bool, k: nat)
    requires k < |s| && stop(s[k]) && forall i :: 0 <= i < k ==> !stop(s[i])
    ensures Find(s, stop) == k
  {
    FindIs(s, stop);
  }

  /** A path below a base: it starts at a slash with a segment of letters, does not end in a slash, and holds no
      character that means anything to the parser. */
  predicate IsPathSuffix(x: string) {
    && |x| >= 2 && x[0] == '/' && 'a' <= x[1] <= 'z' && x[|x| - 1] != '/'
    && (forall i :: 0 <= i < |x| ==> !IsBlank(x[i]) && x[i] != ':' && x[i] != '?' && x[i] != '#')
    && AllLower(Segment(x))
  }

  /** The first segment of a path that starts at a slash. */
  function Segment(x: string): string
    requires x != []
  {
    x[1..][..Find(x[1..], EndsNetloc)]
  }

  lemma {:induction false} RemainingAppend(a: string, b: string)
    ensures Remaining(a + b) == Remaining(a) + Remaining(b)
  {
    if a == [] {
      assert a + b == b;
    } else {
      RemainingAppend(a[1..], b);
      assert (a + b)[1..] == a[1..] + b;
      Regrouped(if IsRemoved(a[0]) then [] else [a[0]], Remaining(a[1..]), Remaining(b));
    }
  }

  lemma {:induction false} RemainingSame(s: string)
    requires forall i :: 0 <= i < |s| ==> !IsRemoved(s[i])
    ensures Remaining(s) == s
  {
    if s != [] {
      assert forall i :: 0 <= i < |s[1..]| ==> s[1..][i] == s[i + 1];
      RemainingSame(s[1..]);
    }
  }

  lemma CleanedAppend(base: string, x: string)
    requires x != [] && !IsBlank(x[0])
    ensures Cleaned(base + x) == Cleaned(base) + Remaining(x)
  {
    var visible := (c: char) => !IsBlank(c);
    FindAppend(base, x, visible);
    FindAt(x, visible, 0);
    var k := Find(base, visible);
    assert (base + x)[k..] == base[k..] + x;
    RemainingAppend(base[k..], x);
  }

  lemma {:induction false} RemainingKeeps(s: string, c: char)
    requires !IsRemoved(c)
    ensures c in Remaining(s) <==> c in s
  {
    if s != [] {
      RemainingKeeps(s[1..], c);
      assert s == [s[0]] + s[1..];
    }
  }

  lemma CleanedKeeps(base: string, c: char)
    requires !IsBlank(c)
    ensures c in Cleaned(base) <==> c in base
  {
    var visible := (d: char) => !IsBlank(d);
    FindIs(base, visible);
    var k := Find(base, visible);
    assert base == base[..k] + base[k..];
    RemainingKeeps(base[k..], c);
  }

  lemma SchemeAppend(b: string, x: string)
    requires IsPathSuffix(x)
    ensures HasScheme(b + x) <==> HasScheme(b)
    ensures SchemeOf(b + x) == SchemeOf(b)
    ensures AfterScheme(b + x) == AfterScheme(b) + x
  {
    FindAppend(b, x, IsColon);
    FindNone(x, IsColon);
    var k := Find(b, IsColon);
    if k < |b| {
      assert forall i :: 0 <= i <= k ==> (b + x)[i] == b[i];
      assert (b + x)[..k] == b[..k] && (b + x)[k + 1..] == b[k + 1..] + x;
    }
  }

  /** What is appended stays behind the rest, unless there was only the first slash of `//`: then its first segment
      becomes the host. */
  lemma NetlocAppend(s: string, x: string)
    requires IsPathSuffix(x)
    ensures if s == "/" then NetlocOf(s + x) == Segment(x) && RestOf(s + x) == x[1..][|Segment(x)|..]
            else NetlocOf(s + x) == NetlocOf(s) && RestOf(s + x) == RestOf(s) + x
  {
    if s == "/" {
      assert (s + x)[2..] == x[1..];
    } else if HasNetloc(s) {
      assert (s + x)[2..] == s[2..] + x;
      NetlocStops(s[2..], x);
    } else if |s| >= 2 {
      assert (s + x)[0] == s[0] && (s + x)[1] == s[1];
    } else if |s| == 1 {
      assert (s + x)[0] == s[0] && s == [s[0]];
    } else {
      assert s + x == x;
    }
  }

  lemma NetlocStops(t: string, x: string)
    requires x != [] && EndsNetloc(x[0])
    ensures var k := Find(t, EndsNetloc);
      Find(t + x, EndsNetloc) == k && (t + x)[..k] == t[..k] && (t + x)[k..] == t[k..] + x
  {
    FindAppend(t, x, EndsNetloc);
  }

  /** A fragment swallows what is appended. */
  lemma FragmentSwallows(rest: string, x: string)
    requires '#' in rest
    ensures PathAndQuery(rest + x) == PathAndQuery(rest)
  {
    FindIs(rest, IsHash);
    FindAppend(rest, x, IsHash);
    var k := Find(rest, IsHash);
    assert (rest + x)[..k] == rest[..k];
  }

  /** Without a fragment what is appended is kept to the letter, behind something that depends on the rest alone. */
  function Lead(rest: string): string {
    var k := Find(rest, IsQuestion);
    if k < |rest| then TrimmedPath(rest[..k]) + "?" + rest[k + 1..] else rest
  }

  lemma AppendedIsKept(rest: string, x: string)
    requires '#' !in rest && IsPathSuffix(x)
    ensures PathAndQuery(rest + x) == Lead(rest) + x
  {
    WithoutFragment(rest + x);
    ShownAppend(rest, x);
  }

  lemma WithoutFragment(rest: string)
    requires '#' !in rest
    ensures PathAndQuery(rest) == Shown(rest)
  {
    FindNone(rest, IsHash);
    assert rest[..|rest|] == rest;
  }

  lemma ShownAppend(rest: string, x: string)
    requires x != [] && x[|x| - 1] != '/' && '?' !in x
    ensures Shown(rest + x) == Lead(rest) + x
  {
    FindAppend(rest, x, IsQuestion);
    FindNone(x, IsQuestion);
    var k := Find(rest, IsQuestion);
    if k < |rest| {
      QueryAppend(rest, x, k);
    } else {
      FindIs(rest, IsQuestion);
      ShownWhole(rest + x);
    }
  }

  lemma QueryAppend(rest: string, x: string, k: nat)
    requires k == Find(rest, IsQuestion) == Find(rest + x, IsQuestion) && k < |rest| && x != []
    ensures Shown(rest + x) == TrimmedPath(rest[..k]) + "?" + rest[k + 1..] + x
  {
    assert (rest + x)[..k] == rest[..k] && (rest + x)[k + 1..] == rest[k + 1..] + x;
    Regrouped("?", rest[k + 1..], x);
    Regrouped(TrimmedPath(rest[..k]), "?" + rest[k + 1..], x);
    Regrouped(TrimmedPath(rest[..k]), "?", rest[k + 1..]);
  }

  lemma ShownWhole(s: string)
    requires '?' !in s && (s == [] || s[|s| - 1] != '/')
    ensures Shown(s) == s
  {
    FindNone(s, IsQuestion);
    assert s[..|s|] == s;
  }

  /** A suffix as host and path is itself, without its first slash. */
  lemma SegmentAndPath(x: string)
    requires IsPathSuffix(x)
    ensures Segment(x) + PathAndQuery(x[1..][|Segment(x)|..]) == x[1..]
  {
    var t := x[1..];
    assert forall i :: 0 <= i < |t| ==> t[i] == x[i + 1];
    CutAndShown(t, Find(t, EndsNetloc));
  }

  lemma CutAndShown(t: string, k: nat)
    requires k <= |t| && '#' !in t && '?' !in t && (t == [] || t[|t| - 1] != '/')
    ensures t[..k] + PathAndQuery(t[k..]) == t
  {
    InEitherPart(t, k, '#');
    InEitherPart(t, k, '?');
    WithoutFragment(t[k..]);
    ShownWhole(t[k..]);
  }

  lemma InEitherPart(s: string, k: nat, c: char)
    requires k <= |s|
    ensures c in s <==> c in s[..k] || c in s[k..]
  {
    assert s == s[..k] + s[k..];
  }

  /** Where the fragment of a base is: nowhere before the rest. */
  lemma HashIsInRest(s: string)
    ensures '#' in RestOf(s) <==> '#' in s
  {
    if HasNetloc(s) {
      var k := Find(s[2..], EndsNetloc);
      FindIs(s[2..], EndsNetloc);
      InEitherPart(s[2..], k, '#');
      InEitherPart(s, 2, '#');
    }
  }

  lemma HashIsAfterScheme(b: string)
    ensures '#' in AfterScheme(b) <==> '#' in b
  {
    var c := Find(b, IsColon);
    FindIs(b, IsColon);
    if HasScheme(b) {
      assert b == b[..c] + ([b[c]] + b[c + 1..]);
      assert b[c] == ':';
    }
  }

  /** What everything below a base has in common. */
  function Prefix(authority: Authority, b: string): string {
    var u := SplitUrl(b);
    u.scheme + "://" + if AfterScheme(b) == "/" then "" else Canonical(authority, u.scheme, u.netloc) + Lead(u.rest)
  }

  function Kept(b: string, x: string): string
    requires x != []
  {
    if AfterScheme(b) == "/" then x[1..] else x
  }

  /** The identity of a URL below a base: a base with a fragment keeps only itself, any other keeps what is appended. */
  lemma BelowBase(authority: Authority, base: string, x: string)
    requires IsPathSuffix(x)
    ensures var b := Cleaned(base);
      NormalizeUrl(authority, base + x) ==
        if '#' in base then Rendered(authority, SplitUrl(b))
        else Prefix(authority, b) + Kept(b, x)
  {
    CleanedAppend(base, x);
    RemainingSame(x);
    CleanedKeeps(base, '#');
    BelowCleaned(authority, Cleaned(base), x);
  }

  lemma BelowCleaned(authority: Authority, b: string, x: string)
    requires IsPathSuffix(x)
    ensures Rendered(authority, SplitUrl(b + x)) ==
      if '#' in b then Rendered(authority, SplitUrl(b))
      else Prefix(authority, b) + Kept(b, x)
  {
    var s := AfterScheme(b);
    SchemeAppend(b, x);
    HashIsAfterScheme(b);
    HashIsInRest(s);
    NetlocAppend(s, x);
    if '#' in b {
      FragmentSwallows(RestOf(s), x);
    } else if s == "/" {
      SegmentAndPath(x);
      Regrouped(SchemeOf(b) + "://", Segment(x), PathAndQuery(RestOf(s + x)));
    } else {
      AppendedIsKept(RestOf(s), x);
      var host := Canonical(authority, SchemeOf(b), NetlocOf(s));
      Regrouped(SchemeOf(b) + "://", host, Lead(RestOf(s)) + x);
      Regrouped(host, Lead(RestOf(s)), x);
      Regrouped(SchemeOf(b) + "://", host + Lead(RestOf(s)), x);
    }
  }

  lemma Regrouped(a: string, b: string, c: string)
    ensures (a + b) + c == a + (b + c)
    ensures a + "" == a
  {}

  /** Scheme and host of a URL that has both do not depend on what follows. */
  lemma HostStays(b: string, x: string)
    requires HasScheme(b) && HasNetloc(AfterScheme(b)) && x != [] && EndsNetloc(x[0])
    ensures HasScheme(b + x) && AfterScheme(b + x) == AfterScheme(b) + x && HasNetloc(AfterScheme(b + x))
    ensures SplitUrl(b + x).scheme == SplitUrl(b).scheme && SplitUrl(b + x).netloc == SplitUrl(b).netloc
  {
    var k, s := Find(b, IsColon), AfterScheme(b);
    FindAppend(b, x, IsColon);
    assert forall i :: 0 <= i <= k ==> (b + x)[i] == b[i];
    assert (b + x)[..k] == b[..k] && (b + x)[k + 1..] == b[k + 1..] + x;
    assert (s + x)[2..] == s[2..] + x;
    NetlocStops(s[2..], x);
  }

  /** `normalize_url` reads the port and raises if it is not one; `portReads` tells for which host and port it is. */
  predicate Readable(portReads: string -> bool, url: string) {
    ReadsPort(portReads, NetlocOf(AfterScheme(Cleaned(url))))
  }

  predicate ReadsPort(portReads: string -> bool, netloc: string) { AllLower(netloc) || portReads(netloc) }

  predicate ReadableBase(portReads: string -> bool, base: string) {
    var s := AfterScheme(Cleaned(base));
    s == "/" || ReadsPort(portReads, NetlocOf(s))
  }

  /** Below one base all URLs can be read or none. */
  lemma ReadableBelow(portReads: string -> bool, base: string, x: string)
    requires IsPathSuffix(x)
    ensures Readable(portReads, base + x) <==> ReadableBase(portReads, base)
  {
    CleanedAppend(base, x);
    RemainingSame(x);
    SchemeAppend(Cleaned(base), x);
    NetlocAppend(AfterScheme(Cleaned(base)), x);
  }

  /** An origin: scheme and host, without blanks. */
  predicate IsOrigin(scheme: string, host: string) {
    && scheme != [] && host != [] && AllLower(scheme)
    && forall i :: 0 <= i < |host| ==> !IsBlank(host[i]) && !EndsNetloc(host[i])
  }

  lemma OriginSplits(scheme: string, host: string)
    requires IsOrigin(scheme, host)
    ensures var c := scheme + ("://" + host);
      && HasScheme(c) && SchemeOf(c) == scheme && AfterScheme(c) == "//" + host && NetlocOf("//" + host) == host
  {
    var c, k := scheme + ("://" + host), |scheme|;
    assert c[..k] == scheme && c[k + 1..] == "//" + host;
    FindAt(c, IsColon, k);
    assert Lower(scheme) == scheme;
    assert ("//" + host)[2..] == host;
    FindNone(host, EndsNetloc);
    assert host[..|host|] == host;
  }

  lemma OriginIsClean(scheme: string, host: string)
    requires IsOrigin(scheme, host)
    ensures Cleaned(scheme + ("://" + host)) == scheme + ("://" + host)
  {
    var c := scheme + ("://" + host);
    FindAt(c, d => !IsBlank(d), 0);
    assert c[0..] == c;
    RemainingSame(c);
  }

  /** Two URLs below one base have the same identity exactly when the base holds a fragment, whatever becomes of its
      host. */
  lemma CollideExactly(authority: Authority, base: string, x: string, y: string)
    requires IsPathSuffix(x) && IsPathSuffix(y) && x != y
    ensures NormalizeUrl(authority, base + x) == NormalizeUrl(authority, base + y) <==> '#' in base
  {
    BelowBase(authority, base, x);
    BelowBase(authority, base, y);
    if '#' !in base {
      KeptDiffers(Cleaned(base), x, y);
      SuffixesDiffer(Prefix(authority, Cleaned(base)), Kept(Cleaned(base), x), Kept(Cleaned(base), y));
    }
  }

  lemma KeptDiffers(b: string, x: string, y: string)
    requires x != y && x != [] && y != [] && x[0] == y[0]
    ensures Kept(b, x) != Kept(b, y)
  {
    assert x == [x[0]] + x[1..] && y == [y[0]] + y[1..];
  }

  lemma SuffixesDiffer(p: string, x: string, y: string)
    ensures p + x == p + y <==> x == y
  {
    assert (p + x)[|p|..] == x && (p + y)[|p|..] == y;
  }
}
