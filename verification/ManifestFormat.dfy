/**
 The manifest file of scripts/provision_db_roles.py: `load_manifest` parses what
 `emit_manifest` prints.  Text is the decoded file; a parse error carries the
 offending line itself instead of its number.
 */
module ManifestFormat {
  import opened Wrappers
  import opened Ordering
  import opened Sequences
  import opened RlsManifest

  datatype Loaded =
    | Manifest(entries: map<string, Entry>)
    | TooFewFields(raw: string)
    | UnknownClass(raw: string)
    | Duplicate(raw: string)

  // ----- Python's str methods

  /** What `str.splitlines` breaks at. */
  predicate IsBreak(c: char) {
    || '\n' <= c <= '\r' || '\U{1c}' <= c <= '\U{1e}' || c == '\U{85}' || c == '\U{2028}' || c == '\U{2029}'
  }

  /** `str.isspace`, which includes every line break. */
  predicate IsSpace(c: char) {
    || IsBreak(c) || c == '\t' || c == ' ' || c == '\U{1f}' || c == '\U{a0}' || c == '\U{1680}'
    || '\U{2000}' <= c <= '\U{200a}' || c == '\U{202f}' || c == '\U{205f}' || c == '\U{3000}'
  }

  function BreakAt(s: string): (k: nat)
    ensures k <= |s| && (k < |s| ==> IsBreak(s[k]))
    ensures forall i :: 0 <= i < k ==> !IsBreak(s[i])
  {
    if s == "" || IsBreak(s[0]) then 0 else 1 + BreakAt(s[1..])
  }

  /** `str.splitlines`: a carriage return and the line feed after it are one break. */
  function Lines(s: string): seq<string>
    decreases |s|
  {
    var k := BreakAt(s);
    if k == |s| then (if s == "" then [] else [s])
    else if s[k] == '\r' && k + 1 < |s| && s[k + 1] == '\n' then [s[..k]] + Lines(s[k + 2..])
    else [s[..k]] + Lines(s[k + 1..])
  }

  function TabAt(s: string): (k: nat)
    ensures k <= |s| && (k < |s| ==> s[k] == '\t')
    ensures forall i :: 0 <= i < k ==> s[i] != '\t'
  {
    if s == "" || s[0] == '\t' then 0 else 1 + TabAt(s[1..])
  }

  /** `raw.split("\t")` */
  function Fields(s: string): seq<string>
    decreases |s|
  {
    var k := TabAt(s);
    if k == |s| then [s] else [s[..k]] + Fields(s[k + 1..])
  }

  function LeftStrip(s: string): string {
    if s != "" && IsSpace(s[0]) then LeftStrip(s[1..]) else s
  }

  function RightStrip(s: string): string {
    if s != "" && IsSpace(s[|s| - 1]) then RightStrip(s[..|s| - 1]) else s
  }

  function Strip(s: string): string {
    RightStrip(LeftStrip(s))
  }

  /** `[p.strip() for p in fields if p.strip()]` */
  function Parts(fields: seq<string>): seq<string> {
    if fields == [] then []
    else (if Strip(fields[0]) == "" then [] else [Strip(fields[0])]) + Parts(fields[1..])
  }

  function Join(separator: char, parts: seq<string>): string {
    if parts == [] then ""
    else if |parts| == 1 then parts[0]
    else parts[0] + [separator] + Join(separator, parts[1..])
  }

  // ----- parsing

  function ClassName(c: Class): string {
    match c
    case Workspace => "WORKSPACE"
    case Transitive => "TRANSITIVE"
    case System => "SYSTEM"
    case TenantRoot => "TENANT_ROOT"
    case Gap => "GAP"
  }

  const VALID_CLASSES := [Workspace, Transitive, System, TenantRoot, Gap]

  function ClassOf(name: string): Option<Class> {
    if name == "WORKSPACE" then Some(Workspace)
    else if name == "TRANSITIVE" then Some(Transitive)
    else if name == "SYSTEM" then Some(System)
    else if name == "TENANT_ROOT" then Some(TenantRoot)
    else if name == "GAP" then Some(Gap)
    else None
  }

  predicate IsSkipped(raw: string) {
    Strip(raw) == "" || Strip(raw)[0] == '#'
  }

  /** One line of the file, against the entries read so far. */
  function LoadLine(raw: string, entries: map<string, Entry>): Loaded {
    if IsSkipped(raw) then Manifest(entries)
    else
      var parts := Parts(Fields(raw));
      if |parts| < 3 then TooFewFields(raw)
      else if ClassOf(parts[1]).None? then UnknownClass(raw)
      else if parts[0] in entries then Duplicate(raw)
      else Manifest(entries[parts[0] := Entry(ClassOf(parts[1]).value, Join('\t', parts[2..]))])
  }

  function LoadLines(lines: seq<string>, entries: map<string, Entry>): Loaded {
    if lines == [] then Manifest(entries)
    else
      var r := LoadLine(lines[0], entries);
      if r.Manifest? then LoadLines(lines[1..], r.entries) else r
  }

  function LoadText(text: string): Loaded {
    LoadLines(Lines(text), map[])
  }

  method LoadManifest(text: string) returns (r: Loaded)
    ensures r == LoadText(text)
  {
    var lines := Lines(text);
    var entries := map[];
    for i := 0 to |lines|
      invariant LoadLines(lines[i..], entries) == LoadText(text)
    {
      assert lines[i..][1..] == lines[i + 1..];
      var raw := lines[i];
      if IsSkipped(raw) {
        continue;
      }
      var parts := Parts(Fields(raw));
      if |parts| < 3 {
        return TooFewFields(raw);
      }
      if ClassOf(parts[1]).None? {
        return UnknownClass(raw);
      }
      if parts[0] in entries {
        return Duplicate(raw);
      }
      entries := entries[parts[0] := Entry(ClassOf(parts[1]).value, Join('\t', parts[2..]))];
    }
    r := Manifest(entries);
  }

  // ----- printing

  const TODO_NOTE := "TODO: annotate"

  /** The catalogue's non-partition names, each with its prior class and note or else what the catalogue implies. */
  function Expected(catalog: seq<Relation>, existing: map<string, Entry>): map<string, Entry> {
    var parents := Parents(catalog);
    map n | n in parents :: if n in existing then existing[n] else Entry(Classify(parents[n]), TODO_NOTE)
  }

  function Row(name: string, e: Entry): string {
    name + "\t" + ClassName(e.cls) + "\t" + e.note
  }

  function RowsOf(names: seq<string>, table: map<string, Entry>, c: Class): seq<string> {
    if names == [] then []
    else
      RowsOf(names[..|names| - 1], table, c)
      + var n := names[|names| - 1]; if n in table && table[n].cls == c then [Row(n, table[n])] else []
  }

  function Heading(c: Class): string {
    "# --- " + ClassName(c) + " ---"
  }

  function Block(names: seq<string>, table: map<string, Entry>, c: Class): seq<string> {
    var rows := RowsOf(names, table, c);
    if rows == [] then [] else [Heading(c)] + rows + [""]
  }

  function Blocks(names: seq<string>, table: map<string, Entry>, classes: seq<Class>): seq<string> {
    if classes == [] then []
    else Blocks(names, table, classes[..|classes| - 1]) + Block(names, table, classes[|classes| - 1])
  }

  ghost function EmitText(header: string, table: map<string, Entry>): string {
    Join('\n', [header] + Blocks(SortedNames(table.Keys), table, VALID_CLASSES))
  }

  method EmitManifest(header: string, catalog: seq<Relation>, existing: map<string, Entry>) returns (text: string)
    ensures text == EmitText(header, Expected(catalog, existing))
  {
    var parents := NonPartitions(catalog);
    ghost var table := Expected(catalog, existing);
    assert table.Keys == parents.Keys;
    var names := SortNames(parents.Keys);
    SortedNamesHolds(parents.Keys);
    var byClass := GroupByClass(names, parents, existing, table);
    var lines := AppendBlocks([header], VALID_CLASSES, byClass, names, table);
    text := Join('\n', lines);
  }

  /** A class has an entry exactly when it has rows, and the entry is its rows in order. */
  ghost predicate GroupedAt(byClass: map<Class, seq<string>>, names: seq<string>, table: map<string, Entry>, c: Class) {
    if c in byClass then byClass[c] == RowsOf(names, table, c) != [] else RowsOf(names, table, c) == []
  }

  method AppendBlocks(
      header: seq<string>, classes: seq<Class>, byClass: map<Class, seq<string>>, ghost names: seq<string>,
      ghost table: map<string, Entry>)
    returns (lines: seq<string>)
    requires forall c :: GroupedAt(byClass, names, table, c)
    ensures lines == header + Blocks(names, table, classes)
  {
    lines := header;
    for i := 0 to |classes|
      invariant lines == header + Blocks(names, table, classes[..i])
    {
      BlocksStep(header, names, table, classes, i);
      lines := AppendBlock(lines, classes[i], byClass, names, table);
    }
    assert classes[..|classes|] == classes;
  }

  method AppendBlock(lines: seq<string>, c: Class, byClass: map<Class, seq<string>>, ghost names: seq<string>,
                     ghost table: map<string, Entry>)
    returns (more: seq<string>)
    requires GroupedAt(byClass, names, table, c)
    ensures more == lines + Block(names, table, c)
  {
    more := lines;
    if c in byClass {
      more := lines + ([Heading(c)] + byClass[c] + [""]);
    }
  }

  lemma BlocksStep(header: seq<string>, names: seq<string>, table: map<string, Entry>, classes: seq<Class>, i: nat)
    requires i < |classes|
    ensures header + Blocks(names, table, classes[..i]) + Block(names, table, classes[i]) ==
      header + Blocks(names, table, classes[..i + 1])
  {
    assert classes[..i + 1][..i] == classes[..i];
    Assoc(header, Blocks(names, table, classes[..i]), Block(names, table, classes[i]));
  }

  method GroupByClass(names: seq<string>, parents: map<string, Relation>, existing: map<string, Entry>,
                      ghost table: map<string, Entry>)
    returns (byClass: map<Class, seq<string>>)
    requires forall n :: n in names ==> n in parents
    requires table == map n | n in parents :: if n in existing then existing[n]
      else Entry(Classify(parents[n]), TODO_NOTE)
    ensures forall c :: GroupedAt(byClass, names, table, c)
  {
    byClass := map[];
    for i := 0 to |names|
      invariant forall c :: GroupedAt(byClass, names[..i], table, c)
    {
      assert names[..i + 1] == names[..i] + [names[i]];
      var name := names[i];
      var cls := if name in existing then existing[name].cls else Classify(parents[name]);
      var note := if name in existing then existing[name].note else TODO_NOTE;
      var row := name + "\t" + ClassName(cls) + "\t" + note;
      ghost var before := byClass;
      byClass := byClass[cls := (if cls in byClass then byClass[cls] else []) + [row]];
      ghost var seen := names[..i + 1];
      forall c ensures GroupedAt(byClass, seen, table, c) {
        assert GroupedAt(before, names[..i], table, c);
        RowsStep(names[..i], name, table, c);
      }
    }
    assert names[..|names|] == names;
  }

  lemma RowsStep(names: seq<string>, name: string, table: map<string, Entry>, c: Class)
    requires name in table
    ensures RowsOf(names + [name], table, c) ==
      RowsOf(names, table, c) + if table[name].cls == c then [Row(name, table[name])] else []
  {
    assert (names + [name])[..|names|] == names;
  }

  // ----- what a parsed line can hold

  predicate NoBreak(s: string) {
    forall i :: 0 <= i < |s| ==> !IsBreak(s[i])
  }

  predicate NoTab(s: string) {
    forall i :: 0 <= i < |s| ==> s[i] != '\t'
  }

  /** Neither end is white space. */
  predicate Trim(s: string) {
    s != "" && !IsSpace(s[0]) && !IsSpace(s[|s| - 1])
  }

  predicate IsField(s: string) {
    Trim(s) && NoTab(s) && NoBreak(s)
  }

  /** A table name the format can hold. */
  predicate Clean(name: string) {
    IsField(name) && name[0] != '#'
  }

  /** A note as the parser leaves it: one field or several, joined by tabs. */
  ghost predicate Tidy(note: string) {
    exists fields :: IsNote(fields, note)
  }

  ghost predicate IsNote(fields: seq<string>, note: string) {
    fields != [] && (forall i :: 0 <= i < |fields| ==> IsField(fields[i])) && note == Join('\t', fields)
  }

  ghost predicate Loadable(entries: map<string, Entry>) {
    forall n :: n in entries ==> Clean(n) && Tidy(entries[n].note)
  }

  lemma {:induction false} LeftStripIs(s: string)
    ensures var r := LeftStrip(s); |r| <= |s| && r == s[|s| - |r|..]
    ensures LeftStrip(s) != "" ==> !IsSpace(LeftStrip(s)[0])
    ensures s != "" && !IsSpace(s[0]) ==> LeftStrip(s) == s
    ensures LeftStrip(s) == "" <==> forall i :: 0 <= i < |s| ==> IsSpace(s[i])
  {
    if s != "" && IsSpace(s[0]) {
      LeftStripIs(s[1..]);
      assert forall i :: 0 < i < |s| ==> s[i] == s[1..][i - 1];
    }
  }

  lemma {:induction false} RightStripIs(s: string)
    ensures var r := RightStrip(s); |r| <= |s| && r == s[..|r|]
    ensures RightStrip(s) != "" ==> !IsSpace(RightStrip(s)[|RightStrip(s)| - 1])
    ensures s != "" && !IsSpace(s[|s| - 1]) ==> RightStrip(s) == s
    ensures s != "" && !IsSpace(s[0]) ==> RightStrip(s) != ""
  {
    if s != "" && IsSpace(s[|s| - 1]) { RightStripIs(s[..|s| - 1]); }
  }

  /** `strip` gives a trimmed piece of its argument, or nothing for nothing but white space. */
  lemma StripIs(s: string)
    ensures Strip(s) != "" ==> Trim(Strip(s)) && LeftStrip(s) != "" && Strip(s)[0] == LeftStrip(s)[0]
    ensures Strip(s) == "" <==> LeftStrip(s) == ""
    ensures Trim(s) ==> Strip(s) == s
    ensures NoTab(s) ==> NoTab(Strip(s))
    ensures NoBreak(s) ==> NoBreak(Strip(s))
  {
    LeftStripIs(s);
    RightStripIs(LeftStrip(s));
    var l, r := LeftStrip(s), Strip(s);
    assert forall i :: 0 <= i < |r| ==> r[i] == l[i] == s[|s| - |l| + i];
  }

  lemma {:induction false} FieldsAre(s: string)
    ensures forall i :: 0 <= i < |Fields(s)| ==> NoTab(Fields(s)[i]) && (NoBreak(s) ==> NoBreak(Fields(s)[i]))
    decreases |s|
  {
    var k := TabAt(s);
    if k < |s| {
      FieldsAre(s[k + 1..]);
      assert NoBreak(s) ==> NoBreak(s[k + 1..]);
    }
  }

  lemma {:induction false} PartsAre(fields: seq<string>)
    requires forall i :: 0 <= i < |fields| ==> NoTab(fields[i]) && NoBreak(fields[i])
    ensures forall i :: 0 <= i < |Parts(fields)| ==> IsField(Parts(fields)[i])
  {
    if fields != [] {
      PartsAre(fields[1..]);
      StripIs(fields[0]);
    }
  }

  lemma {:induction false} SkipSpace(a: string, b: string)
    requires LeftStrip(a) == ""
    ensures LeftStrip(a + b) == LeftStrip(b)
  {
    if a == "" {
      assert a + b == b;
    } else {
      assert (a + b)[1..] == a[1..] + b;
      SkipSpace(a[1..], b);
    }
  }

  lemma {:induction false} StripPrefix(a: string, b: string)
    requires LeftStrip(a) != ""
    ensures LeftStrip(a + b) != "" && LeftStrip(a + b)[0] == LeftStrip(a)[0]
  {
    if IsSpace(a[0]) {
      assert (a + b)[1..] == a[1..] + b;
      StripPrefix(a[1..], b);
    }
  }

  ghost predicate StartsAlike(parts: seq<string>, s: string) {
    parts != [] ==> LeftStrip(s) != "" && parts[0] != "" && parts[0][0] == LeftStrip(s)[0]
  }

  lemma HeadOfPartsStep(head: string, fields: seq<string>, tail: string)
    requires StartsAlike(Parts(fields), tail)
    ensures StartsAlike(Parts([head] + fields), head + ("\t" + tail))
  {
    StripIs(head);
    assert ([head] + fields)[1..] == fields;
    if Strip(head) == "" {
      SkipSpace(head, "\t" + tail);
      assert ("\t" + tail)[1..] == tail;
    } else {
      StripPrefix(head, "\t" + tail);
    }
  }

  /** The first part of a line starts where the stripped line starts. */
  lemma {:induction false} HeadOfParts(s: string)
    ensures StartsAlike(Parts(Fields(s)), s)
    decreases |s|
  {
    var k := TabAt(s);
    if k < |s| {
      HeadOfParts(s[k + 1..]);
      HeadOfPartsStep(s[..k], Fields(s[k + 1..]), s[k + 1..]);
      assert s == s[..k] + ("\t" + s[k + 1..]);
    } else {
      StripIs(s);
      assert Fields(s) == [s] && [s][1..] == [];
      assert Parts([s]) == if Strip(s) == "" then [] else [Strip(s)];
    }
  }

  /** Whatever one line adds is clean. */
  lemma LoadLineKeepsLoadable(raw: string, entries: map<string, Entry>)
    requires NoBreak(raw) && Loadable(entries) && LoadLine(raw, entries).Manifest?
    ensures Loadable(LoadLine(raw, entries).entries)
  {
    if !IsSkipped(raw) {
      var parts := Parts(Fields(raw));
      FieldsAre(raw);
      PartsAre(Fields(raw));
      HeadOfParts(raw);
      StripIs(raw);
      assert IsField(parts[0]) && Clean(parts[0]);
      assert IsNote(parts[2..], Join('\t', parts[2..]));
    }
  }

  lemma {:induction false} LoadLinesKeepsLoadable(lines: seq<string>, entries: map<string, Entry>)
    requires (forall i :: 0 <= i < |lines| ==> NoBreak(lines[i])) && Loadable(entries)
      && LoadLines(lines, entries).Manifest?
    ensures Loadable(LoadLines(lines, entries).entries)
  {
    if lines != [] {
      LoadLineKeepsLoadable(lines[0], entries);
      LoadLinesKeepsLoadable(lines[1..], LoadLine(lines[0], entries).entries);
    }
  }

  lemma {:induction false} LinesHaveNoBreaks(s: string)
    ensures forall i :: 0 <= i < |Lines(s)| ==> NoBreak(Lines(s)[i])
    decreases |s|
  {
    var k := BreakAt(s);
    if k < |s| {
      if s[k] == '\r' && k + 1 < |s| && s[k + 1] == '\n' {
        LinesHaveNoBreaks(s[k + 2..]);
      } else {
        LinesHaveNoBreaks(s[k + 1..]);
      }
    }
  }

  /** Every name that any file loads is clean and every note tidy. */
  lemma LoadedIsLoadable(text: string)
    requires LoadText(text).Manifest?
    ensures Loadable(LoadText(text).entries)
  {
    LinesHaveNoBreaks(text);
    LoadLinesKeepsLoadable(Lines(text), map[]);
  }

  // ----- a printed row parses back

  lemma BreakAtIs(s: string, k: nat)
    requires k <= |s| && (k < |s| ==> IsBreak(s[k])) && forall i :: 0 <= i < k ==> !IsBreak(s[i])
    ensures BreakAt(s) == k
  {}

  lemma FieldsOf(a: string, b: string)
    requires NoTab(a)
    ensures Fields(a + "\t" + b) == [a] + Fields(b)
    ensures Fields(a) == [a]
  {
    var s := a + "\t" + b;
    assert forall i :: 0 <= i < |a| ==> s[i] == a[i];
    assert s[|a|] == '\t';
    assert TabAt(s) == |a|;
    assert s[..|a|] == a && s[|a| + 1..] == b;
    assert TabAt(a) == |a|;
  }

  lemma {:induction false} PartsOfNote(fields: seq<string>)
    requires fields != [] && forall i :: 0 <= i < |fields| ==> IsField(fields[i])
    ensures Parts(Fields(Join('\t', fields))) == fields && NoBreak(Join('\t', fields))
  {
    StripIs(fields[0]);
    if |fields| == 1 {
      FieldsOf(fields[0], "");
      assert fields == [fields[0]];
      assert Parts(fields[1..]) == [];
    } else {
      PartsOfNote(fields[1..]);
      FieldsOf(fields[0], Join('\t', fields[1..]));
      assert fields == [fields[0]] + fields[1..];
      PartsStep(fields[0], Fields(Join('\t', fields[1..])));
      NoBreakJoined(fields[0], Join('\t', fields[1..]));
      assert Join('\t', fields) == fields[0] + ['\t'] + Join('\t', fields[1..]);
    }
  }

  lemma PartsStep(a: string, rest: seq<string>)
    requires Trim(a)
    ensures Parts([a] + rest) == [a] + Parts(rest)
  {
    StripIs(a);
    assert ([a] + rest)[1..] == rest;
  }

  lemma ClassNames(c: Class)
    ensures ClassOf(ClassName(c)) == Some(c) && IsField(ClassName(c))
  {}

  lemma NoBreakJoined(a: string, b: string)
    requires NoBreak(a) && NoBreak(b)
    ensures NoBreak(a + "\t" + b)
  {}

  lemma RowHasNoBreaks(name: string, e: Entry)
    requires Clean(name) && Tidy(e.note)
    ensures NoBreak(Row(name, e))
  {
    var fields :| IsNote(fields, e.note);
    PartsOfNote(fields);
    ClassNames(e.cls);
    NoBreakJoined(ClassName(e.cls), e.note);
    NoBreakJoined(name, ClassName(e.cls) + "\t" + e.note);
    RowSplits(name, e);
  }

  lemma RowSplits(name: string, e: Entry)
    ensures Row(name, e) == name + "\t" + (ClassName(e.cls) + "\t" + e.note)
  {}

  lemma RowIsRead(name: string, e: Entry)
    requires Clean(name)
    ensures !IsSkipped(Row(name, e))
  {
    var row := Row(name, e);
    assert row[0] == name[0];
    LeftStripIs(row);
    StripIs(row);
  }

  lemma RowParts(name: string, e: Entry, fields: seq<string>)
    requires Clean(name) && IsNote(fields, e.note)
    ensures Parts(Fields(Row(name, e))) == [name] + ([ClassName(e.cls)] + fields)
  {
    var c := ClassName(e.cls);
    ClassNames(e.cls);
    PartsOfNote(fields);
    FieldsOf(c, e.note);
    FieldsOf(name, c + "\t" + e.note);
    RowSplits(name, e);
    PartsStep(c, Fields(e.note));
    PartsStep(name, [c] + Fields(e.note));
  }

  lemma RowLoads(name: string, e: Entry, entries: map<string, Entry>)
    requires Clean(name) && Tidy(e.note) && name !in entries
    ensures LoadLine(Row(name, e), entries) == Manifest(entries[name := e])
  {
    var row := Row(name, e);
    RowIsRead(name, e);
    var fields :| IsNote(fields, e.note);
    RowParts(name, e, fields);
    ClassNames(e.cls);
    ThreeParts(name, ClassName(e.cls), fields);
  }

  lemma ThreeParts(name: string, cls: string, fields: seq<string>)
    requires fields != []
    ensures var p := [name] + ([cls] + fields); |p| >= 3 && p[0] == name && p[1] == cls && p[2..] == fields
  {}

  // ----- a printed file parses back

  lemma {:induction false} LoadAppend(a: seq<string>, b: seq<string>, entries: map<string, Entry>)
    requires LoadLines(a, entries).Manifest?
    ensures LoadLines(a + b, entries) == LoadLines(b, LoadLines(a, entries).entries)
  {
    if a == [] {
      assert a + b == b;
    } else {
      assert (a + b)[1..] == a[1..] + b;
      LoadAppend(a[1..], b, LoadLine(a[0], entries).entries);
    }
  }

  ghost function Part(names: seq<string>, table: map<string, Entry>, c: Class): map<string, Entry> {
    map n | n in table && n in names && table[n].cls == c :: table[n]
  }

  lemma PartStep(init: seq<string>, n: string, table: map<string, Entry>, c: Class, entries: map<string, Entry>)
    requires n in table && table[n].cls == c
    ensures (entries + Part(init, table, c))[n := table[n]] == entries + Part(init + [n], table, c)
  {}

  lemma PartSkip(init: seq<string>, n: string, table: map<string, Entry>, c: Class)
    requires !(n in table && table[n].cls == c)
    ensures Part(init + [n], table, c) == Part(init, table, c)
    ensures RowsOf(init + [n], table, c) == RowsOf(init, table, c)
  {
    assert (init + [n])[..|init|] == init;
  }

  lemma {:induction false} RowsLoad(names: seq<string>, table: map<string, Entry>, c: Class,
                                    entries: map<string, Entry>)
    requires Distinct(names) && Loadable(table)
    requires forall n :: n in names && n in table && table[n].cls == c ==> n !in entries
    ensures LoadLines(RowsOf(names, table, c), entries) == Manifest(entries + Part(names, table, c))
  {
    if names == [] {
      assert entries + Part(names, table, c) == entries;
    } else {
      var init, n := names[..|names| - 1], names[|names| - 1];
      assert names == init + [n] && n !in init;
      RowsLoad(init, table, c, entries);
      var before := entries + Part(init, table, c);
      if n in table && table[n].cls == c {
        RowLoads(n, table[n], before);
        LoadOne(Row(n, table[n]), before);
        LoadAppend(RowsOf(init, table, c), [Row(n, table[n])], entries);
        PartStep(init, n, table, c, entries);
        RowsStep(init, n, table, c);
      } else {
        PartSkip(init, n, table, c);
      }
    }
  }

  lemma LoadOne(raw: string, entries: map<string, Entry>)
    ensures LoadLines([raw], entries) == LoadLine(raw, entries)
  {}

  lemma HeadingIsSkipped(c: Class)
    ensures IsSkipped(Heading(c)) && IsSkipped("")
  {
    var h := Heading(c);
    assert h[0] == '#';
    LeftStripIs(h);
    StripIs(h);
  }

  lemma HeadingHasNoBreaks(c: Class)
    ensures NoBreak(Heading(c))
  {
    ClassNames(c);
    var a, b := "# --- ", " ---";
    assert NoBreak(a) && NoBreak(b);
    assert Heading(c) == a + ClassName(c) + b;
  }

  lemma BlockLoads(names: seq<string>, table: map<string, Entry>, c: Class, entries: map<string, Entry>)
    requires Distinct(names) && Loadable(table)
    requires forall n :: n in names && n in table && table[n].cls == c ==> n !in entries
    ensures LoadLines(Block(names, table, c), entries) == Manifest(entries + Part(names, table, c))
  {
    var rows := RowsOf(names, table, c);
    RowsLoad(names, table, c, entries);
    if rows != [] {
      HeadingIsSkipped(c);
      LoadOne(Heading(c), entries);
      LoadAppend([Heading(c)], rows, entries);
      LoadOne("", entries + Part(names, table, c));
      LoadAppend([Heading(c)] + rows, [""], entries);
    }
  }

  ghost function Parted(names: seq<string>, table: map<string, Entry>, classes: seq<Class>): map<string, Entry> {
    map n | n in table && n in names && table[n].cls in classes :: table[n]
  }

  lemma {:induction false} BlocksLoad(names: seq<string>, table: map<string, Entry>, classes: seq<Class>)
    requires Distinct(names) && Loadable(table)
    requires Distinct(classes)
    ensures LoadLines(Blocks(names, table, classes), map[]) == Manifest(Parted(names, table, classes))
  {
    if classes == [] {
      assert Parted(names, table, classes) == map[];
    } else {
      var init, c := classes[..|classes| - 1], classes[|classes| - 1];
      assert classes == init + [c] && c !in init;
      BlocksLoad(names, table, init);
      BlockLoads(names, table, c, Parted(names, table, init));
      LoadAppend(Blocks(names, table, init), Block(names, table, c), map[]);
      PartedStep(names, table, init, c);
    }
  }

  lemma PartedStep(names: seq<string>, table: map<string, Entry>, init: seq<Class>, c: Class)
    ensures Parted(names, table, init) + Part(names, table, c) == Parted(names, table, init + [c])
  {}

  // ----- joining and splitting lines

  lemma FirstLine(a: string, b: string)
    requires NoBreak(a)
    ensures Lines(a + "\n" + b) == [a] + Lines(b)
    ensures Lines(a) == if a == "" then [] else [a]
  {
    var s := a + "\n" + b;
    assert forall i :: 0 <= i < |a| ==> s[i] == a[i];
    assert s[|a|] == '\n';
    BreakAtIs(s, |a|);
    BreakAtIs(a, |a|);
    assert s[..|a|] == a && s[|a| + 1..] == b;
  }

  /** Joining lines and splitting them again loads the same entries: at most a last blank line is lost. */
  lemma {:induction false} JoinedLinesLoad(lines: seq<string>, entries: map<string, Entry>)
    requires UnbrokenLines(lines)
    ensures LoadLines(Lines(Join('\n', lines)), entries) == LoadLines(lines, entries)
  {
    if |lines| == 1 {
      assert lines == [lines[0]];
      FirstLine(lines[0], "");
    } else if |lines| > 1 {
      FirstLine(lines[0], Join('\n', lines[1..]));
      var r := LoadLine(lines[0], entries);
      var rest := Lines(Join('\n', lines[1..]));
      assert ([lines[0]] + rest)[1..] == rest;
      if r.Manifest? { JoinedLinesLoad(lines[1..], r.entries); }
    }
  }

  ghost predicate AllSkipped(lines: seq<string>) {
    forall i :: 0 <= i < |lines| ==> IsSkipped(lines[i])
  }

  /** The header holds only comments and blank lines. */
  ghost predicate OnlyComments(header: string) {
    AllSkipped(Lines(header))
  }

  lemma SkipOne(first: string, rest: seq<string>, entries: map<string, Entry>)
    requires IsSkipped(first)
    ensures LoadLines([first] + rest, entries) == LoadLines(rest, entries)
  {
    assert ([first] + rest)[1..] == rest;
  }

  lemma SkippedTail(first: string, rest: seq<string>)
    requires AllSkipped([first] + rest)
    ensures IsSkipped(first) && AllSkipped(rest)
  {
    assert IsSkipped(([first] + rest)[0]);
    assert forall i :: 0 <= i < |rest| ==> rest[i] == ([first] + rest)[i + 1];
  }

  lemma {:induction false} HeaderLoadsNothing(header: string, rest: string, entries: map<string, Entry>)
    requires OnlyComments(header)
    ensures LoadLines(Lines(header + "\n" + rest), entries) == LoadLines(Lines(rest), entries)
    decreases |header|
  {
    var k := BreakAt(header);
    if k == |header| {
      FirstLine(header, rest);
      assert header != "" ==> IsSkipped(Lines(header)[0]);
      SkipOne(header, Lines(rest), entries);
    } else {
      var w := if header[k] == '\r' && k + 1 < |header| && header[k + 1] == '\n' then 2 else 1;
      var first, after := header[..k], header[k + w..];
      assert Lines(header) == [first] + Lines(after);
      SkippedTail(first, Lines(after));
      if header[k] == '\r' && k + 1 == |header| {
        BreakAtEnd(header, rest, k);
        SkipOne(first, Lines(rest), entries);
      } else {
        BreakInside(header, rest, k, w);
        SkipOne(first, Lines(after + "\n" + rest), entries);
        HeaderLoadsNothing(after, rest, entries);
      }
    }
  }

  lemma BreakAtEnd(header: string, rest: string, k: nat)
    requires k == BreakAt(header) < |header| && header[k] == '\r' && k + 1 == |header|
    ensures Lines(header + "\n" + rest) == [header[..k]] + Lines(rest)
  {
    var s := header + "\n" + rest;
    BreakAtIs(s, k);
    assert s[..k] == header[..k] && s[k + 2..] == rest;
  }

  lemma BreakInside(header: string, rest: string, k: nat, w: nat)
    requires k == BreakAt(header) < |header| && !(header[k] == '\r' && k + 1 == |header|)
    requires w == if header[k] == '\r' && k + 1 < |header| && header[k + 1] == '\n' then 2 else 1
    ensures Lines(header + "\n" + rest) == [header[..k]] + Lines(header[k + w..] + "\n" + rest)
  {
    var s, after := header + "\n" + rest, header[k + w..];
    Behind(header, "\n" + rest, k + w);
    assert s == header + ("\n" + rest);
    assert after + ("\n" + rest) == after + "\n" + rest;
    LinesStep(s, k, w);
    assert s[..k] == header[..k];
  }

  lemma Behind(a: string, b: string, k: nat)
    requires k <= |a|
    ensures (a + b)[k..] == a[k..] + b
  {}

  lemma {:induction false} LinesStep(s: string, k: nat, w: nat)
    requires k < |s| && IsBreak(s[k]) && forall i :: 0 <= i < k ==> !IsBreak(s[i])
    requires w == if s[k] == '\r' && k + 1 < |s| && s[k + 1] == '\n' then 2 else 1
    ensures Lines(s) == [s[..k]] + Lines(s[k + w..])
  {
    BreakAtIs(s, k);
  }

  lemma {:induction false} SkippedLinesLoadNothing(lines: seq<string>, entries: map<string, Entry>)
    requires forall i :: 0 <= i < |lines| ==> IsSkipped(lines[i])
    ensures LoadLines(lines, entries) == Manifest(entries)
  {
    if lines != [] { SkippedLinesLoadNothing(lines[1..], entries); }
  }

  ghost predicate UnbrokenLines(lines: seq<string>) {
    forall i :: 0 <= i < |lines| ==> NoBreak(lines[i])
  }

  lemma UnbrokenPair(a: seq<string>, b: seq<string>)
    requires UnbrokenLines(a) && UnbrokenLines(b)
    ensures UnbrokenLines(a + b)
  {}

  lemma {:induction false} BlocksHaveNoBreaks(names: seq<string>, table: map<string, Entry>, classes: seq<Class>)
    requires Loadable(table)
    ensures UnbrokenLines(Blocks(names, table, classes))
  {
    if classes != [] {
      var init, c := classes[..|classes| - 1], classes[|classes| - 1];
      BlocksHaveNoBreaks(names, table, init);
      RowsHaveNoBreaks(names, table, c);
      HeadingHasNoBreaks(c);
      UnbrokenPair([Heading(c)], RowsOf(names, table, c));
      UnbrokenPair([Heading(c)] + RowsOf(names, table, c), [""]);
      UnbrokenPair(Blocks(names, table, init), Block(names, table, c));
    }
  }

  lemma {:induction false} RowsHaveNoBreaks(names: seq<string>, table: map<string, Entry>, c: Class)
    requires Loadable(table)
    ensures UnbrokenLines(RowsOf(names, table, c))
  {
    if names != [] {
      var n := names[|names| - 1];
      RowsHaveNoBreaks(names[..|names| - 1], table, c);
      if n in table && table[n].cls == c {
        RowHasNoBreaks(n, table[n]);
        UnbrokenPair(RowsOf(names[..|names| - 1], table, c), [Row(n, table[n])]);
      }
    }
  }

  lemma TextLoads(header: string, body: seq<string>)
    requires OnlyComments(header) && UnbrokenLines(body)
    ensures LoadText(Join('\n', [header] + body)) == LoadLines(body, map[])
  {
    if body == [] {
      assert [header] + body == [header];
      SkippedLinesLoadNothing(Lines(header), map[]);
    } else {
      assert ([header] + body)[1..] == body;
      assert Join('\n', [header] + body) == header + "\n" + Join('\n', body);
      HeaderLoadsNothing(header, Join('\n', body), map[]);
      JoinedLinesLoad(body, map[]);
    }
  }

  lemma SortedNamesDistinct(s: set<string>)
    ensures Distinct(SortedNames(s))
  {
    SortedNamesHolds(s);
    CountsDistinct(SortedNames(s));
  }

  ghost predicate ListsEveryClassOnce(classes: seq<Class>) {
    Distinct(classes) && forall c: Class :: c in classes
  }

  lemma ValidClassesAreAll()
    ensures ListsEveryClassOnce(VALID_CLASSES)
  {
    assert VALID_CLASSES == [Workspace, Transitive, System, TenantRoot, Gap];
    forall c: Class ensures c in VALID_CLASSES {
      var i := match c case Workspace => 0 case Transitive => 1 case System => 2 case TenantRoot => 3 case Gap => 4;
      assert VALID_CLASSES[i] == c;
    }
  }

  lemma BodyLoads(header: string, names: seq<string>, table: map<string, Entry>, classes: seq<Class>)
    requires OnlyComments(header) && Loadable(table) && ListsEveryClassOnce(classes)
    requires Distinct(names) && forall n :: n in names <==> n in table
    ensures LoadText(Join('\n', [header] + Blocks(names, table, classes))) == Manifest(table)
  {
    BlocksHaveNoBreaks(names, table, classes);
    TextLoads(header, Blocks(names, table, classes));
    BlocksLoad(names, table, classes);
    assert Parted(names, table, classes) == table;
  }

  lemma PrintedLoads(header: string, table: map<string, Entry>)
    requires OnlyComments(header) && Loadable(table)
    ensures LoadText(EmitText(header, table)) == Manifest(table)
  {
    SortedNamesHolds(table.Keys);
    SortedNamesDistinct(table.Keys);
    ValidClassesAreAll();
    BodyLoads(header, SortedNames(table.Keys), table, VALID_CLASSES);
  }

  ghost predicate NamesAreClean(catalog: seq<Relation>) {
    forall r :: r in catalog && !r.isPartition ==> Clean(r.name)
  }

  lemma TodoIsTidy()
    ensures Tidy(TODO_NOTE)
  {
    assert IsNote([TODO_NOTE], TODO_NOTE);
  }

  /** Parsing a printed manifest gives exactly the expected entries, whatever file the prior notes came from, if and
      only if every non-partition name is clean: a name that is empty, starts with `#`, has white space at an end, or
      holds a tab or a line break cannot come back. */
  lemma PrintThenParse(header: string, catalog: seq<Relation>, prior: string)
    requires OnlyComments(header) && DistinctNames(catalog) && LoadText(prior).Manifest?
    ensures var expected := Expected(catalog, LoadText(prior).entries);
      LoadText(EmitText(header, expected)) == Manifest(expected) <==> NamesAreClean(catalog)
  {
    var existing := LoadText(prior).entries;
    var expected := Expected(catalog, existing);
    LoadedIsLoadable(prior);
    ParentsAreNamed(catalog);
    TodoIsTidy();
    if NamesAreClean(catalog) {
      PrintedLoads(header, expected);
    } else {
      var r :| r in catalog && !r.isPartition && !Clean(r.name);
      ParentsExactly(catalog, r);
      if LoadText(EmitText(header, expected)) == Manifest(expected) {
        LoadedIsLoadable(EmitText(header, expected));
      }
    }
  }

  /** Printing again from what was parsed gives the same file. */
  lemma PrintIsStable(header: string, catalog: seq<Relation>, prior: string)
    requires OnlyComments(header) && DistinctNames(catalog) && NamesAreClean(catalog) && LoadText(prior).Manifest?
    ensures var first := EmitText(header, Expected(catalog, LoadText(prior).entries));
      LoadText(first).Manifest? && EmitText(header, Expected(catalog, LoadText(first).entries)) == first
  {
    PrintThenParse(header, catalog, prior);
    var expected := Expected(catalog, LoadText(prior).entries);
    assert Expected(catalog, expected) == expected;
  }

  // ----- what a line means

  /** Every break ends a line; a carriage return and the line feed after it are one break; a last line needs none. */
  lemma {:induction false} LineEndsAtBreak(a: string, c: char, b: string)
    requires NoBreak(a) && c in "\n\r\U{b}\U{c}\U{1c}\U{1d}\U{1e}\U{85}\U{2028}\U{2029}"
    ensures !(c == '\r' && b != "" && b[0] == '\n') ==> Lines(a + [c] + b) == [a] + Lines(b)
    ensures Lines(a + "\r\n" + b) == [a] + Lines(b)
    ensures Lines(a) == if a == "" then [] else [a]
  {
    FirstLine(a, b);
    LineEndsAtPair(a, b);
    var s := a + [c] + b;
    if !(c == '\r' && b != "" && b[0] == '\n') {
      LinesStep(s, |a|, 1);
      assert s[..|a|] == a && s[|a| + 1..] == b;
    }
  }

  lemma {:induction false} LineEndsAtPair(a: string, b: string)
    requires NoBreak(a)
    ensures Lines(a + "\r\n" + b) == [a] + Lines(b)
  {
    var t := a + "\r\n" + b;
    assert t[|a|] == '\r' && t[|a| + 1] == '\n';
    LinesStep(t, |a|, 2);
    assert t[..|a|] == a && t[|a| + 2..] == b;
  }

  predicate Blank(s: string) {
    forall i :: 0 <= i < |s| ==> IsSpace(s[i])
  }

  /** `strip` takes white space off both ends and leaves none there. */
  lemma {:induction false} StripTakesSpace(s: string) returns (left: string, right: string)
    ensures s == left + Strip(s) + right && Blank(left) && Blank(right)
    ensures if Blank(s) then Strip(s) == "" else Trim(Strip(s))
  {
    var l, r := LeftStrip(s), Strip(s);
    LeftStripIs(s);
    RightStripIs(l);
    StripIs(s);
    LeftIsBlank(s);
    RightIsBlank(l);
    left, right := s[..|s| - |l|], l[|r|..];
    assert s == left + l && l == r + right;
  }

  lemma {:induction false} LeftIsBlank(s: string)
    ensures |LeftStrip(s)| <= |s| && Blank(s[..|s| - |LeftStrip(s)|])
  {
    if s != "" && IsSpace(s[0]) {
      LeftIsBlank(s[1..]);
      var n := |s| - |LeftStrip(s)|;
      LeftStripIs(s[1..]);
      assert forall i :: 0 < i < n ==> s[i] == s[1..][..n - 1][i - 1];
    }
  }

  lemma {:induction false} RightIsBlank(s: string)
    ensures |RightStrip(s)| <= |s| && Blank(s[|RightStrip(s)|..])
  {
    if s != "" && IsSpace(s[|s| - 1]) {
      var t := s[..|s| - 1];
      RightIsBlank(t);
      RightStripIs(t);
      assert s[|RightStrip(s)|..] == t[|RightStrip(s)|..] + [s[|s| - 1]];
    }
  }

  lemma {:induction false} FieldsOfJoin(fields: seq<string>)
    requires fields != [] && forall i :: 0 <= i < |fields| ==> NoTab(fields[i])
    ensures Fields(Join('\t', fields)) == fields
  {
    if |fields| == 1 {
      FieldsOf(fields[0], "");
      assert fields == [fields[0]];
    } else {
      FieldsOfJoin(fields[1..]);
      FieldsOf(fields[0], Join('\t', fields[1..]));
      assert fields == [fields[0]] + fields[1..];
      assert Join('\t', fields) == fields[0] + "\t" + Join('\t', fields[1..]);
    }
  }

  /** The fields that hold more than white space. */
  function Solid(fields: seq<string>): seq<string> {
    if fields == [] then [] else (if Blank(fields[0]) then [] else [fields[0]]) + Solid(fields[1..])
  }

  function Stripped(fields: seq<string>): seq<string> {
    seq(|fields|, i requires 0 <= i < |fields| => Strip(fields[i]))
  }

  lemma {:induction false} PartsExactly(fields: seq<string>)
    ensures Parts(fields) == Stripped(Solid(fields))
  {
    if fields != [] {
      PartsExactly(fields[1..]);
      var left, right := StripTakesSpace(fields[0]);
      StrippedOneMore(fields[0], Solid(fields[1..]));
    }
  }

  lemma StrippedOneMore(field: string, rest: seq<string>)
    ensures Stripped([field] + rest) == [Strip(field)] + Stripped(rest)
  {}

  predicate IsComment(s: string) {
    s != "" && s[0] == '#'
  }

  lemma BlankJoined(a: string, b: string)
    requires Blank(a) && Blank(b)
    ensures Blank(a + ['\t'] + b)
  {}

  lemma {:induction false} BlankFields(fields: seq<string>)
    requires Solid(fields) == []
    ensures Blank(Join('\t', fields))
  {
    if |fields| > 1 {
      BlankFields(fields[1..]);
      BlankJoined(fields[0], Join('\t', fields[1..]));
    }
  }

  lemma SkippedExactly(fields: seq<string>)
    requires fields != [] && forall i :: 0 <= i < |fields| ==> NoTab(fields[i])
    ensures IsSkipped(Join('\t', fields)) <==> Parts(fields) == [] || IsComment(Parts(fields)[0])
  {
    var raw := Join('\t', fields);
    FieldsOfJoin(fields);
    HeadOfParts(raw);
    StripIs(raw);
    LeftStripIs(raw);
    PartsExactly(fields);
    if Parts(fields) == [] { BlankFields(fields); }
  }

  /** What a line with the stripped fields `parts` does. */
  ghost predicate IsLoaded(r: Loaded, raw: string, entries: map<string, Entry>, parts: seq<string>) {
    if parts == [] || IsComment(parts[0]) then r == Manifest(entries)
    else if |parts| < 3 then r == TooFewFields(raw)
    else if parts[1] !in {"WORKSPACE", "TRANSITIVE", "SYSTEM", "TENANT_ROOT", "GAP"} then r == UnknownClass(raw)
    else if parts[0] in entries then r == Duplicate(raw)
    else r.Manifest? && AddsEntry(entries, r.entries, parts[0], parts[1], Join('\t', parts[2..]))
  }

  ghost predicate AddsEntry(before: map<string, Entry>, after: map<string, Entry>, name: string, cls: string,
                            note: string)
  {
    && after.Keys == before.Keys + {name} && (forall n :: n in before && n != name ==> after[n] == before[n])
    && after[name].note == note
    && match after[name].cls
       case Workspace => cls == "WORKSPACE"
       case Transitive => cls == "TRANSITIVE"
       case System => cls == "SYSTEM"
       case TenantRoot => cls == "TENANT_ROOT"
       case Gap => cls == "GAP"
  }

  lemma PartsLoaded(raw: string, entries: map<string, Entry>, parts: seq<string>)
    requires parts == Parts(Fields(raw)) && (IsSkipped(raw) <==> parts == [] || IsComment(parts[0]))
    ensures IsLoaded(LoadLine(raw, entries), raw, entries, parts)
  {}

  /** For any tab-separated line: a comment or nothing but white space adds nothing; otherwise its solid fields,
      stripped, are name, class and note, and it is refused exactly for fewer than three of them, for a class that is
      none of the five, or for a name read before, in this order. */
  lemma LoadLineExactly(fields: seq<string>, entries: map<string, Entry>)
    requires fields != [] && forall i :: 0 <= i < |fields| ==> NoTab(fields[i])
    ensures var (raw, solid) := (Join('\t', fields), Solid(fields));
      IsLoaded(LoadLine(raw, entries), raw, entries, Stripped(solid))
  {
    var (raw, solid) := (Join('\t', fields), Solid(fields));
    FieldsOfJoin(fields);
    PartsExactly(fields);
    SkippedExactly(fields);
    PartsLoaded(raw, entries, Parts(fields));
  }
}
