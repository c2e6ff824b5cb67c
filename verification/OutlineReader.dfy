/** Reading a rendered outline back with a heading stack: up to a path depth of five, every entry is
    found again, once, under its own module path; beyond that, headings are merged. */
module OutlineReader {
  import opened Sequences
  import opened StableSort
  import opened LexicographicOrder
  import opened MarkdownEscape
  import opened OutlineRenderer

  datatype Item = Item(path: Labels, title: string, statement: string)

  function ItemOf(e: Entry): Item {
    Item(e.path, e.title, e.statement)
  }

  // ---------------------------------------------------------------- the reader

  function CountHashes(line: string): (n: nat)
    ensures n <= |line|
  {
    if line == "" || line[0] != '#' then 0 else 1 + CountHashes(line[1..])
  }

  predicate IsHeading(line: string) {
    line != "" && line[0] == '#' && CountHashes(line) < |line|
  }

  /** A heading of level n + 2 stands under the first n labels of the stack. */
  function PushHeading(line: string, stack: Labels): Labels
    requires IsHeading(line)
  {
    var n := CountHashes(line);
    if n < 2 then []
    else (if n - 2 <= |stack| then stack[..n - 2] else stack) + [ReadEscaped(line[n + 1..]).0]
  }

  predicate IsEntry(line: string) {
    "- **" <= line && "**：" <= ReadEscaped(line[4..]).1
  }

  function ReadEntry(line: string, stack: Labels): Item
    requires IsEntry(line)
  {
    var (title, rest) := ReadEscaped(line[4..]);
    Item(stack, title, ReadEscaped(rest[3..]).0)
  }

  function Read(lines: seq<string>, stack: Labels): seq<Item>
    decreases |lines|
  {
    if lines == [] then []
    else if IsHeading(lines[0]) then Read(lines[1..], PushHeading(lines[0], stack))
    else if IsEntry(lines[0]) then [ReadEntry(lines[0], stack)] + Read(lines[1..], stack)
    else Read(lines[1..], stack)
  }

  /** The lines of a text; what follows the last newline is not a line. */
  function SplitLines(text: string): seq<string> {
    if '\n' !in text then []
    else
      var n := FirstNewline(text);
      [text[..n]] + SplitLines(text[n + 1..])
  }

  function FirstNewline(text: string): (n: nat)
    requires '\n' in text
    ensures n < |text| && text[n] == '\n' && '\n' !in text[..n]
  {
    if text[0] == '\n' then 0
    else
      assert text == [text[0]] + text[1..];
      var n := 1 + FirstNewline(text[1..]);
      assert text[..n] == [text[0]] + text[1..][..n - 1];
      n
  }

  function ReadOutline(text: string): seq<Item> {
    Read(SplitLines(text), [])
  }

  // ---------------------------------------------------------------- lines

  lemma {:induction false} HashesCounted(n: nat, rest: string)
    requires rest != "" && rest[0] != '#'
    ensures CountHashes(Hashes(n) + rest) == n && (Hashes(n) + rest)[n..] == rest
  {
    var line := Hashes(n) + rest;
    if n == 0 {
      assert line == rest;
    } else {
      HashesCounted(n - 1, rest);
      assert line[0] == '#' && line[1..] == Hashes(n - 1) + rest;
      assert line[n..] == line[1..][n - 1..];
    }
  }

  lemma HeadingReads(level: nat, name: string, stack: Labels)
    requires level >= 2 && level - 2 <= |stack|
    ensures IsHeading(Heading(level, name))
    ensures PushHeading(Heading(level, name), stack) == stack[..level - 2] + [name]
  {
    var rest := " " + EscapeMarkdown(name);
    var line := Heading(level, name);
    assert line == Hashes(level) + rest;
    HashesCounted(level, rest);
    assert Hashes(level)[0] == '#';
    assert line[level + 1..] == line[level..][1..] == EscapeMarkdown(name);
    ReadsBack(name, "");
    assert EscapeMarkdown(name) + "" == EscapeMarkdown(name);
  }

  lemma EntryReads(e: Entry, stack: Labels)
    ensures !IsHeading(EntryLine(e)) && IsEntry(EntryLine(e))
    ensures ReadEntry(EntryLine(e), stack) == Item(stack, e.title, e.statement)
  {
    var line := EntryLine(e);
    var rest := "**：" + EscapeMarkdown(e.statement);
    assert line == "- **" + (EscapeMarkdown(e.title) + rest);
    assert line[4..] == EscapeMarkdown(e.title) + rest;
    ReadsBack(e.title, rest);
    assert rest[3..] == EscapeMarkdown(e.statement);
    ReadsBack(e.statement, "");
    assert EscapeMarkdown(e.statement) + "" == EscapeMarkdown(e.statement);
  }

  lemma EmptyLineReads(lines: seq<string>, stack: Labels)
    requires lines != [] && lines[0] == ""
    ensures Read(lines, stack) == Read(lines[1..], stack)
  {
  }

  // ---------------------------------------------------------------- sections

  lemma {:induction false} HeadingsRead(path: Labels, i: nat, stack: Labels, rest: seq<string>)
    requires i < |path| <= 5 && i <= |stack| && stack[..i] == path[..i]
    ensures Read(Headings(path, i) + rest, stack) == Read(rest, path)
    decreases |path| - i
  {
    var more := Headings(path, i + 1) + rest;
    var lines := Headings(path, i) + rest;
    assert lines == [""] + ([Heading(i + 2, path[i])] + more);
    assert lines[1..][1..] == more;
    EmptyLineReads(lines, stack);
    HeadingReads(i + 2, path[i], stack);
    var next := stack[..i] + [path[i]];
    assert next == path[..i + 1];
    assert Read(lines, stack) == Read(more, next);
    if i + 1 == |path| {
      assert more == rest && next == path;
    } else {
      HeadingsRead(path, i + 1, next, rest);
    }
  }

  function ItemsUnder(path: Labels, entries: seq<Entry>): seq<Item> {
    if entries == [] then [] else [Item(path, entries[0].title, entries[0].statement)] + ItemsUnder(path, entries[1..])
  }

  lemma EntryRead(e: Entry, path: Labels, rest: seq<string>)
    ensures Read([EntryLine(e)] + rest, path) == [Item(path, e.title, e.statement)] + Read(rest, path)
  {
    EntryReads(e, path);
    assert ([EntryLine(e)] + rest)[1..] == rest;
  }

  lemma {:induction false} EntriesRead(entries: seq<Entry>, path: Labels, rest: seq<string>)
    ensures Read(EntryLines(entries) + rest, path) == ItemsUnder(path, entries) + Read(rest, path)
  {
    if entries == [] {
      assert EntryLines(entries) + rest == rest;
    } else {
      EntriesRead(entries[1..], path, rest);
      EntryRead(entries[0], path, EntryLines(entries[1..]) + rest);
      HeadOfJoin(EntryLine(entries[0]), EntryLines(entries[1..]), rest);
      HeadOfJoin(Item(path, entries[0].title, entries[0].statement), ItemsUnder(path, entries[1..]), Read(rest, path));
    }
  }

  function ItemsOf(modules: seq<Labels>, s: seq<Entry>): seq<Item> {
    if modules == [] then [] else ItemsUnder(modules[0], InModule(s, modules[0])) + ItemsOf(modules[1..], s)
  }

  /** No module path is a prefix of the one printed just before it, and none is deeper than five. */
  ghost predicate Readable(previous: Labels, modules: seq<Labels>)
    decreases |modules|
  {
    modules == [] ||
    (|modules[0]| <= 5 && !(modules[0] <= previous) && Readable(modules[0], modules[1..]))
  }

  lemma {:induction false} BodyReads(previous: Labels, modules: seq<Labels>, s: seq<Entry>)
    requires Readable(previous, modules)
    ensures Read(Body(previous, modules, s), previous) == ItemsOf(modules, s)
    decreases |modules|
  {
    if modules != [] {
      var path, entries := modules[0], InModule(s, modules[0]);
      var common := Common(previous, path);
      var rest := Body(path, modules[1..], s);
      assert path[..|path|] == path && path[..common] == previous[..common] <= previous;
      HeadingsRead(path, common, previous, EntryLines(entries) + rest);
      assert Body(previous, modules, s) == Headings(path, common) + (EntryLines(entries) + rest);
      EntriesRead(entries, path, rest);
      BodyReads(path, modules[1..], s);
    }
  }

  // ---------------------------------------------------------------- the order of modules

  lemma FoldKeepsPrefix(fold: string -> string, a: Labels, b: Labels)
    requires a <= b
    ensures FoldAll(fold, a) <= FoldAll(fold, b)
  {
  }

  /** Sorting by folded labels puts a path before everything below it. */
  lemma NotBelow(fold: string -> string, a: Labels, b: Labels)
    requires ModuleLeq(fold)(a, b) && a != b
    ensures !(b <= a)
  {
    if b <= a {
      FoldKeepsPrefix(fold, b, a);
      PrefixFirst(StringLeq(), FoldAll(fold, b), FoldAll(fold, a));
      StringsAndPathsOrdered();
      LexAntisymmetric(StringLeq(), FoldAll(fold, a), FoldAll(fold, b));
    }
  }

  lemma {:induction false} ModulesOnce(s: seq<Entry>)
    ensures Once(Modules(s))
    ensures forall p :: p in Modules(s) <==> exists e :: e in s && e.path == p
  {
    if s != [] {
      var before, last := s[..|s| - 1], s[|s| - 1];
      ModulesOnce(before);
      assert s == before + [last];
      if last.path !in Modules(before) {
        OnceJoined(Modules(before), [last.path]);
      }
    }
  }

  lemma {:induction false} SortedIsReadable(fold: string -> string, previous: Labels, modules: seq<Labels>)
    requires SortedBy(ModuleLeq(fold), modules)
    requires Once(modules)
    requires forall k :: 0 <= k < |modules| ==> 1 <= |modules[k]| <= 5
    requires previous == [] || (modules != [] ==> ModuleLeq(fold)(previous, modules[0]) && previous != modules[0])
    ensures Readable(previous, modules)
    decreases |modules|
  {
    if modules != [] {
      if previous != [] {
        NotBelow(fold, previous, modules[0]);
      }
      OnceRest(modules);
      assert |modules| > 1 ==> modules[1] in modules[1..];
      SortedIsReadable(fold, modules[0], modules[1..]);
    }
  }

  // ---------------------------------------------------------------- every entry once

  function Items(s: seq<Entry>): seq<Item> {
    if s == [] then [] else Items(s[..|s| - 1]) + [ItemOf(s[|s| - 1])]
  }

  lemma {:induction false} ItemsUnderJoin(path: Labels, a: seq<Entry>, b: seq<Entry>)
    ensures ItemsUnder(path, a + b) == ItemsUnder(path, a) + ItemsUnder(path, b)
  {
    if a == [] {
      assert a + b == b;
    } else {
      ItemsUnderJoin(path, a[1..], b);
      TailOfJoin(a, b);
    }
  }

  lemma {:induction false} ElsewhereUnchanged(modules: seq<Labels>, s: seq<Entry>)
    requires s != [] && s[|s| - 1].path !in modules
    ensures ItemsOf(modules, s) == ItemsOf(modules, s[..|s| - 1])
  {
    if modules != [] {
      ElsewhereUnchanged(modules[1..], s);
      assert InModule(s[..|s| - 1], modules[0]) + [] == InModule(s[..|s| - 1], modules[0]);
    }
  }

  /** One more entry is printed in exactly one place. */
  lemma {:induction false} AddEntry(modules: seq<Labels>, s: seq<Entry>)
    requires s != [] && Once(modules) && s[|s| - 1].path in modules
    ensures multiset(ItemsOf(modules, s)) == multiset(ItemsOf(modules, s[..|s| - 1])) + multiset{ItemOf(s[|s| - 1])}
  {
    var before, last := s[..|s| - 1], s[|s| - 1];
    OnceRest(modules);
    var path, rest := modules[0], modules[1..];
    if last.path == path {
      ElsewhereUnchanged(rest, s);
      ItemsUnderJoin(path, InModule(before, path), [last]);
      assert ItemsUnder(path, [last]) == [ItemOf(last)];
      assert multiset(ItemsUnder(path, InModule(s, path))) == multiset(ItemsUnder(path, InModule(before, path))) + multiset{ItemOf(last)};
    } else {
      AddEntry(rest, s);
      assert InModule(before, path) + [] == InModule(before, path);
    }
  }

  lemma {:induction false} NothingIn(modules: seq<Labels>)
    ensures ItemsOf(modules, []) == []
  {
    if modules != [] {
      NothingIn(modules[1..]);
    }
  }

  lemma {:induction false} AllPrinted(modules: seq<Labels>, s: seq<Entry>)
    requires Once(modules) && forall e :: e in s ==> e.path in modules
    ensures multiset(ItemsOf(modules, s)) == multiset(Items(s))
  {
    if s == [] {
      NothingIn(modules);
    } else {
      assert s == s[..|s| - 1] + [s[|s| - 1]];
      AllPrinted(modules, s[..|s| - 1]);
      AddEntry(modules, s);
    }
  }

  lemma {:induction false} ItemsOfPermutation(a: seq<Entry>, b: seq<Entry>)
    requires multiset(a) == multiset(b)
    ensures multiset(Items(a)) == multiset(Items(b))
  {
    assert |multiset(a)| == |a| && |multiset(b)| == |b|;
    if a != [] {
      var last := a[|a| - 1];
      assert last in multiset(b);
      var k :| 0 <= k < |b| && b[k] == last;
      WithoutOne(a, |a| - 1);
      WithoutOne(b, k);
      assert a[..|a| - 1] + a[|a|..] == a[..|a| - 1];
      ItemsOfPermutation(a[..|a| - 1], b[..k] + b[k + 1..]);
      ItemsWithoutOne(b, k);
    }
  }

  lemma ItemsWithoutOne(b: seq<Entry>, k: nat)
    requires k < |b|
    ensures multiset(Items(b)) == multiset(Items(b[..k] + b[k + 1..])) + multiset{ItemOf(b[k])}
  {
    SplitAt(b, k);
    ItemsInserted(b[..k], b[k], b[k + 1..]);
  }

  lemma ItemsInserted(a: seq<Entry>, e: Entry, b: seq<Entry>)
    ensures multiset(Items(a + ([e] + b))) == multiset(Items(a + b)) + multiset{ItemOf(e)}
  {
    var x, y, one := Items(a), Items(b), Items([e]);
    ItemsJoin(a, b);
    ItemsJoin([e], b);
    ItemsJoin(a, [e] + b);
    assert Items(a + b) == x + y && Items(a + ([e] + b)) == x + (one + y);
    assert one == [ItemOf(e)];
  }

  lemma {:induction false} ItemsJoin(a: seq<Entry>, b: seq<Entry>)
    ensures Items(a + b) == Items(a) + Items(b)
  {
    if b == [] {
      assert a + b == a;
    } else {
      ItemsJoin(a, b[..|b| - 1]);
      assert (a + b)[..|a + b| - 1] == a + b[..|b| - 1];
    }
  }

  // ---------------------------------------------------------------- text and lines

  lemma {:induction false} LinesOfText(lines: seq<string>)
    requires forall l :: l in lines ==> '\n' !in l
    ensures SplitLines(Text(lines)) == lines
  {
    if lines != [] {
      LinesOfText(lines[1..]);
      FirstLine(lines[0], Text(lines[1..]));
      assert lines == [lines[0]] + lines[1..];
    }
  }

  lemma FirstLine(line: string, rest: string)
    requires '\n' !in line
    ensures SplitLines(line + "\n" + rest) == [line] + SplitLines(rest)
  {
    var text := line + "\n" + rest;
    var n := |line|;
    assert text[n] == '\n' && text[..n] == line && text[n + 1..] == rest;
    FirstNewlineIs(text, n);
  }

  lemma {:induction false} FirstNewlineIs(text: string, n: nat)
    requires n < |text| && text[n] == '\n' && '\n' !in text[..n]
    ensures FirstNewline(text) == n
  {
    if n > 0 {
      assert text[0] == text[..n][0] && text[1..][..n - 1] == text[..n][1..];
      FirstNewlineIs(text[1..], n - 1);
    }
  }

  /** A stored entry: a non-empty path, and labels, title and statement on one line each. */
  ghost predicate WellFormed(e: Entry) {
    e.path != [] && (forall l :: l in e.path ==> '\n' !in l) && '\n' !in e.title && '\n' !in e.statement
  }

  lemma {:induction false} JoinOnOneLine(path: Labels)
    requires forall l :: l in path ==> '\n' !in l
    ensures '\n' !in JoinLabels(path)
  {
    if |path| > 1 {
      JoinOnOneLine(path[1..]);
    }
  }

  lemma {:induction false} HashesOnOneLine(n: nat)
    ensures '\n' !in Hashes(n) && |Hashes(n)| == n
  {
    if n > 0 {
      HashesOnOneLine(n - 1);
    }
  }

  lemma HeadingOnOneLine(level: nat, name: string)
    requires '\n' !in name
    ensures '\n' !in Heading(level, name)
  {
    HashesOnOneLine(level);
    EscapeAddsNoNewline(name);
  }

  lemma {:induction false} HeadingsOnOneLine(path: Labels, i: nat)
    requires forall l :: l in path ==> '\n' !in l
    ensures forall l :: l in Headings(path, i) ==> '\n' !in l
    decreases |path| - i
  {
    if i < |path| && i <= 5 {
      if i == 5 {
        JoinOnOneLine(path[5..]);
        HeadingOnOneLine(6, JoinLabels(path[5..]));
      } else {
        HeadingOnOneLine(i + 2, path[i]);
        HeadingsOnOneLine(path, i + 1);
      }
    }
  }

  lemma EntryOnOneLine(e: Entry)
    requires WellFormed(e)
    ensures '\n' !in EntryLine(e)
  {
    EscapeAddsNoNewline(e.title);
    EscapeAddsNoNewline(e.statement);
    assert '\n' !in "- **" && '\n' !in "**：";
  }

  lemma {:induction false} EntriesOnOneLine(entries: seq<Entry>)
    requires forall e :: e in entries ==> WellFormed(e)
    ensures forall l :: l in EntryLines(entries) ==> '\n' !in l
  {
    if entries != [] {
      EntryOnOneLine(entries[0]);
      EntriesOnOneLine(entries[1..]);
    }
  }

  lemma {:induction false} InModuleMembers(s: seq<Entry>, path: Labels)
    ensures forall e :: e in InModule(s, path) ==> e in s
  {
    if s != [] {
      InModuleMembers(s[..|s| - 1], path);
      assert s == s[..|s| - 1] + [s[|s| - 1]];
    }
  }

  lemma {:induction false} BodyOnOneLine(previous: Labels, modules: seq<Labels>, s: seq<Entry>)
    requires forall e :: e in s ==> WellFormed(e)
    requires forall p :: p in modules ==> exists e :: e in s && e.path == p
    ensures forall l :: l in Body(previous, modules, s) ==> '\n' !in l
    decreases |modules|
  {
    if modules != [] {
      assert modules[0] in modules;
      HeadingsOnOneLine(modules[0], Common(previous, modules[0]));
      InModuleMembers(s, modules[0]);
      EntriesOnOneLine(InModule(s, modules[0]));
      assert forall p :: p in modules[1..] ==> p in modules;
      BodyOnOneLine(modules[0], modules[1..], s);
    }
  }

  // ---------------------------------------------------------------- the round trip

  lemma SortedModulesAreExact(fold: string -> string, entries: seq<Entry>)
    ensures Once(SortedModules(fold, entries)) && SortedBy(ModuleLeq(fold), SortedModules(fold, entries))
    ensures forall p :: p in SortedModules(fold, entries) <==> exists e :: e in entries && e.path == p
  {
    var s := SortedEntries(fold, entries);
    KeysOrdered(fold);
    MembersKept(EntryLeq(fold), entries);
    ModulesOnce(s);
    SortOnce(ModuleLeq(fold), Modules(s));
    SortSorts(ModuleLeq(fold), Modules(s));
    MembersKept(ModuleLeq(fold), Modules(s));
  }

  lemma LinesReadBack(fold: string -> string, project: string, entries: seq<Entry>)
    requires '\n' !in project && forall e :: e in entries ==> WellFormed(e)
    ensures ReadOutline(Text(Lines(fold, project, entries))) ==
            Read(Body([], SortedModules(fold, entries), SortedEntries(fold, entries)), [])
  {
    var modules, s := SortedModules(fold, entries), SortedEntries(fold, entries);
    SortedModulesAreExact(fold, entries);
    MembersKept(EntryLeq(fold), entries);
    BodyOnOneLine([], modules, s);
    TitleOnOneLine(project);
    LinesOfText(Lines(fold, project, entries));
    TitleReads(project, Body([], modules, s));
  }

  lemma TitleOnOneLine(project: string)
    requires '\n' !in project
    ensures '\n' !in TitleLine(project)
  {
    EscapeAddsNoNewline(project);
    assert '\n' !in "# " && '\n' !in " 会话蒸馏知识库";
  }

  lemma TitleReads(project: string, rest: seq<string>)
    ensures Read([TitleLine(project)] + rest, []) == Read(rest, [])
  {
    var line := TitleLine(project);
    assert line[0] == '#' && line[1..][0] == ' ';
    assert CountHashes(line[1..]) == 0;
    assert ([line] + rest)[1..] == rest;
  }

  /** No heading has a level beyond six. */
  ghost predicate Shallow(lines: seq<string>) {
    forall l :: l in lines && IsHeading(l) ==> CountHashes(l) <= 6
  }

  lemma {:induction false} HeadingsShallow(path: Labels, i: nat)
    ensures Shallow(Headings(path, i))
    decreases |path| - i
  {
    if i < |path| && i <= 5 {
      var name := if i == 5 then JoinLabels(path[5..]) else path[i];
      var level := if i == 5 then 6 else i + 2;
      assert Heading(level, name) == Hashes(level) + (" " + EscapeMarkdown(name));
      HashesCounted(level, " " + EscapeMarkdown(name));
      if i < 5 {
        HeadingsShallow(path, i + 1);
      }
    }
  }

  lemma {:induction false} EntryLinesShallow(entries: seq<Entry>)
    ensures Shallow(EntryLines(entries))
  {
    if entries != [] {
      EntryReads(entries[0], []);
      EntryLinesShallow(entries[1..]);
    }
  }

  lemma {:induction false} BodyShallow(previous: Labels, modules: seq<Labels>, s: seq<Entry>)
    ensures Shallow(Body(previous, modules, s))
    decreases |modules|
  {
    if modules != [] {
      HeadingsShallow(modules[0], Common(previous, modules[0]));
      EntryLinesShallow(InModule(s, modules[0]));
      BodyShallow(modules[0], modules[1..], s);
    }
  }

  lemma {:induction false} ShallowReads(lines: seq<string>, stack: Labels)
    requires Shallow(lines) && |stack| <= 5
    ensures forall item :: item in Read(lines, stack) ==> |item.path| <= 5
  {
    if lines != [] {
      assert forall l :: l in lines[1..] ==> l in lines;
      ShallowReads(lines[1..], if IsHeading(lines[0]) then PushHeading(lines[0], stack) else stack);
    }
  }

  lemma {:induction false} ItemsMembers(s: seq<Entry>, e: Entry)
    requires e in s
    ensures ItemOf(e) in Items(s)
  {
    if e != s[|s| - 1] {
      assert s == s[..|s| - 1] + [s[|s| - 1]];
      ItemsMembers(s[..|s| - 1], e);
    }
  }

  /** Every entry is read back once, under its own module path, exactly when no path is deeper than
      five labels. */
  lemma RoundTrip(fold: string -> string, project: string, entries: seq<Entry>)
    requires '\n' !in project && forall e :: e in entries ==> WellFormed(e)
    ensures multiset(ReadOutline(Text(Lines(fold, project, entries)))) == multiset(Items(entries)) <==>
            forall e :: e in entries ==> |e.path| <= 5
  {
    LinesReadBack(fold, project, entries);
    if forall e :: e in entries ==> |e.path| <= 5 {
      ShallowRoundTrip(fold, entries);
    } else {
      var e :| e in entries && |e.path| > 5;
      var modules, s := SortedModules(fold, entries), SortedEntries(fold, entries);
      BodyShallow([], modules, s);
      ShallowReads(Body([], modules, s), []);
      ItemsMembers(entries, e);
      assert ItemOf(e) in multiset(Items(entries));
      assert ItemOf(e) !in Read(Body([], modules, s), []);
    }
  }

  lemma ShallowRoundTrip(fold: string -> string, entries: seq<Entry>)
    requires forall e :: e in entries ==> WellFormed(e) && |e.path| <= 5
    ensures multiset(Read(Body([], SortedModules(fold, entries), SortedEntries(fold, entries)), [])) == multiset(Items(entries))
  {
    var modules, s := SortedModules(fold, entries), SortedEntries(fold, entries);
    SortedModulesAreExact(fold, entries);
    SortKeeps(EntryLeq(fold), entries);
    MembersKept(EntryLeq(fold), entries);
    forall k | 0 <= k < |modules| ensures 1 <= |modules[k]| <= 5 {
      assert modules[k] in modules;
    }
    SortedIsReadable(fold, [], modules);
    BodyReads([], modules, s);
    AllPrinted(modules, s);
    ItemsOfPermutation(s, entries);
  }

  /** Beyond five labels no reader can help: different paths are printed alike. */
  lemma DeepPathsCollide(fold: string -> string, project: string, e: Entry, x: string, y: string)
    requires |e.path| == 5
    ensures var apart, joined := e.(path := e.path + [x, y]), e.(path := e.path + [x + " / " + y]);
            Lines(fold, project, [apart]) == Lines(fold, project, [joined])
  {
    var apart, joined := e.(path := e.path + [x, y]), e.(path := e.path + [x + " / " + y]);
    OneEntry(fold, apart);
    OneEntry(fold, joined);
    assert apart.path[5..] == [x, y] && joined.path[5..] == [x + " / " + y];
    assert [x, y][1..] == [y];
    SameHeadings(apart.path, joined.path, 0);
    assert EntryLine(apart) == EntryLine(joined);
  }

  lemma SortedAlone<T>(leq: (T, T) -> bool, x: T)
    ensures Sort(leq, [x]) == [x]
  {
    assert [x][1..] == [] && [x] + [] == [x];
  }

  lemma OneEntry(fold: string -> string, e: Entry)
    ensures SortedEntries(fold, [e]) == [e] && SortedModules(fold, [e]) == [e.path]
    ensures Body([], [e.path], [e]) == Headings(e.path, 0) + [EntryLine(e)]
  {
    SortedAlone(EntryLeq(fold), e);
    assert [e][..0] == [] && Modules([e]) == [e.path] && [e.path][1..] == [];
    SortedAlone(ModuleLeq(fold), e.path);
    assert InModule([e], e.path) == [e];
    assert EntryLines([e]) == [EntryLine(e)];
  }

  lemma {:induction false} SameHeadings(a: Labels, b: Labels, i: nat)
    requires i <= 5 < |a| && 5 < |b| && a[..5] == b[..5] && JoinLabels(a[5..]) == JoinLabels(b[5..])
    ensures Headings(a, i) == Headings(b, i)
    decreases 5 - i
  {
    if i < 5 {
      assert a[i] == a[..5][i] && b[i] == b[..5][i];
      SameHeadings(a, b, i + 1);
    }
  }

  /** The outline does not depend on the order in which the entries are given. */
  lemma OrderDoesNotMatter(fold: string -> string, project: string, entries: seq<Entry>, others: seq<Entry>)
    requires multiset(entries) == multiset(others) && Once(entries)
    requires forall a, b :: a in entries && b in entries && a.id == b.id ==> a == b
    ensures Lines(fold, project, entries) == Lines(fold, project, others)
  {
    var leq := EntryLeq(fold);
    KeysOrdered(fold);
    SortSorts(leq, others);
    SortKeeps(leq, entries);
    SortKeeps(leq, others);
    StrictlySorted(fold, entries);
    SortedIsUnique(leq, SortedEntries(fold, entries), SortedEntries(fold, others));
  }

  lemma StrictlySorted(fold: string -> string, entries: seq<Entry>)
    requires Once(entries) && forall a, b :: a in entries && b in entries && a.id == b.id ==> a == b
    ensures var s := SortedEntries(fold, entries); forall i, j :: 0 <= i < j < |s| ==> !EntryLeq(fold)(s[j], s[i])
  {
    var leq, s := EntryLeq(fold), SortedEntries(fold, entries);
    KeysOrdered(fold);
    SortSorts(leq, entries);
    SortOnce(leq, entries);
    MembersKept(leq, entries);
    forall i, j | 0 <= i < j < |s| ensures !leq(s[j], s[i]) {
      OnceApart(s, i, j);
      assert leq(s[i], s[j]) && s[i] in entries && s[j] in entries;
      KeysApart(fold, s[i], s[j]);
    }
  }

  lemma KeysApart(fold: string -> string, a: Entry, b: Entry)
    requires a.id != b.id && EntryLeq(fold)(a, b)
    ensures !EntryLeq(fold)(b, a)
  {
    KeysOrdered(fold);
    assert Key(fold, a)[3] == [a.id] && Key(fold, b)[3] == [b.id];
    assert [a.id][0] != [b.id][0];
    assert Key(fold, a) != Key(fold, b);
    assert Lex(PathLeq())(Key(fold, a), Key(fold, b));
  }
}
