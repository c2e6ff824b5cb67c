/** The order in which an outline lists its entries, said about what is read back from its text
    (_entry_sort_key and render_knowledge_markdown in harness_mem/knowledge_renderer.py). */
module OutlineOrder {
  import opened Sequences
  import opened StableSort
  import opened LexicographicOrder
  import opened MarkdownEscape
  import opened OutlineRenderer
  import opened OutlineReader

  // ---------------------------------------------------------------- strings and paths

  /** At the first place where they differ `a` has ended or has the smaller character. */
  predicate StringBefore(a: string, b: string) {
    exists k :: 0 <= k <= |a| && k < |b| && a[..k] == b[..k] && (k == |a| || a[k] < b[k])
  }

  predicate PathBefore(a: Labels, b: Labels) {
    exists k :: 0 <= k <= |a| && k < |b| && a[..k] == b[..k] && (k == |a| || StringBefore(a[k], b[k]))
  }

  lemma {:induction false} StringOrder(a: string, b: string)
    requires StringLeq()(a, b) && a != b
    ensures StringBefore(a, b)
  {
    if a != [] && a[0] == b[0] {
      assert a[1..] != b[1..] by { assert a == [a[0]] + a[1..] && b == [b[0]] + b[1..]; }
      StringOrder(a[1..], b[1..]);
      var k :| 0 <= k <= |a[1..]| && k < |b[1..]| && a[1..][..k] == b[1..][..k] && (k == |a[1..]| || a[1..][k] < b[1..][k]);
      assert a[..k + 1] == [a[0]] + a[1..][..k] && b[..k + 1] == [b[0]] + b[1..][..k];
    } else {
      assert a[..0] == b[..0];
    }
  }

  lemma {:induction false} PathOrder(a: Labels, b: Labels)
    requires PathLeq()(a, b) && a != b
    ensures PathBefore(a, b)
  {
    if a != [] && a[0] == b[0] {
      assert a[1..] != b[1..] by { assert a == [a[0]] + a[1..] && b == [b[0]] + b[1..]; }
      PathOrder(a[1..], b[1..]);
      var k :| 0 <= k <= |a[1..]| && k < |b[1..]| && a[1..][..k] == b[1..][..k] && (k == |a[1..]| || StringBefore(a[1..][k], b[1..][k]));
      assert a[..k + 1] == [a[0]] + a[1..][..k] && b[..k + 1] == [b[0]] + b[1..][..k];
    } else {
      if a != [] {
        StringOrder(a[0], b[0]);
      }
      assert a[..0] == b[..0];
    }
  }

  // ---------------------------------------------------------------- what may stand before what

  /** By folded module path; within one module by folded title, and then by folded statement. */
  predicate MayPrecede(fold: string -> string, x: Item, y: Item) {
    if FoldAll(fold, x.path) != FoldAll(fold, y.path) then PathBefore(FoldAll(fold, x.path), FoldAll(fold, y.path))
    else if x.path != y.path then true
    else if fold(x.title) != fold(y.title) then StringBefore(fold(x.title), fold(y.title))
    else if fold(x.statement) != fold(y.statement) then StringBefore(fold(x.statement), fold(y.statement))
    else true
  }

  ghost predicate Ordered(fold: string -> string, items: seq<Item>) {
    forall i, j :: 0 <= i < j < |items| ==> MayPrecede(fold, items[i], items[j])
  }

  lemma OneLabel(x: string, y: string)
    requires PathLeq()([x], [y]) && x != y
    ensures StringBefore(x, y)
  {
    StringOrder(x, y);
  }

  lemma KeyOrder(fold: string -> string, a: Entry, b: Entry)
    requires EntryLeq(fold)(a, b) && a.path == b.path
    ensures MayPrecede(fold, ItemOf(a), ItemOf(b))
  {
    var x, y := Key(fold, a), Key(fold, b);
    assert Lex(PathLeq())(x, y);
    assert LexLeq(PathLeq(), x, y) && x[0] == y[0];
    assert LexLeq(PathLeq(), x[1..], y[1..]);
    if fold(a.title) != fold(b.title) {
      assert x[1..][0] == [fold(a.title)] && y[1..][0] == [fold(b.title)] && [fold(a.title)][0] != [fold(b.title)][0];
      OneLabel(fold(a.title), fold(b.title));
    } else if fold(a.statement) != fold(b.statement) {
      assert LexLeq(PathLeq(), x[1..][1..], y[1..][1..]);
      assert x[1..][1..][0] == [fold(a.statement)] && y[1..][1..][0] == [fold(b.statement)];
      assert [fold(a.statement)][0] != [fold(b.statement)][0];
      OneLabel(fold(a.statement), fold(b.statement));
    }
  }

  lemma ModuleOrder(fold: string -> string, a: Labels, b: Labels, x: Item, y: Item)
    requires ModuleLeq(fold)(a, b) && a != b && x.path == a && y.path == b
    ensures MayPrecede(fold, x, y)
  {
    if FoldAll(fold, a) != FoldAll(fold, b) {
      PathOrder(FoldAll(fold, a), FoldAll(fold, b));
    }
  }

  // ---------------------------------------------------------------- the outline

  lemma {:induction false} InModuleSorted(fold: string -> string, s: seq<Entry>, path: Labels)
    requires SortedBy(EntryLeq(fold), s)
    ensures SortedBy(EntryLeq(fold), InModule(s, path))
    ensures forall e :: e in InModule(s, path) ==> e in s && e.path == path
  {
    if s != [] {
      var front, last := s[..|s| - 1], s[|s| - 1];
      InModuleSorted(fold, front, path);
      forall e | e in InModule(front, path) ensures EntryLeq(fold)(e, last) {
        var k :| 0 <= k < |front| && front[k] == e;
        assert s[k] == e;
      }
    }
  }

  lemma {:induction false} ItemsUnderAt(path: Labels, entries: seq<Entry>)
    requires forall e :: e in entries ==> e.path == path
    ensures |ItemsUnder(path, entries)| == |entries|
    ensures forall k :: 0 <= k < |entries| ==> ItemsUnder(path, entries)[k] == ItemOf(entries[k])
  {
    if entries != [] {
      ItemsUnderAt(path, entries[1..]);
      assert entries[0] in entries;
    }
  }

  lemma SectionOrdered(fold: string -> string, s: seq<Entry>, path: Labels)
    requires SortedBy(EntryLeq(fold), s)
    ensures Ordered(fold, ItemsUnder(path, InModule(s, path)))
    ensures forall x :: x in ItemsUnder(path, InModule(s, path)) ==> x.path == path
  {
    var entries := InModule(s, path);
    InModuleSorted(fold, s, path);
    ItemsUnderAt(path, entries);
    forall i, j | 0 <= i < j < |entries| ensures MayPrecede(fold, ItemOf(entries[i]), ItemOf(entries[j])) {
      assert entries[i] in entries && entries[j] in entries;
      KeyOrder(fold, entries[i], entries[j]);
    }
  }

  lemma {:induction false} PathsOfItems(modules: seq<Labels>, s: seq<Entry>, x: Item)
    requires x in ItemsOf(modules, s)
    ensures x.path in modules
  {
    if x in ItemsUnder(modules[0], InModule(s, modules[0])) {
      PathOfItem(modules[0], InModule(s, modules[0]), x);
    } else {
      PathsOfItems(modules[1..], s, x);
    }
  }

  lemma {:induction false} PathOfItem(path: Labels, entries: seq<Entry>, x: Item)
    requires x in ItemsUnder(path, entries)
    ensures x.path == path
  {
    if x != Item(path, entries[0].title, entries[0].statement) {
      PathOfItem(path, entries[1..], x);
    }
  }

  lemma OrderedJoin(fold: string -> string, a: seq<Item>, b: seq<Item>)
    requires Ordered(fold, a) && Ordered(fold, b)
    requires forall x, y :: x in a && y in b ==> MayPrecede(fold, x, y)
    ensures Ordered(fold, a + b)
  {
    var all := a + b;
    forall i, j | 0 <= i < j < |all| ensures MayPrecede(fold, all[i], all[j]) {
      if i < |a| <= j {
        assert all[i] in a && all[j] in b;
      }
    }
  }

  lemma {:induction false} ItemsOrdered(fold: string -> string, modules: seq<Labels>, s: seq<Entry>)
    requires SortedBy(EntryLeq(fold), s) && SortedBy(ModuleLeq(fold), modules) && Once(modules)
    ensures Ordered(fold, ItemsOf(modules, s))
  {
    if modules != [] {
      var path, rest := modules[0], modules[1..];
      OnceRest(modules);
      SectionOrdered(fold, s, path);
      ItemsOrdered(fold, rest, s);
      forall x, y | x in ItemsUnder(path, InModule(s, path)) && y in ItemsOf(rest, s) ensures MayPrecede(fold, x, y) {
        PathsOfItems(rest, s, y);
        var k :| 0 <= k < |rest| && rest[k] == y.path;
        assert modules[k + 1] == y.path && modules[0] == path;
        ModuleOrder(fold, path, y.path, x, y);
      }
      OrderedJoin(fold, ItemsUnder(path, InModule(s, path)), ItemsOf(rest, s));
    }
  }

  /** The entries of an outline are read back in order: modules by their folded paths, and the entries of
      one module by folded title and then by folded statement. */
  lemma OutlineIsOrdered(fold: string -> string, project: string, entries: seq<Entry>)
    requires '\n' !in project && forall e :: e in entries ==> WellFormed(e) && |e.path| <= 5
    ensures Ordered(fold, ReadOutline(Text(Lines(fold, project, entries))))
  {
    var modules, s := SortedModules(fold, entries), SortedEntries(fold, entries);
    LinesReadBack(fold, project, entries);
    SortedModulesAreExact(fold, entries);
    KeysOrdered(fold);
    SortSorts(EntryLeq(fold), entries);
    forall k | 0 <= k < |modules| ensures 1 <= |modules[k]| <= 5 {
      assert modules[k] in modules;
    }
    SortedIsReadable(fold, [], modules);
    BodyReads([], modules, s);
    ItemsOrdered(fold, modules, s);
  }

  // ---------------------------------------------------------------- the other lines

  lemma {:induction false} PlainIsUntouched(s: string)
    requires forall c :: c in s ==> !Special(c)
    ensures EscapeMarkdown(s) == s
  {
    EscapeIsOnePass(s);
    if s != "" {
      PlainIsUntouched(s[1..]);
      EscapeIsOnePass(s[1..]);
      assert s == [s[0]] + s[1..];
    }
  }

  lemma PlainSuffixReads(name: string, suffix: string)
    requires forall c :: c in suffix ==> !Special(c)
    ensures ReadEscaped(EscapeMarkdown(name) + suffix) == (name + suffix, "")
  {
    EscapeJoins(name, suffix);
    PlainIsUntouched(suffix);
    ReadsBack(name + suffix, "");
    assert EscapeMarkdown(name + suffix) + "" == EscapeMarkdown(name) + suffix;
  }

  lemma Behind(mark: string, text: string)
    ensures (mark + text)[|mark|..] == text && (mark + text)[..|mark|] == mark
  {
  }

  /** The first line is a first-level heading with the project name in it. */
  lemma TitleNamesProject(project: string, suffix: string)
    requires suffix == " 会话蒸馏知识库"
    ensures TitleLine(project)[..2] == "# "
    ensures ReadEscaped(TitleLine(project)[2..]) == (project + suffix, "")
  {
    PlainSuffixReads(project, suffix);
    Behind("# ", EscapeMarkdown(project) + suffix);
    assert TitleLine(project) == "# " + (EscapeMarkdown(project) + suffix);
  }

  /** Every heading stands behind an empty line. */
  ghost predicate BlankBefore(lines: seq<string>) {
    forall i :: 0 <= i < |lines| && IsHeading(lines[i]) ==> i > 0 && lines[i - 1] == ""
  }

  lemma BlankJoin(a: seq<string>, b: seq<string>)
    requires BlankBefore(a) && BlankBefore(b)
    ensures BlankBefore(a + b)
  {
    var all := a + b;
    forall i | 0 <= i < |all| && IsHeading(all[i]) ensures i > 0 && all[i - 1] == "" {
      if i >= |a| {
        assert b[i - |a|] == all[i];
      }
    }
  }

  lemma {:induction false} HeadingsBlank(path: Labels, i: nat)
    ensures BlankBefore(Headings(path, i))
    decreases |path| - i
  {
    if i < |path| && i < 5 {
      HeadingsBlank(path, i + 1);
      BlankJoin(["", Heading(i + 2, path[i])], Headings(path, i + 1));
    }
  }

  lemma {:induction false} EntryLinesBlank(entries: seq<Entry>)
    ensures BlankBefore(EntryLines(entries))
  {
    if entries != [] {
      EntryLinesBlank(entries[1..]);
      EntryReads(entries[0], []);
      BlankJoin([EntryLine(entries[0])], EntryLines(entries[1..]));
    }
  }

  lemma {:induction false} BodyBlank(previous: Labels, modules: seq<Labels>, s: seq<Entry>)
    ensures BlankBefore(Body(previous, modules, s))
    decreases |modules|
  {
    if modules != [] {
      HeadingsBlank(modules[0], Common(previous, modules[0]));
      EntryLinesBlank(InModule(s, modules[0]));
      BlankJoin(Headings(modules[0], Common(previous, modules[0])), EntryLines(InModule(s, modules[0])));
      BodyBlank(modules[0], modules[1..], s);
      BlankJoin(Section(previous, modules[0], InModule(s, modules[0])), Body(modules[0], modules[1..], s));
    }
  }
}
