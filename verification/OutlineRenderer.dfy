/** The knowledge outline (render_knowledge_markdown in harness_mem/knowledge_renderer.py), without
    the optional details: entries grouped by module path under nested headings. */
module OutlineRenderer {
  import opened Wrappers
  import opened StableSort
  import opened LexicographicOrder
  import opened MarkdownEscape

  type Labels = seq<string>

  datatype Entry = Entry(id: string, project: string, path: Labels, title: string, statement: string)

  datatype RenderError = EmptyProject | ForeignEntry

  // ---------------------------------------------------------------- order

  /** Case folding is left abstract. */
  function FoldAll(fold: string -> string, path: Labels): (r: Labels)
    ensures |r| == |path| && forall k :: 0 <= k < |path| ==> r[k] == fold(path[k])
  {
    seq(|path|, k requires 0 <= k < |path| => fold(path[k]))
  }

  function Key(fold: string -> string, e: Entry): seq<Labels> {
    [FoldAll(fold, e.path), [fold(e.title)], [fold(e.statement)], [e.id]]
  }

  function EntryLeq(fold: string -> string): (Entry, Entry) -> bool {
    (a, b) => Lex(PathLeq())(Key(fold, a), Key(fold, b))
  }

  function ModuleLeq(fold: string -> string): (Labels, Labels) -> bool {
    (a, b) => PathLeq()(FoldAll(fold, a), FoldAll(fold, b))
  }

  lemma KeysOrdered(fold: string -> string)
    ensures TotalOrder(Lex(PathLeq())) && TotalPreorder(EntryLeq(fold)) && TotalPreorder(ModuleLeq(fold))
  {
    StringsAndPathsOrdered();
    LexIsTotalOrder(PathLeq());
    var before := EntryLeq(fold);
    forall a, b ensures before(a, b) || before(b, a) {
      assert Lex(PathLeq())(Key(fold, a), Key(fold, b)) || Lex(PathLeq())(Key(fold, b), Key(fold, a));
    }
    forall a, b, c | before(a, b) && before(b, c) ensures before(a, c) {
      assert Lex(PathLeq())(Key(fold, a), Key(fold, b)) && Lex(PathLeq())(Key(fold, b), Key(fold, c));
    }
    var leq := ModuleLeq(fold);
    forall a, b ensures leq(a, b) || leq(b, a) {
      assert PathLeq()(FoldAll(fold, a), FoldAll(fold, b)) || PathLeq()(FoldAll(fold, b), FoldAll(fold, a));
    }
    forall a, b, c | leq(a, b) && leq(b, c) ensures leq(a, c) {
      assert PathLeq()(FoldAll(fold, a), FoldAll(fold, b)) && PathLeq()(FoldAll(fold, b), FoldAll(fold, c));
    }
  }

  // ---------------------------------------------------------------- grouping

  /** The module paths in order of first appearance. */
  function Modules(s: seq<Entry>): seq<Labels> {
    if s == [] then []
    else
      var before, path := Modules(s[..|s| - 1]), s[|s| - 1].path;
      if path in before then before else before + [path]
  }

  function InModule(s: seq<Entry>, path: Labels): seq<Entry> {
    if s == [] then []
    else InModule(s[..|s| - 1], path) + if s[|s| - 1].path == path then [s[|s| - 1]] else []
  }

  method Group(s: seq<Entry>) returns (order: seq<Labels>, grouped: map<Labels, seq<Entry>>)
    ensures order == Modules(s)
    ensures forall p :: p in grouped <==> p in order
    ensures forall p :: p in grouped ==> grouped[p] == InModule(s, p)
  {
    order, grouped := [], map[];
    for i := 0 to |s|
      invariant order == Modules(s[..i])
      invariant forall p :: p in grouped <==> p in order
      invariant forall p :: p !in grouped ==> InModule(s[..i], p) == []
      invariant forall p :: p in grouped ==> grouped[p] == InModule(s[..i], p)
    {
      assert s[..i + 1][..i] == s[..i];
      var path := s[i].path;
      if path !in grouped {
        order := order + [path];
        grouped := grouped[path := []];
      }
      grouped := grouped[path := grouped[path] + [s[i]]];
    }
    assert s[..|s|] == s;
  }

  // ---------------------------------------------------------------- lines

  function Hashes(n: nat): string {
    if n == 0 then "" else "#" + Hashes(n - 1)
  }

  function Heading(level: nat, name: string): string {
    Hashes(level) + " " + EscapeMarkdown(name)
  }

  function JoinLabels(path: Labels): string {
    if path == [] then "" else if |path| == 1 then path[0] else path[0] + " / " + JoinLabels(path[1..])
  }

  function Common(a: Labels, b: Labels): (n: nat)
    ensures n <= |a| && n <= |b| && a[..n] == b[..n]
    ensures n < |a| && n < |b| ==> a[n] != b[n]
  {
    if a == [] || b == [] || a[0] != b[0] then 0 else 1 + Common(a[1..], b[1..])
  }

  /** Headings for the labels from `i` on. From the sixth label on there is one heading, for all of them. */
  function Headings(path: Labels, i: nat): seq<string>
    decreases |path| - i
  {
    if i >= |path| || i > 5 then []
    else if i == 5 then ["", Heading(6, JoinLabels(path[5..]))]
    else ["", Heading(i + 2, path[i])] + Headings(path, i + 1)
  }

  function EntryLine(e: Entry): string {
    "- **" + EscapeMarkdown(e.title) + "**：" + EscapeMarkdown(e.statement)
  }

  function EntryLines(s: seq<Entry>): seq<string> {
    if s == [] then [] else [EntryLine(s[0])] + EntryLines(s[1..])
  }

  function Body(previous: Labels, modules: seq<Labels>, s: seq<Entry>): seq<string>
    decreases |modules|
  {
    if modules == [] then []
    else Section(previous, modules[0], InModule(s, modules[0])) + Body(modules[0], modules[1..], s)
  }

  /** The headings a module does not share with the module before it, and its entries. */
  function Section(previous: Labels, path: Labels, entries: seq<Entry>): seq<string> {
    Headings(path, Common(previous, path)) + EntryLines(entries)
  }

  function TitleLine(project: string): string {
    "# " + EscapeMarkdown(project) + " 会话蒸馏知识库"
  }

  function SortedEntries(fold: string -> string, entries: seq<Entry>): seq<Entry> {
    Sort(EntryLeq(fold), entries)
  }

  function SortedModules(fold: string -> string, entries: seq<Entry>): seq<Labels> {
    Sort(ModuleLeq(fold), Modules(SortedEntries(fold, entries)))
  }

  function Lines(fold: string -> string, project: string, entries: seq<Entry>): seq<string> {
    [TitleLine(project)] + Body([], SortedModules(fold, entries), SortedEntries(fold, entries))
  }

  function Text(lines: seq<string>): string {
    if lines == [] then "" else lines[0] + "\n" + Text(lines[1..])
  }

  // ---------------------------------------------------------------- the renderer

  method RenderHeadings(path: Labels, common: nat) returns (lines: seq<string>)
    requires common <= |path|
    ensures lines == Headings(path, common)
  {
    lines := [];
    var index := common;
    while index < |path|
      invariant common <= index <= |path|
      invariant lines + Headings(path, index) == Headings(path, common)
    {
      if index >= 5 {
        if index == 5 {
          lines := lines + ["", Heading(6, JoinLabels(path[5..]))];
        }
        return;
      }
      lines := lines + ["", Heading(index + 2, path[index])];
      index := index + 1;
    }
  }

  method CommonPrefix(a: Labels, b: Labels) returns (common: nat)
    ensures common == Common(a, b)
  {
    common := 0;
    while common < |a| && common < |b| && a[common] == b[common]
      invariant common <= |a| && common <= |b|
      invariant common + Common(a[common..], b[common..]) == Common(a, b)
    {
      assert a[common..][1..] == a[common + 1..] && b[common..][1..] == b[common + 1..];
      common := common + 1;
    }
  }

  method RenderEntries(s: seq<Entry>) returns (lines: seq<string>)
    ensures lines == EntryLines(s)
  {
    lines := [];
    for i := 0 to |s|
      invariant lines + EntryLines(s[i..]) == EntryLines(s)
    {
      assert s[i..][1..] == s[i + 1..];
      lines := lines + [EntryLine(s[i])];
    }
  }

  /** `project` is the project name without surrounding white space. */
  method RenderKnowledgeMarkdown(fold: string -> string, project: string, entries: seq<Entry>)
    returns (r: Result<string, RenderError>)
    ensures project == "" <==> r == Failure(EmptyProject)
    ensures project != "" ==> (r == Failure(ForeignEntry) <==> exists e :: e in entries && e.project != project)
    ensures r.Success? ==> r.value == Text(Lines(fold, project, entries))
  {
    if project == "" {
      return Failure(EmptyProject);
    }
    var current := Sort(EntryLeq(fold), entries);
    MembersKept(EntryLeq(fold), entries);
    if exists e :: e in current && e.project != project {
      return Failure(ForeignEntry);
    }
    var order, grouped := Group(current);
    var modules := Sort(ModuleLeq(fold), order);
    MembersKept(ModuleLeq(fold), order);
    var body := RenderBody(modules, grouped, current);
    return Success(Text([TitleLine(project)] + body));
  }

  method RenderBody(modules: seq<Labels>, grouped: map<Labels, seq<Entry>>, ghost s: seq<Entry>) returns (lines: seq<string>)
    requires forall p :: p in modules ==> p in grouped && grouped[p] == InModule(s, p)
    ensures lines == Body([], modules, s)
  {
    lines := [];
    var previous: Labels := [];
    for i := 0 to |modules|
      invariant lines + Body(previous, modules[i..], s) == Body([], modules, s)
    {
      BodyStep(previous, modules, i, s);
      var section := RenderSection(previous, modules[i], grouped[modules[i]]);
      lines := lines + section;
      previous := modules[i];
    }
  }

  lemma BodyStep(previous: Labels, modules: seq<Labels>, i: nat, s: seq<Entry>)
    requires i < |modules|
    ensures Body(previous, modules[i..], s) ==
            Section(previous, modules[i], InModule(s, modules[i])) + Body(modules[i], modules[i + 1..], s)
  {
    assert modules[i..][0] == modules[i] && modules[i..][1..] == modules[i + 1..];
  }

  method RenderSection(previous: Labels, path: Labels, entries: seq<Entry>) returns (lines: seq<string>)
    ensures lines == Section(previous, path, entries)
  {
    var common := CommonPrefix(previous, path);
    var headings := RenderHeadings(path, common);
    var entryLines := RenderEntries(entries);
    return headings + entryLines;
  }
}
