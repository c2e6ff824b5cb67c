/** Fail-closed removal of native transcript sources (harness_mem/native_source_cleanup.py).

    Every target is first renamed to a private claim name, then checked there against the preview,
    and only then deleted, companions first; any mismatch renames the claims back. Between any two
    file operations the host may change everything under the original names, and until the last
    check of a claimed object also write into it through handles it still has open. File operations
    may fail, and the process may stop at any point and be run again with the same plan. */
module NativeCleanup {
  import opened Wrappers

  type Path = seq<string>

  /** A path from an object to something inside it. */
  type Relative = p: Path | p != [] witness ["entry"]

  /** SHA-256 is modelled as an injective function of the content. */
  datatype Digest = Sha256(content: string)

  datatype Entry = File(content: string, mtime: int) | Directory(size: int, mtime: int) | Link

  /** A file system object: its own entry and, by relative path, everything inside it. */
  datatype Obj = Obj(root: Entry, inside: map<Relative, Entry>)

  datatype Kind = FileKind | DirectoryKind

  // ---------------------------------------------------------------- manifests

  datatype Record = Record(kind: Kind, size: int, mtime: int, digest: Option<Digest>)

  datatype Manifest = Manifest(root: Record, inside: map<Relative, Record>)

  function RecordOf(e: Entry): Record
    requires !e.Link?
  {
    match e
    case File(content, mtime) => Record(FileKind, |content|, mtime, Some(Sha256(content)))
    case Directory(size, mtime) => Record(DirectoryKind, size, mtime, None)
  }

  predicate HasKind(e: Entry, kind: Kind) {
    if kind == FileKind then e.File? else e.Directory?
  }

  predicate LinkFree(o: Obj) {
    !o.root.Link? && forall p :: p in o.inside ==> !o.inside[p].Link?
  }

  /** Building a manifest fails on a link and on an object of the wrong kind. */
  function ManifestOf(o: Obj, kind: Kind): Option<Manifest> {
    if !HasKind(o.root, kind) then None
    else if kind == FileKind then Some(Manifest(RecordOf(o.root), map[]))
    else if !LinkFree(o) then None
    else Some(Manifest(RecordOf(o.root), map p | p in o.inside :: RecordOf(o.inside[p])))
  }

  /** Entry by entry: the kind, the size and the time of each file and directory, and the digest of each
      file; there is none of an object that is not of the kind, or of a directory with a link inside. */
  lemma ManifestExactly(o: Obj, kind: Kind)
    ensures ManifestOf(o, kind) == None <==>
              if kind == FileKind then !o.root.File? else !o.root.Directory? || exists p :: p in o.inside && o.inside[p].Link?
    ensures ManifestOf(o, kind).Some? && kind == FileKind ==>
              ManifestOf(o, kind).value.root == Record(FileKind, |o.root.content|, o.root.mtime, Some(Sha256(o.root.content)))
    ensures ManifestOf(o, kind).Some? && kind == DirectoryKind ==>
              var m := ManifestOf(o, kind).value;
              && m.root == Record(DirectoryKind, o.root.size, o.root.mtime, None)
              && m.inside.Keys == o.inside.Keys
              && forall p :: p in o.inside ==>
                   var e := o.inside[p];
                   && (e.File? ==> m.inside[p] == Record(FileKind, |e.content|, e.mtime, Some(Sha256(e.content))))
                   && (e.Directory? ==> m.inside[p] == Record(DirectoryKind, e.size, e.mtime, None))
  {
  }

  /** The entry that stands at a relative path of an object; the empty path is the object itself. */
  function EntryAt(o: Obj, at: Path): Option<Entry> {
    if at == [] then Some(o.root) else if at in o.inside then Some(o.inside[at]) else None
  }

  /** Equal manifests mean equal content, entry by entry. */
  lemma ManifestFixesContent(a: Obj, b: Obj, kind: Kind, at: Path)
    requires ManifestOf(a, kind).Some? && ManifestOf(a, kind) == ManifestOf(b, kind)
    requires at == [] || kind == DirectoryKind
    ensures EntryAt(a, at).Some? <==> EntryAt(b, at).Some?
    ensures EntryAt(a, at).Some? && EntryAt(a, at).value.File? ==>
              EntryAt(b, at).value.File? && EntryAt(b, at).value.content == EntryAt(a, at).value.content
  {
    if at != [] {
      var m := ManifestOf(a, kind).value;
      assert at in m.inside <==> at in a.inside;
      assert at in m.inside <==> at in b.inside;
      if at in m.inside {
        assert m.inside[at] == RecordOf(a.inside[at]) && m.inside[at] == RecordOf(b.inside[at]);
      }
    }
  }

  // ---------------------------------------------------------------- plans

  datatype Action = Action(kind: Kind, target: Path, expected: Option<Manifest>)

  datatype Plan = Plan(
    sourceId: string,
    revision: string,
    actions: seq<Action>,
    verification: Option<Path>,
    expectedDigest: Option<Digest>,
    expectedMtime: Option<int>,
    supported: bool,
    retained: bool)
  {
    ghost predicate DistinctTargets() {
      forall i, j :: 0 <= i < j < |actions| ==> actions[i].target != actions[j].target
    }
  }

  /** An original name of the host, or the private claim name derived from source, revision and target. */
  datatype Loc = Original(path: Path) | Claim(sourceId: string, revision: string, target: Path)

  function ClaimOf(plan: Plan, action: Action): Loc {
    Claim(plan.sourceId, plan.revision, action.target)
  }

  /** `path` lies strictly inside `root`. */
  predicate IsInside(path: Path, root: Path) {
    root < path
  }

  predicate Covers(action: Action, verification: Path) {
    action.target == verification || (action.kind == DirectoryKind && IsInside(verification, action.target))
  }

  /** The first action that covers the verification path is the primary one. */
  method PrimaryActionIndex(actions: seq<Action>, verification: Path) returns (index: Option<nat>)
    ensures index == FirstCovering(actions, verification, 0)
    // The first action whose target is the path, or a directory strictly around it.
    ensures match index
            case None => forall a :: a in actions ==> a.target != verification && !(a.kind == DirectoryKind && a.target < verification)
            case Some(i) =>
              && i < |actions|
              && (actions[i].target == verification || (actions[i].kind == DirectoryKind && actions[i].target < verification))
              && forall k :: 0 <= k < i ==>
                   actions[k].target != verification && !(actions[k].kind == DirectoryKind && actions[k].target < verification)
  {
    for i := 0 to |actions|
      invariant FirstCovering(actions, verification, 0) == FirstCovering(actions, verification, i)
    {
      if Covers(actions[i], verification) {
        return Some(i);
      }
    }
    return None;
  }

  function FirstCovering(actions: seq<Action>, verification: Path, from: nat): (index: Option<nat>)
    requires from <= |actions|
    ensures index.Some? ==> from <= index.value < |actions| && Covers(actions[index.value], verification)
    ensures forall k :: from <= k < (if index.Some? then index.value else |actions|) ==> !Covers(actions[k], verification)
    decreases |actions| - from
  {
    if from == |actions| then None
    else if Covers(actions[from], verification) then Some(from)
    else FirstCovering(actions, verification, from + 1)
  }

  /** The file whose digest identifies the revision, inside the claimed primary object. */
  function SourceEntry(action: Action, o: Obj, verification: Path): Option<Entry>
    requires Covers(action, verification)
  {
    if action.kind == FileKind then Some(o.root)
    else
      var relative := verification[|action.target|..];
      if relative in o.inside then Some(o.inside[relative]) else None
  }

  predicate SourceMatches(plan: Plan, action: Action, o: Obj, verification: Path)
    requires Covers(action, verification)
  {
    var entry := SourceEntry(action, o, verification);
    && entry.Some? && entry.value.File?
    && plan.expectedMtime == Some(entry.value.mtime)
    && plan.expectedDigest == Some(Sha256(entry.value.content))
  }

  predicate ActionMatches(action: Action, o: Obj) {
    action.expected.Some? && ManifestOf(o, action.kind) == action.expected
  }

  // ---------------------------------------------------------------- the journal

  /** What happens to the claims: what the process does, and, in `Written`, that the host wrote into
      claimed objects, with what the claims hold since. A removal records the verified object that the
      claim still holds or held a part of, what is left of it if something inside a directory was
      removed, and which companion claims existed at that moment. */
  datatype Event =
    | Claimed(action: Action, o: Obj)
    | Restored(action: Action, o: Obj)
    | Removed(action: Action, whole: Obj, at: Path, rest: Obj, companions: set<Path>)
    | Written(now: map<Path, Obj>)

  /** A directory without one of its entries; the entries of directories may have changed with it. */
  ghost predicate IsWithout(rest: Obj, o: Obj, at: Path) {
    && rest.root.Directory?
    && (forall p :: p in rest.inside <==> p in o.inside && p != at)
    && (forall p :: p in rest.inside ==> SameContent(rest.inside[p], o.inside[p]))
  }

  predicate SameContent(e: Entry, f: Entry) {
    e == f || (e.Directory? && f.Directory?)
  }

  /** Of a file all or nothing is left; of a directory some of the entries may be. */
  predicate Remainder(kind: Kind, o: Obj, whole: Obj) {
    if kind == FileKind then o == whole
    else o.root.Directory? && forall p :: p in o.inside ==> p in whole.inside && SameContent(o.inside[p], whole.inside[p])
  }
}
