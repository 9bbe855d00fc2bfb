/** The whole branch fold: read, bound the closure, build both revisions, compare. */
module Fold {
  import opened Wrappers
  import opened Keys
  import opened Surface
  import opened Routing
  import opened Closure

  /** What the gate is told: it could not decide, a read failed, or these are the widenings. */
  datatype Verdict = Undetermined | Faulty | Checked(changes: map<SymbolKey, SurfaceChange>)

  // ----- the two revisions a fold compares -----------------------------------

  function HeadsOf(read: Blob -> ReadOutcome, paths: seq<string>): seq<FileSurface> {
    FoundAt(read, BranchHead, paths)
  }

  function RequestOf(locate: Locator, read: Blob -> ReadOutcome, paths: seq<string>): Request {
    Bounded(Enumeration(locate, HeadsOf(read, paths)))
  }

  /** The candidates read at the merge base because the diff does not name them. */
  function ClosurePaths(locate: Locator, read: Blob -> ReadOutcome, paths: seq<string>): seq<string> {
    Unchanged(RequestOf(locate, read, paths).candidates, paths)
  }

  /** The files of one revision: the changed ones there, and the closure's, which are the same at
      both. */
  function FilesAt(locate: Locator, read: Blob -> ReadOutcome, paths: seq<string>,
                   revision: Revision): seq<FileSurface> {
    FoundAt(read, revision, paths) + FoundAt(read, MergeBase, ClosurePaths(locate, read, paths))
  }

  function Members(paths: seq<string>): set<string> {
    set p | p in paths
  }

  /** Every path that was tried. */
  function AttemptedBy(locate: Locator, read: Blob -> ReadOutcome, paths: seq<string>): set<string> {
    Members(paths) + Members(RequestOf(locate, read, paths).candidates)
  }

  function RevisionAt(locate: Locator, read: Blob -> ReadOutcome, paths: seq<string>, revision: Revision):
    Option<BranchSurface>
  {
    BuildSurface(locate, FilesAt(locate, read, paths, revision), AttemptedBy(locate, read, paths))
  }

  /** An unreadable file was reached before the bound. */
  ghost predicate Unbounded(locate: Locator, heads: seq<FileSurface>) {
    exists i :: 0 <= i < |heads| && !Readable(heads[i]) && !Bounded(Enumeration(locate, heads[..i])).truncated
  }

  /** Every read the fold makes. */
  function ReadsOf(locate: Locator, read: Blob -> ReadOutcome, paths: seq<string>): seq<Blob> {
    ChangedReads(paths) + AtMergeBase(ClosurePaths(locate, read, paths))
  }

  /** Both revisions were built, and nothing of either is unread. */
  ghost predicate Conclusive(locate: Locator, read: Blob -> ReadOutcome, paths: seq<string>) {
    var base, head := RevisionAt(locate, read, paths, MergeBase), RevisionAt(locate, read, paths, BranchHead);
    && !RequestOf(locate, read, paths).truncated
    && base.Some? && head.Some? && base.value.unread == {} && head.value.unread == {}
  }

  /** The changes are the widenings between the two revisions, each as it was, as it is, and who
      introduced it. */
  ghost predicate Reports(locate: Locator, read: Blob -> ReadOutcome, paths: seq<string>,
                          changes: map<SymbolKey, SurfaceChange>)
    requires Conclusive(locate, read, paths)
  {
    var base := RevisionAt(locate, read, paths, MergeBase).value;
    var head := RevisionAt(locate, read, paths, BranchHead).value;
    && (forall k :: k in changes <==> k in head.entries && Widens(base, head, k))
    && forall k :: k in changes ==>
         && changes[k].before == Merged(base.entries[k]) && changes[k].after == Merged(head.entries[k])
         && changes[k].introducedBy == ContributorsOf(head.entries[k]) - ContributorsOf(base.entries[k])
  }

  /** Whatever the entry had at the merge base it still has. */
  ghost predicate Kept(locate: Locator, read: Blob -> ReadOutcome, paths: seq<string>, key: SymbolKey)
    requires Conclusive(locate, read, paths)
  {
    var base := RevisionAt(locate, read, paths, MergeBase).value;
    var head := RevisionAt(locate, read, paths, BranchHead).value;
    key in base.entries && key in head.entries && multiset(base.entries[key]) <= multiset(head.entries[key])
  }

  /** The fold over a diff's paths, each named once. */
  method FoldBranch(locate: Locator, read: Blob -> ReadOutcome, paths: seq<string>) returns (r: Verdict)
    requires Distinct(paths)
    ensures var stuck, fault := Unbounded(locate, HeadsOf(read, paths)), AnyFault(read, ReadsOf(locate, read, paths));
            && (r.Faulty? <==> !stuck && fault)
            && (r.Checked? <==> !stuck && !fault && Conclusive(locate, read, paths))
    ensures r.Checked? ==> Reports(locate, read, paths, r.changes)
  {
    hide Bounded, Enumeration, Readable, AnyFault, FoundAt, BuildSurface, Widens, Merged, ContributorsOf, Unchanged;
    var log, bases, heads, request, closure, faulted := FoldReads(locate, read, paths);
    if request.None? {
      return Undetermined;
    }
    if faulted {
      return Faulty;
    }
    if request.value.truncated {
      return Undetermined;
    }
    var attempted := Members(paths) + Members(request.value.candidates);
    var base := BuildSurfaceLoop(locate, bases + closure, attempted);
    var head := BuildSurfaceLoop(locate, heads + closure, attempted);
    if base.None? || head.None? {
      return Undetermined;
    }
    var comparison := CompareSurfaces(base.value, head.value);
    if comparison.unread != {} {
      return Undetermined;
    }
    assert forall k: SymbolKey :: !SpaceUnread({}, k.space);
    return Checked(comparison.changes);
  }

  // ----- what a checked fold means -------------------------------------------

  /** Reading a path gives a surface of that path. */
  ghost predicate OwnPaths(read: Blob -> ReadOutcome) {
    forall blob :: read(blob).Found? ==> read(blob).surface.path == blob.path
  }

  lemma {:induction false} FoundPaths(read: Blob -> ReadOutcome, revision: Revision, paths: seq<string>, f: FileSurface)
    requires OwnPaths(read)
    ensures f in FoundAt(read, revision, paths) <==> f.path in paths && read(Blob(revision, f.path)) == Found(f)
  {
    if paths != [] {
      FoundPaths(read, revision, paths[..|paths| - 1], f);
      assert paths == paths[..|paths| - 1] + [paths[|paths| - 1]];
    }
  }

  /** A checked fold never misses a new file that widens a module's declaration: whenever a file
      the branch adds augments, by a specifier that names the module, a declaration that was
      there at the merge base and still is, the declaration is among the reported changes. */
  lemma NewAugmentationIsReported(locate: Locator, read: Blob -> ReadOutcome, paths: seq<string>,
                                  changes: map<SymbolKey, SurfaceChange>,
                                  f: FileSurface, g: FileSurface, specifier: string, rest: seq<Segment>, x: string,
                                  y: string)
    requires OwnPaths(read) && Conclusive(locate, read, paths) && Reports(locate, read, paths, changes)
    requires f.path in paths && read(Blob(BranchHead, f.path)) == Found(f) && read(Blob(MergeBase, f.path)) == Absent
    requires var heads := FilesAt(locate, read, paths, BranchHead);
             g in heads && IsModule(g) && TsNamespaceOf(g.path).Some?
             && Names(locate, heads, f, specifier, TsNamespaceOf(g.path).value)
    requires specifier != "" && Printable(rest) && rest[0].tag != 's' && !GlobalHead(rest[0])
    requires (Print([Segment('s', specifier)] + rest), x) in f.fingerprints && (Print(rest), y) in g.fingerprints
    requires Kept(locate, read, paths, SymbolKey(TsNamespaceOf(g.path).value, Print(rest)))
    ensures SymbolKey(TsNamespaceOf(g.path).value, Print(rest)) in changes
  {
    var base := RevisionAt(locate, read, paths, MergeBase).value;
    var head := RevisionAt(locate, read, paths, BranchHead).value;
    var key := SymbolKey(TsNamespaceOf(g.path).value, Print(rest));
    var bases, heads := FilesAt(locate, read, paths, MergeBase), FilesAt(locate, read, paths, BranchHead);
    var attempted := AttemptedBy(locate, read, paths);
    FoundPaths(read, BranchHead, paths, f);
    assert f in heads;
    forall c | c in base.entries[key] ensures c.path != f.path {
      ContributorIsFile(locate, bases, attempted, base, key, c);
      NotAtBase(locate, read, paths, f.path);
    }
    hide FilesAt, AttemptedBy, BuildSurface, Names, IsModule, TsNamespaceOf, Printable, Print, Widens, FoundAt,
         OwnPaths;
    assert forall k: SymbolKey :: !SpaceUnread({}, k.space);
    assert base.unread + head.unread == {};
    AugmentationIsReported(locate, bases, heads, attempted, attempted, base, head, f, g, specifier, rest, x, y,
                           Comparison(changes, {}));
  }

  lemma ContributorIsFile(locate: Locator, files: seq<FileSurface>, attempted: set<string>, s: BranchSurface,
                          key: SymbolKey,
                          c: Contribution)
    requires BuildSurface(locate, files, attempted) == Some(s) && key in s.entries && c in s.entries[key]
    ensures exists f :: f in files && f.path == c.path
  {
    EntriesExact(locate, files, attempted, s, key, c);
    hide BuildSurface, BelongsTo, Declares;
  }

  lemma NotAtBase(locate: Locator, read: Blob -> ReadOutcome, paths: seq<string>, path: string)
    requires OwnPaths(read) && path in paths && read(Blob(MergeBase, path)) == Absent
    ensures forall g :: g in FilesAt(locate, read, paths, MergeBase) ==> g.path != path
  {
    forall g | g in FilesAt(locate, read, paths, MergeBase) ensures g.path != path {
      FoundPaths(read, MergeBase, paths, g);
      FoundPaths(read, MergeBase, ClosurePaths(locate, read, paths), g);
    }
  }
}
