/** Where every key of a revision lands and under which name, said of the printed keys; and that
    an augmentation of a declaration is therefore never missed. */
module Routing {
  import opened Wrappers
  import opened Keys
  import opened Surface

  // ----- what a specifier names ----------------------------------------------

  /** Some file present is a candidate of the specifier, and all that are name this space. */
  ghost predicate Names(locate: Locator, files: seq<FileSurface>, f: FileSurface, specifier: string, space: Namespace) {
    && (exists g :: g in files && g.path in SpecifierCandidates(locate, f.path, specifier))
    && (forall g :: g in files && g.path in SpecifierCandidates(locate, f.path, specifier) ==>
          TsNamespaceOf(g.path) == Some(space))
  }

  /** The file's own keys land in the space of its path: it is a module, as reported or as its
      keys prove. */
  predicate IsModule(f: FileSurface) {
    f.isModule == Some(true) || ModuleEvidence(f)
  }

  predicate GlobalHead(s: Segment) {
    s == Segment('k', "global")
  }

  /** The text is a key with these segments. */
  predicate Reads(text: string, segments: seq<Segment>) {
    segments != [] && ParseKey(text) == Some(segments)
  }

  /** A printed key reads as what was printed. */
  lemma PrintedReads(segments: seq<Segment>)
    requires Printable(segments)
    ensures Reads(Print(segments), segments)
  {
    RoundTrip(segments, Print(segments));
  }

  /** The entry a key with these segments belongs to; none for the bare head of an augmentation
      or of a global block. */
  ghost predicate BelongsTo(locate: Locator, files: seq<FileSurface>, f: FileSurface, text: string,
                            segments: seq<Segment>, key: SymbolKey)
    requires segments != []
  {
    var head, rest := segments[0], segments[1..];
    if head.tag == 's' then
      && rest != [] && key.qualname == Print(rest)
      && match key.space
         case FileSpace(_) => Names(locate, files, f, head.text, key.space)
         case UnresolvedSpace(specifier) =>
           specifier == head.text && forall space: Namespace :: !Names(locate, files, f, head.text, space)
         case GlobalSpace => false
    else if GlobalHead(head) then
      rest != [] && key == SymbolKey(GlobalSpace, Print(rest))
    else
      && key.qualname == text
      && if IsModule(f) then TsNamespaceOf(f.path) == Some(key.space) else key.space == GlobalSpace
  }

  // ----- the routing function, over printed keys -----------------------------

  lemma NamesIsResolved(locate: Locator, files: seq<FileSurface>, f: FileSurface, specifier: string, space: Namespace)
    requires ResolveSpecifier(locate, PathsOf(files), f.path, specifier).Some?
    ensures space.FileSpace? ==>
              (Names(locate, files, f, specifier, space) <==>
               ResolveSpecifier(locate, PathsOf(files), f.path, specifier).value == space)
    ensures Names(locate, files, f, specifier, space) ==> space.FileSpace?
  {
    hide SpecifierCandidates, ResolveSpecifier, StripTsSuffix;
    var candidates, present := SpecifierCandidates(locate, f.path, specifier), PathsOf(files);
    if space.FileSpace? {
      ResolvedExact(locate, present, f.path, specifier, space);
    }
    if Names(locate, files, f, specifier, space) {
      var g :| g in files && g.path in candidates;
      var i :| 0 <= i < |candidates| && candidates[i] == g.path;
      var k :| 0 <= k < |files| && files[k] == g;
      assert candidates[i] in present;
      forall j | 0 <= j < |candidates| && candidates[j] in present ensures TsNamespaceOf(candidates[j]) == Some(space) {
        var m :| 0 <= m < |files| && files[m].path == candidates[j];
        assert files[m] in files;
      }
    }
    if i :| 0 <= i < |candidates| && candidates[i] in present
            && (forall j :: 0 <= j < |candidates| && candidates[j] in present ==>
                TsNamespaceOf(candidates[j]) == Some(space)) {
      var m :| 0 <= m < |files| && files[m].path == candidates[i];
      assert files[m] in files && files[m].path in candidates;
      forall g | g in files && g.path in candidates ensures TsNamespaceOf(g.path) == Some(space) {
        var j :| 0 <= j < |candidates| && candidates[j] == g.path;
        var k :| 0 <= k < |files| && files[k] == g;
        assert candidates[j] in present;
      }
    }
  }

  lemma ResolvedKinds(locate: Locator, present: set<string>, path: string, specifier: string)
    requires ResolveSpecifier(locate, present, path, specifier).Some?
    ensures var space := ResolveSpecifier(locate, present, path, specifier).value;
            space.FileSpace? || space == UnresolvedSpace(specifier)
  {
    hide SpecifierCandidates, StripTsSuffix;
  }

  /** The entry routing files a printed key under is the one it belongs to. */
  lemma RoutedWhereItBelongs(locate: Locator, files: seq<FileSurface>, f: FileSurface, text: string,
                             segments: seq<Segment>, key: SymbolKey)
    requires Reads(text, segments) && Route(locate, PathsOf(files), f, text).Some?
    ensures BelongsTo(locate, files, f, text, segments, key) <==>
            var r := Route(locate, PathsOf(files), f, text).value; r.Landed? && r.key == key
  {
    hide ParseKey, Print, ModuleEvidence, StripTsSuffix, SpecifierCandidates, ResolveSpecifier, Names, TsNamespaceOf;
    var head := segments[0];
    if head.tag == 's' && |segments| > 1 {
      ResolvedKinds(locate, PathsOf(files), f.path, head.text);
      forall space: Namespace
        ensures space.FileSpace? ==>
                  (Names(locate, files, f, head.text, space) <==>
                   ResolveSpecifier(locate, PathsOf(files), f.path, head.text).value == space)
        ensures Names(locate, files, f, head.text, space) ==> space.FileSpace?
      {
        NamesIsResolved(locate, files, f, head.text, space);
      }
    }
  }

  /** What a printed key leaves unread: an augmentation its unresolved specifier, a global block
      the global space, and any other key of a file that is no module the global space, for the
      reason that the file said so or that nothing was said. */
  ghost predicate LeavesUnread(locate: Locator, files: seq<FileSurface>, f: FileSurface, segments: seq<Segment>,
                               u: Unread)
    requires segments != []
  {
    var head, rest := segments[0], segments[1..];
    if head.tag == 's' then
      && rest != [] && u == Unread(UnresolvedSpace(head.text), UnresolvedSpecifier)
      && forall space: Namespace :: !Names(locate, files, f, head.text, space)
    else if GlobalHead(head) then u == Unread(GlobalSpace, NotEnumerable)
    else !IsModule(f) && u == Unread(GlobalSpace,
                                     if f.isModule == Some(false) then NotEnumerable else ModuleNessUnreported)
  }

  lemma UnreadAsRouted(locate: Locator, files: seq<FileSurface>, f: FileSurface, text: string, segments: seq<Segment>,
                       u: Unread)
    requires Reads(text, segments) && Route(locate, PathsOf(files), f, text).Some?
    ensures LeavesUnread(locate, files, f, segments, u) <==>
            Route(locate, PathsOf(files), f, text).value.unread == Some(u)
  {
    hide ParseKey, Print, ModuleEvidence, StripTsSuffix, SpecifierCandidates, ResolveSpecifier, Names, TsNamespaceOf;
    var head := segments[0];
    if head.tag == 's' && |segments| > 1 {
      ResolvedKinds(locate, PathsOf(files), f.path, head.text);
      forall space: Namespace
        ensures space.FileSpace? ==>
                  (Names(locate, files, f, head.text, space) <==>
                   ResolveSpecifier(locate, PathsOf(files), f.path, head.text).value == space)
        ensures Names(locate, files, f, head.text, space) ==> space.FileSpace?
      {
        NamesIsResolved(locate, files, f, head.text, space);
      }
    }
  }

  // ----- a whole revision ----------------------------------------------------

  /** The file carries the text as a key with these segments, with this fingerprint. */
  ghost predicate Declares(f: FileSurface, text: string, segments: seq<Segment>, fingerprint: string) {
    Reads(text, segments) && (text, fingerprint) in f.fingerprints
  }

  lemma {:induction false} ItemOfFile(f: FileSurface, n: nat, x: Item)
    requires n <= |f.fingerprints|
    ensures x in ItemsOfFile(f, n) <==> x.file == f && (x.qualname, x.fingerprint) in f.fingerprints[..n]
  {
    if n > 0 {
      ItemOfFile(f, n - 1, x);
      assert f.fingerprints[..n] == f.fingerprints[..n - 1] + [f.fingerprints[n - 1]];
      var last := Item(f, f.fingerprints[n - 1].0, f.fingerprints[n - 1].1);
      assert x == last <==> x.file == f && (x.qualname, x.fingerprint) == f.fingerprints[n - 1];
    }
  }

  lemma {:induction false} ItemOf(files: seq<FileSurface>, x: Item)
    ensures x in Items(files) <==> x.file in files && (x.qualname, x.fingerprint) in x.file.fingerprints
  {
    if files != [] {
      var before, f := files[..|files| - 1], files[|files| - 1];
      ItemOf(before, x);
      ItemOfFile(f, |f.fingerprints|, x);
      assert f.fingerprints[..|f.fingerprints|] == f.fingerprints;
      assert files == before + [f];
    }
  }

  lemma {:induction false} LandedMember(locate: Locator, present: set<string>, items: seq<Item>, key: SymbolKey,
                                        c: Contribution)
    ensures c in LandedAt(locate, present, items, key) <==>
            exists x :: x in items && c == Contribution(x.file.path, x.fingerprint)
              && LandsUnder(locate, present, x, key)
  {
    hide Route;
    if items != [] {
      var before, last := items[..|items| - 1], items[|items| - 1];
      LandedMember(locate, present, before, key, c);
      assert items == before + [last];
    }
  }

  ghost predicate LandsUnder(locate: Locator, present: set<string>, x: Item, key: SymbolKey) {
    var r := Route(locate, present, x.file, x.qualname);
    r.Some? && r.value.Landed? && r.value.key == key
  }

  /** A file contributes this fingerprint to the entry. */
  ghost predicate Contributes(locate: Locator, files: seq<FileSurface>, key: SymbolKey, c: Contribution) {
    exists f, text, segments :: f in files && Declares(f, text, segments, c.fingerprint) && c.path == f.path
      && BelongsTo(locate, files, f, text, segments, key)
  }

  lemma RoutesAll(locate: Locator, files: seq<FileSurface>, x: Item)
    requires Collect(locate, PathsOf(files), Items(files)).Some? && x in Items(files)
    ensures Route(locate, PathsOf(files), x.file, x.qualname).Some?
  {
    CollectExact(locate, PathsOf(files), Items(files));
    hide Items, Route, Collect;
    var i :| 0 <= i < |Items(files)| && Items(files)[i] == x;
  }

  lemma RoutedReads(locate: Locator, present: set<string>, f: FileSurface, text: string)
    requires Route(locate, present, f, text).Some?
    ensures ParseKey(text).Some? && Reads(text, ParseKey(text).value)
  {
    hide ParseKey, Print, OwnNamespace, ResolveSpecifier;
  }

  lemma ItemContributes(locate: Locator, files: seq<FileSurface>, x: Item, key: SymbolKey)
    requires x in Items(files) && LandsUnder(locate, PathsOf(files), x, key)
    ensures Contributes(locate, files, key, Contribution(x.file.path, x.fingerprint))
  {
    ItemOf(files, x);
    RoutedReads(locate, PathsOf(files), x.file, x.qualname);
    var segments := ParseKey(x.qualname).value;
    hide ParseKey, Reads, BelongsTo, Items, Route;
    RoutedWhereItBelongs(locate, files, x.file, x.qualname, segments, key);
    assert Declares(x.file, x.qualname, segments, x.fingerprint);
  }

  /** A revision's entries, exactly: a file's fingerprint is among an entry's contributions if
      and only if the file carries it under a key that belongs to the entry; and there is an
      entry only where somebody contributes. */
  lemma EntriesExact(locate: Locator, files: seq<FileSurface>, attempted: set<string>, s: BranchSurface, key: SymbolKey,
                     c: Contribution)
    requires BuildSurface(locate, files, attempted) == Some(s)
    ensures (key in s.entries && c in s.entries[key]) <==> Contributes(locate, files, key, c)
    ensures key in s.entries ==> s.entries[key] != []
  {
    var present, items := PathsOf(files), Items(files);
    var all := Collect(locate, present, items).value.contributions;
    CollectExact(locate, present, items);
    LandedMember(locate, present, items, key, c);
    ByPathSorts(ContributionsAt(all, key));
    hide Collect, LandedAt, LandsUnder, Route, Items, InputOk, ByPath, Ordered, BelongsTo, Declares;
    if key in all {
      var sorted := ByPath(all[key]);
      assert c in sorted <==> c in multiset(sorted);
      assert c in all[key] <==> c in multiset(all[key]);
      assert multiset(sorted) == multiset(all[key]) && |multiset(sorted)| == |sorted|;
    }
    if x :| x in items && c == Contribution(x.file.path, x.fingerprint) && LandsUnder(locate, present, x, key) {
      ItemContributes(locate, files, x, key);
    }
    if Contributes(locate, files, key, c) {
      var f, text, segments :| f in files && Declares(f, text, segments, c.fingerprint) && c.path == f.path
                               && BelongsTo(locate, files, f, text, segments, key);
      DeclaredLands(locate, files, f, text, segments, c.fingerprint, key);
    }
  }

  lemma DeclaredLands(locate: Locator, files: seq<FileSurface>, f: FileSurface, text: string, segments: seq<Segment>,
                      fingerprint: string, key: SymbolKey)
    requires Collect(locate, PathsOf(files), Items(files)).Some? && f in files
    requires Declares(f, text, segments, fingerprint) && BelongsTo(locate, files, f, text, segments, key)
    ensures var x := Item(f, text, fingerprint); x in Items(files) && LandsUnder(locate, PathsOf(files), x, key)
  {
    ItemOf(files, Item(f, text, fingerprint));
    RoutesAll(locate, files, Item(f, text, fingerprint));
    RoutedWhereItBelongs(locate, files, f, text, segments, key);
    hide Reads, BelongsTo, Items, Route, Collect;
  }

  /** A revision's unread spaces, exactly: those some key of some file leaves unread. */
  lemma UnreadExact(locate: Locator, files: seq<FileSurface>, attempted: set<string>, s: BranchSurface, u: Unread)
    requires BuildSurface(locate, files, attempted) == Some(s)
    ensures u in s.unread <==>
            exists f, text, segments, fingerprint :: f in files && Declares(f, text, segments, fingerprint)
              && LeavesUnread(locate, files, f, segments, u)
  {
    var present, items := PathsOf(files), Items(files);
    CollectExact(locate, present, items);
    hide Collect, Route, Items, InputOk, LeavesUnread, LandedAt;
    if u in s.unread {
      var i :| 0 <= i < |items| && Leaves(locate, present, items[i], u);
      var x := items[i];
      ItemOf(files, x);
      RoutedReads(locate, present, x.file, x.qualname);
      var segments := ParseKey(x.qualname).value;
      UnreadAsRouted(locate, files, x.file, x.qualname, segments, u);
      assert Declares(x.file, x.qualname, segments, x.fingerprint);
    }
    if f, text, segments, fingerprint :| f in files && Declares(f, text, segments, fingerprint)
                                         && LeavesUnread(locate, files, f, segments, u) {
      var x := Item(f, text, fingerprint);
      ItemOf(files, x);
      RoutesAll(locate, files, x);
      UnreadAsRouted(locate, files, f, text, segments, u);
      var i :| 0 <= i < |items| && items[i] == x;
      assert Leaves(locate, present, items[i], u);
    }
  }

  // ----- augmentations -------------------------------------------------------

  /** An augmentation of a module's declaration meets the declaration: both contribute to the
      one entry of that name in the module's space. */
  lemma AugmentationMeets(locate: Locator, files: seq<FileSurface>, attempted: set<string>, s: BranchSurface,
                          f: FileSurface, g: FileSurface, specifier: string, rest: seq<Segment>, x: string, y: string)
    requires BuildSurface(locate, files, attempted) == Some(s) && f in files && g in files
    requires specifier != "" && Printable(rest) && rest[0].tag != 's' && !GlobalHead(rest[0])
    requires (Print([Segment('s', specifier)] + rest), x) in f.fingerprints && (Print(rest), y) in g.fingerprints
    requires IsModule(g) && TsNamespaceOf(g.path).Some?
    requires Names(locate, files, f, specifier, TsNamespaceOf(g.path).value)
    ensures var key := SymbolKey(TsNamespaceOf(g.path).value, Print(rest));
            && key in s.entries
            && Contribution(f.path, x) in s.entries[key] && Contribution(g.path, y) in s.entries[key]
  {
    var key := SymbolKey(TsNamespaceOf(g.path).value, Print(rest));
    var whole := [Segment('s', specifier)] + rest;
    assert Printable(whole);
    PrintedReads(whole);
    PrintedReads(rest);
    assert whole[0] == Segment('s', specifier) && whole[1..] == rest;
    hide Reads, Print, BuildSurface, Names, IsModule, TsNamespaceOf, Printable;
    assert BelongsTo(locate, files, f, Print(whole), whole, key) by { FileSpaceOf(g.path); }
    assert BelongsTo(locate, files, g, Print(rest), rest, key);
    assert Declares(f, Print(whole), whole, x) && Declares(g, Print(rest), rest, y);
    EntriesExact(locate, files, attempted, s, key, Contribution(f.path, x));
    EntriesExact(locate, files, attempted, s, key, Contribution(g.path, y));
  }

  lemma FileSpaceOf(path: string)
    ensures TsNamespaceOf(path).Some? ==> TsNamespaceOf(path).value.FileSpace?
  {
  }

  /** Augmentations of different names never meet. */
  lemma NamesStayApart(space: Namespace, a: seq<Segment>, b: seq<Segment>)
    requires Printable(a) && Printable(b)
    ensures SymbolKey(space, Print(a)) == SymbolKey(space, Print(b)) <==> a == b
  {
    if Print(a) == Print(b) {
      PrintInjective(a, b);
    }
  }

  /** A widening from a new file is reported: a declaration of a module at base, still there at
      head with all its contributions, and augmented at head by a file that contributed nothing
      to it at base, is among the changes of every comparison of the two revisions. */
  lemma AugmentationIsReported(locate: Locator, baseFiles: seq<FileSurface>, headFiles: seq<FileSurface>,
                               baseAttempted: set<string>, headAttempted: set<string>, base: BranchSurface,
                               head: BranchSurface, f: FileSurface, g: FileSurface, specifier: string,
                               rest: seq<Segment>, x: string, y: string, r: Comparison)
    requires BuildSurface(locate, baseFiles, baseAttempted) == Some(base)
    requires BuildSurface(locate, headFiles, headAttempted) == Some(head)
    requires f in headFiles && g in headFiles && specifier != "" && Printable(rest)
    requires rest[0].tag != 's' && !GlobalHead(rest[0])
    requires (Print([Segment('s', specifier)] + rest), x) in f.fingerprints && (Print(rest), y) in g.fingerprints
    requires IsModule(g) && TsNamespaceOf(g.path).Some?
    requires Names(locate, headFiles, f, specifier, TsNamespaceOf(g.path).value)
    requires var key := SymbolKey(TsNamespaceOf(g.path).value, Print(rest));
             && key in base.entries && key in head.entries
             && multiset(base.entries[key]) <= multiset(head.entries[key])
             && forall c :: c in base.entries[key] ==> c.path != f.path
    requires r.unread == base.unread + head.unread
    requires forall k :: k in r.changes <==>
             k in head.entries && !SpaceUnread(r.unread, k.space) && Widens(base, head, k)
    ensures SymbolKey(TsNamespaceOf(g.path).value, Print(rest)) in r.changes
  {
    var key := SymbolKey(TsNamespaceOf(g.path).value, Print(rest));
    AugmentationMeets(locate, headFiles, headAttempted, head, f, g, specifier, rest, x, y);
    FileSpaceOf(g.path);
    EntriesExact(locate, baseFiles, baseAttempted, base, key, Contribution(f.path, x));
    hide Print, Names, IsModule, TsNamespaceOf, Printable, Contributes, Widens;
    NewPath(base, head, key, f.path, x);
    AdditionIsReported(base, head, key);
    FilesAreRead(locate, baseFiles, baseAttempted, base, key.space);
    FilesAreRead(locate, headFiles, headAttempted, head, key.space);
    hide BuildSurface;
  }

  lemma NewPath(base: BranchSurface, head: BranchSurface, key: SymbolKey, path: string, fingerprint: string)
    requires key in base.entries && key in head.entries && Contribution(path, fingerprint) in head.entries[key]
    requires forall c :: c in base.entries[key] ==> c.path != path
    ensures path in NewContributors(base, head, key)
  {
    var y := head.entries[key];
    var i :| 0 <= i < |y| && y[i] == Contribution(path, fingerprint);
    assert path in ContributorsOf(y);
  }

  lemma FilesAreRead(locate: Locator, files: seq<FileSurface>, attempted: set<string>, s: BranchSurface,
                     space: Namespace)
    requires BuildSurface(locate, files, attempted) == Some(s) && space.FileSpace?
    ensures !SpaceUnread(s.unread, space)
  {
    SpacesAccounted(locate, files, attempted);
    hide Collect, Items, InputOk;
  }

  // ----- paths, candidates and evidence --------------------------------------

  const SUFFIXES: seq<string> := [".d.ts", ".tsx", ".ts"]

  /** A TypeScript path is a stem with one of the suffixes; `.d.ts` is never read as `.ts`. */
  ghost predicate PathOf(stem: string, path: string) {
    path == stem + ".d.ts" || path == stem + ".tsx" || (path == stem + ".ts" && !EndsWith(stem, ".d"))
  }

  lemma SuffixIs(path: string, suffix: string)
    ensures EndsWith(path, suffix) <==> |suffix| <= |path| && path == path[..|path| - |suffix|] + suffix
  {
  }

  lemma SplitAt(stem: string, suffix: string)
    ensures EndsWith(stem + suffix, suffix) && (stem + suffix)[..|stem|] == stem
  {
  }

  lemma EndingsApart(stem: string)
    ensures !EndsWith(stem + ".tsx", ".d.ts") && !EndsWith(stem + ".d.ts", ".tsx")
    ensures !EndsWith(stem + ".ts", ".tsx") && !EndsWith(stem + ".tsx", ".ts")
    ensures EndsWith(stem + ".ts", ".d.ts") <==> EndsWith(stem, ".d")
  {
    var a, b, c := stem + ".tsx", stem + ".d.ts", stem + ".ts";
    assert a[|a| - 1] == 'x' && b[|b| - 1] == 's' && c[|c| - 1] == 's';
    assert ".d.ts"[4] == 's' && ".tsx"[3] == 'x' && ".ts"[2] == 's';
    LastChar(a, ".d.ts");
    LastChar(b, ".tsx");
    LastChar(c, ".tsx");
    LastChar(a, ".ts");
    if |stem| >= 2 {
      assert c[|c| - 5..] == stem[|stem| - 2..] + ".ts";
      assert ".d.ts" == ".d" + ".ts";
      if EndsWith(c, ".d.ts") {
        assert stem[|stem| - 2..] == c[|c| - 5..][..2] == ".d.ts"[..2] == ".d";
      }
    }
  }

  lemma LastChar(s: string, suffix: string)
    requires s != "" && suffix != ""
    ensures EndsWith(s, suffix) ==> s[|s| - 1] == suffix[|suffix| - 1]
  {
    if EndsWith(s, suffix) {
      assert s[|s| - |suffix|..][|suffix| - 1] == s[|s| - 1];
    }
  }

  /** Two spellings of one stem name one space, and different stems different ones; a path
      without a suffix, without a stem, absolute or with a backslash names none. */
  lemma SpaceExact(path: string, space: Namespace)
    ensures TsNamespaceOf(path) == Some(space) <==>
            exists stem :: PathOf(stem, path) && space == FileSpace(stem)
              && stem != "" && stem[0] != '/' && '\\' !in stem
  {
    StemExact(path);
    hide StripTsSuffix, PathOf;
    if stem :| PathOf(stem, path) && space == FileSpace(stem) && stem != "" && stem[0] != '/' && '\\' !in stem {
      assert StripTsSuffix(path) == Some(stem);
    }
  }

  lemma StemExact(path: string)
    ensures forall stem :: StripTsSuffix(path) == Some(stem) <==> PathOf(stem, path)
  {
    hide EndsWith;
    SuffixIs(path, ".d.ts");
    SuffixIs(path, ".tsx");
    SuffixIs(path, ".ts");
    forall stem ensures StripTsSuffix(path) == Some(stem) <==> PathOf(stem, path) {
      EndingsApart(stem);
      SplitAt(stem, ".d.ts");
      SplitAt(stem, ".tsx");
      SplitAt(stem, ".ts");
      if EndsWith(path, ".ts") && !EndsWith(path, ".d.ts") {
        EndingsApart(path[..|path| - 3]);
      }
      if EndsWith(path, ".tsx") {
        EndingsApart(path[..|path| - 4]);
      }
    }
  }

  /** The candidates of a specifier that points at `p` are the six files of p's stem, or of `p`
      itself when it has none; one that points nowhere has no candidate. */
  lemma CandidatesExact(locate: Locator, path: string, specifier: string, x: string)
    ensures locate(path, specifier).None? ==> x !in SpecifierCandidates(locate, path, specifier)
    ensures forall p, stem ::
              locate(path, specifier) == Some(p) && stem != ""
                && (PathOf(stem, p) || (stem == p && StripTsSuffix(p).None?)) ==>
              (x in SpecifierCandidates(locate, path, specifier) <==>
               exists i :: 0 <= i < 3 && (x == stem + SUFFIXES[i] || x == stem + "/index" + SUFFIXES[i]))
  {
    if locate(path, specifier).Some? {
      var p := locate(path, specifier).value;
      StemExact(p);
      hide StripTsSuffix, PathOf;
      forall stem | stem != "" && (PathOf(stem, p) || (stem == p && StripTsSuffix(p).None?))
        ensures x in SpecifierCandidates(locate, path, specifier) <==>
                exists i :: 0 <= i < 3 && (x == stem + SUFFIXES[i] || x == stem + "/index" + SUFFIXES[i])
      {
        SixCandidates(locate, path, specifier, stem, x);
      }
    }
  }

  lemma SixCandidates(locate: Locator, path: string, specifier: string, stem: string, x: string)
    requires var p := locate(path, specifier);
             p.Some? && stem != "" && (StripTsSuffix(p.value) == Some(stem)
                                       || (stem == p.value && StripTsSuffix(p.value).None?))
    ensures x in SpecifierCandidates(locate, path, specifier) <==>
            exists i :: 0 <= i < 3 && (x == stem + SUFFIXES[i] || x == stem + "/index" + SUFFIXES[i])
  {
    hide StripTsSuffix;
    var c := SpecifierCandidates(locate, path, specifier);
    assert stem + "/index" + ".d.ts" == stem + "/index.d.ts";
    assert stem + "/index" + ".tsx" == stem + "/index.tsx";
    assert stem + "/index" + ".ts" == stem + "/index.ts";
    assert SUFFIXES[0] == ".d.ts" && SUFFIXES[1] == ".tsx" && SUFFIXES[2] == ".ts";
    assert c[0] == stem + ".d.ts" && c[1] == stem + ".tsx" && c[2] == stem + ".ts";
    assert c[3] == stem + "/index.d.ts" && c[4] == stem + "/index.tsx" && c[5] == stem + "/index.ts";
    if x in c {
      var k :| 0 <= k < 6 && c[k] == x;
      assert x == if k < 3 then stem + SUFFIXES[k] else stem + "/index" + SUFFIXES[k - 3];
    }
    if i :| 0 <= i < 3 && (x == stem + SUFFIXES[i] || x == stem + "/index" + SUFFIXES[i]) {
      assert x == c[i] || x == c[i + 3];
    }
  }

  /** A file is proved a module by a key that begins with the keyword `export` or `default`, or
      with an augmentation of a relative specifier, and by nothing else. */
  lemma EvidenceExact(f: FileSurface)
    ensures ModuleEvidence(f) <==>
            exists i, segments: seq<Segment> :: 0 <= i < |f.fingerprints| && Reads(f.fingerprints[i].0, segments)
              && (segments[0] == Segment('k', "export") || segments[0] == Segment('k', "default")
                  || (segments[0].tag == 's' && "." <= segments[0].text))
  {
    hide ParseKey;
    forall s: Segment
      ensures Evidence(s) <==>
              s == Segment('k', "export") || s == Segment('k', "default") || (s.tag == 's' && "." <= s.text)
    {
    }
    if ModuleEvidence(f) {
      var i :| 0 <= i < |f.fingerprints| && ParseKey(f.fingerprints[i].0).Some?
               && ParseKey(f.fingerprints[i].0).value != [] && Evidence(ParseKey(f.fingerprints[i].0).value[0]);
      assert Reads(f.fingerprints[i].0, ParseKey(f.fingerprints[i].0).value);
    }
  }

  // ----- refusals ------------------------------------------------------------

  /** Some file present is a candidate of the specifier although no space has its path. */
  ghost predicate NamesRefused(locate: Locator, files: seq<FileSurface>, f: FileSurface, specifier: string) {
    exists g :: g in files && g.path in SpecifierCandidates(locate, f.path, specifier) && TsNamespaceOf(g.path).None?
  }

  /** A key the routing cannot place: it does not read, or augments a refused path. */
  ghost predicate Unplaceable(locate: Locator, files: seq<FileSurface>, f: FileSurface, text: string) {
    || (forall segments :: !Reads(text, segments))
    || exists segments: seq<Segment> :: Reads(text, segments) && segments[0].tag == 's' && |segments| > 1
                          && NamesRefused(locate, files, f, segments[0].text)
  }

  /** A file the build refuses by itself. */
  predicate BadFile(f: FileSurface, attempted: set<string>) {
    !f.language.TypeScript? || f.path !in attempted || (IsModule(f) && TsNamespaceOf(f.path).None?)
  }

  /** A revision is refused exactly for a caller's bug: a file of a language that does not merge,
      one not attempted, a module whose path names no space, one path given twice, or a key
      that cannot be placed. */
  lemma BuildRefusedExact(locate: Locator, files: seq<FileSurface>, attempted: set<string>)
    ensures BuildSurface(locate, files, attempted).None? <==>
            || (exists f :: f in files && BadFile(f, attempted))
            || (exists i, j :: 0 <= i < j < |files| && files[i].path == files[j].path)
            || exists f, text, fingerprint ::
               f in files && (text, fingerprint) in f.fingerprints && Unplaceable(locate, files, f, text)
  {
    var present, items := PathsOf(files), Items(files);
    InputExact(files, attempted);
    hide InputOk, BadFile, Route, Items, Unplaceable, Collect;
    if InputOk(files, attempted) {
      CollectFails(locate, present, items);
      forall x | x in items
        ensures x.file in files && (x.qualname, x.fingerprint) in x.file.fingerprints
        ensures Route(locate, present, x.file, x.qualname).None? <==> Unplaceable(locate, files, x.file, x.qualname)
      {
        ItemOf(files, x);
        PlacedExact(locate, files, attempted, x.file, x.qualname);
      }
      if f, text, fingerprint :|
           f in files && (text, fingerprint) in f.fingerprints && Unplaceable(locate, files, f, text) {
        ItemOf(files, Item(f, text, fingerprint));
        assert Item(f, text, fingerprint) in items;
      }
    }
  }

  lemma InputExact(files: seq<FileSurface>, attempted: set<string>)
    ensures InputOk(files, attempted) <==>
            && (forall f :: f in files ==> !BadFile(f, attempted))
            && (forall i, j :: 0 <= i < j < |files| ==> files[i].path != files[j].path)
  {
    hide TsNamespaceOf, ModuleEvidence;
    forall f: FileSurface ensures OwnNamespace(f).None? <==> IsModule(f) && TsNamespaceOf(f.path).None? {
    }
    if forall f :: f in files ==> !BadFile(f, attempted) {
      forall i | 0 <= i < |files|
        ensures files[i].language.TypeScript? && files[i].path in attempted && OwnNamespace(files[i]).Some?
      {
        assert files[i] in files && !BadFile(files[i], attempted);
      }
    }
    hide OwnNamespace, IsModule;
  }

  lemma {:induction false} CollectFails(locate: Locator, present: set<string>, items: seq<Item>)
    ensures Collect(locate, present, items).None? <==>
            exists x :: x in items && Route(locate, present, x.file, x.qualname).None?
  {
    hide Route;
    if items != [] {
      CollectFails(locate, present, items[..|items| - 1]);
      assert items == items[..|items| - 1] + [items[|items| - 1]];
    }
  }

  lemma PlacedExact(locate: Locator, files: seq<FileSurface>, attempted: set<string>, f: FileSurface, text: string)
    requires InputOk(files, attempted) && f in files
    ensures Route(locate, PathsOf(files), f, text).None? <==> Unplaceable(locate, files, f, text)
  {
    assert OwnNamespace(f).Some?;
    if ParseKey(text).Some? && ParseKey(text).value != [] {
      assert Reads(text, ParseKey(text).value);
      RefusedExact(locate, files, f, ParseKey(text).value[0].text);
    }
    hide ParseKey, Print, OwnNamespace, ResolveSpecifier, NamesRefused, InputOk;
  }

  lemma RefusedExact(locate: Locator, files: seq<FileSurface>, f: FileSurface, specifier: string)
    ensures ResolveSpecifier(locate, PathsOf(files), f.path, specifier).None? <==>
            NamesRefused(locate, files, f, specifier)
  {
    hide SpecifierCandidates, TsNamespaceOf;
    var candidates, present := SpecifierCandidates(locate, f.path, specifier), PathsOf(files);
    if NamesRefused(locate, files, f, specifier) {
      var g :| g in files && g.path in candidates && TsNamespaceOf(g.path).None?;
      var i :| 0 <= i < |candidates| && candidates[i] == g.path;
      assert candidates[i] in present;
    }
    if i :| 0 <= i < |candidates| && candidates[i] in present && TsNamespaceOf(candidates[i]).None? {
      var k :| 0 <= k < |files| && files[k].path == candidates[i];
      assert files[k] in files;
    }
  }
}
