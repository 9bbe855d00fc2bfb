/** Merged declaration spaces: routing every key of one revision, and comparing two. */
module Surface {
  import opened Wrappers
  import opened Keys

  datatype Language = Python | Go | TypeScript

  /** One declaration space. Only TypeScript merges across files, so spaces are its own. */
  datatype Namespace = FileSpace(name: string) | GlobalSpace | UnresolvedSpace(specifier: string)

  datatype SymbolKey = SymbolKey(space: Namespace, qualname: string)

  /** One file's fingerprints. `isModule` is None when no comparator reported it. */
  datatype FileSurface = FileSurface(path: string, language: Language, fingerprints: seq<(string, string)>,
                                     isModule: Option<bool>)

  datatype Contribution = Contribution(path: string, fingerprint: string)

  datatype UnreadReason = NotEnumerable | UnresolvedSpecifier | NotAttempted | ModuleNessUnreported

  datatype Unread = Unread(space: Namespace, reason: UnreadReason)

  datatype BranchSurface = BranchSurface(
    entries: map<SymbolKey, seq<Contribution>>,
    attempted: set<string>,
    unread: set<Unread>)

  // ----- paths and spaces ----------------------------------------------------

  predicate EndsWith(s: string, suffix: string) {
    |suffix| <= |s| && s[|s| - |suffix|..] == suffix
  }

  /** Longest first: `.d.ts` is stripped before `.ts`. */
  function StripTsSuffix(path: string): Option<string> {
    if EndsWith(path, ".d.ts") then Some(path[..|path| - 5])
    else if EndsWith(path, ".tsx") then Some(path[..|path| - 4])
    else if EndsWith(path, ".ts") then Some(path[..|path| - 3])
    else None
  }

  /** The file space of a path; None where the source refuses it. */
  function TsNamespaceOf(path: string): Option<Namespace> {
    var stem := StripTsSuffix(path);
    if stem.None? || stem.value == "" || stem.value[0] == '/' || '\\' in stem.value then None
    else Some(FileSpace(stem.value))
  }

  /** Where a specifier written in a file points: the joined, normalised path, or None when
      it is not relative or leaves the repository. */
  type Locator = (string, string) -> Option<string>

  function SpecifierCandidates(locate: Locator, path: string, specifier: string): seq<string> {
    var joined := locate(path, specifier);
    if joined.None? then []
    else
      var stripped := StripTsSuffix(joined.value);
      var stem := if stripped.Some? && stripped.value != "" then stripped.value else joined.value;
      [stem + ".d.ts", stem + ".tsx", stem + ".ts", stem + "/index.d.ts", stem + "/index.tsx", stem + "/index.ts"]
  }

  // ----- routing -------------------------------------------------------------

  predicate Evidence(s: Segment) {
    (s.tag == 'k' && s.text in {"export", "default"}) || (s.tag == 's' && s.text != "" && s.text[0] == '.')
  }

  /** The file's own keys prove it is an external module. */
  predicate ModuleEvidence(f: FileSurface) {
    exists i :: 0 <= i < |f.fingerprints| && ParseKey(f.fingerprints[i].0).Some?
      && ParseKey(f.fingerprints[i].0).value != []
                && Evidence(ParseKey(f.fingerprints[i].0).value[0])
  }

  /** Where the file's own declarations land, and why that space is unread if it is. */
  function OwnNamespace(f: FileSurface): Option<(Namespace, Option<UnreadReason>)> {
    if f.isModule == Some(true) || ModuleEvidence(f) then
      var space := TsNamespaceOf(f.path);
      if space.Some? then Some((space.value, None)) else None
    else if f.isModule == Some(false) then Some((GlobalSpace, Some(NotEnumerable)))
    else Some((GlobalSpace, Some(ModuleNessUnreported)))
  }

  function SpacesOf(candidates: seq<string>, present: set<string>): set<Namespace> {
    set i | 0 <= i < |candidates| && candidates[i] in present && TsNamespaceOf(candidates[i]).Some? ::
      TsNamespaceOf(candidates[i]).value
  }

  /** The one space the specifier names among the files present, or the unresolved space;
      None where a present candidate is itself refused. */
  function ResolveSpecifier(locate: Locator, present: set<string>, path: string, specifier: string): Option<Namespace> {
    var candidates := SpecifierCandidates(locate, path, specifier);
    if exists i :: 0 <= i < |candidates| && candidates[i] in present && TsNamespaceOf(candidates[i]).None? then None
    else
      var spaces := SpacesOf(candidates, present);
      if |spaces| == 1 then Some(TheOnly(spaces)) else Some(UnresolvedSpace(specifier))
  }

  function TheOnly(spaces: set<Namespace>): (space: Namespace)
    requires |spaces| == 1
    ensures space in spaces
  {
    var x :| x in spaces;
    OnlyOne(spaces);
    x
  }

  lemma OnlyOne(spaces: set<Namespace>)
    requires |spaces| == 1
    ensures forall x, y :: x in spaces && y in spaces ==> x == y
  {
    var z :| z in spaces;
    assert |spaces - {z}| == 0;
    assert spaces == (spaces - {z}) + {z};
  }

  /** Where one key goes: to a space under a name, or nowhere; and what it leaves unread. */
  datatype Routed = Landed(key: SymbolKey, unread: Option<Unread>) | Dropped(unread: Option<Unread>)

  function Route(locate: Locator, present: set<string>, f: FileSurface, qualname: string): Option<Routed> {
    var own := OwnNamespace(f);
    var parsed := ParseKey(qualname);
    if own.None? || parsed.None? || parsed.value == [] then None
    else
      var (head, rest) := (parsed.value[0], parsed.value[1..]);
      if head.tag == 's' then
        if rest == [] then Some(Dropped(None))
        else
          var space := ResolveSpecifier(locate, present, f.path, head.text);
          if space.None? then None
          else
            Some(Landed(SymbolKey(space.value, Print(rest)),
                        if space.value.UnresolvedSpace? then Some(Unread(space.value, UnresolvedSpecifier)) else None))
      else if head.tag == 'k' && head.text == "global" then
        var touched := Some(Unread(GlobalSpace, NotEnumerable));
        if rest == [] then Some(Dropped(touched)) else Some(Landed(SymbolKey(GlobalSpace, Print(rest)), touched))
      else
        var (space, reason) := own.value;
        Some(Landed(SymbolKey(space, qualname), if reason.Some? then Some(Unread(space, reason.value)) else None))
  }

  // ----- one revision, flattened ---------------------------------------------

  /** One fingerprint of one file, in the order the loops meet them. */
  datatype Item = Item(file: FileSurface, qualname: string, fingerprint: string)

  function ItemsOfFile(f: FileSurface, n: nat): seq<Item>
    requires n <= |f.fingerprints|
  {
    if n == 0 then [] else ItemsOfFile(f, n - 1) + [Item(f, f.fingerprints[n - 1].0, f.fingerprints[n - 1].1)]
  }

  function Items(files: seq<FileSurface>): seq<Item> {
    if files == [] then []
    else
      var f := files[|files| - 1];
      Items(files[..|files| - 1]) + ItemsOfFile(f, |f.fingerprints|)
  }

  function PathsOf(files: seq<FileSurface>): set<string> {
    set i | 0 <= i < |files| :: files[i].path
  }

  /** The inputs the source refuses outright. */
  predicate InputOk(files: seq<FileSurface>, attempted: set<string>) {
    && (forall i :: 0 <= i < |files| ==>
        files[i].language.TypeScript? && files[i].path in attempted && OwnNamespace(files[i]).Some?)
    && (forall i, j :: 0 <= i < j < |files| ==> files[i].path != files[j].path)
  }

  /** What one revision's items amount to so far. */
  datatype Collected = Collected(contributions: map<SymbolKey, seq<Contribution>>, unread: set<Unread>)

  function ContributionsAt(c: map<SymbolKey, seq<Contribution>>, key: SymbolKey): seq<Contribution> {
    if key in c then c[key] else []
  }

  function Touch(unread: Option<Unread>): set<Unread> {
    if unread.Some? then {unread.value} else {}
  }

  function CollectOne(c: Collected, x: Item, r: Routed): Collected {
    match r
    case Dropped(unread) => c.(unread := c.unread + Touch(unread))
    case Landed(key, unread) =>
      Collected(c.contributions[key := ContributionsAt(c.contributions, key)
                                + [Contribution(x.file.path, x.fingerprint)]],
                c.unread + Touch(unread))
  }

  function Collect(locate: Locator, present: set<string>, items: seq<Item>): Option<Collected> {
    if items == [] then Some(Collected(map[], {}))
    else
      var x := items[|items| - 1];
      var before, r := Collect(locate, present, items[..|items| - 1]), Route(locate, present, x.file, x.qualname);
      if before.None? || r.None? then None else Some(CollectOne(before.value, x, r.value))
  }

  // ----- contributions in path order -----------------------------------------

  predicate PathLess(a: string, b: string) {
    if b == "" then false
    else if a == "" then true
    else if a[0] != b[0] then a[0] < b[0]
    else PathLess(a[1..], b[1..])
  }

  /** Stable insertion: after every contribution whose path is not greater. */
  function InsertByPath(sorted: seq<Contribution>, c: Contribution): seq<Contribution> {
    if sorted == [] || !PathLess(c.path, sorted[|sorted| - 1].path) then sorted + [c]
    else InsertByPath(sorted[..|sorted| - 1], c) + [sorted[|sorted| - 1]]
  }

  function ByPath(found: seq<Contribution>): seq<Contribution> {
    if found == [] then [] else InsertByPath(ByPath(found[..|found| - 1]), found[|found| - 1])
  }

  /** The one fingerprint a merged key has. */
  function Merged(sorted: seq<Contribution>): string {
    if sorted == [] then ""
    else if |sorted| == 1 then sorted[0].fingerprint
    else Merged(sorted[..|sorted| - 1]) + " + " + sorted[|sorted| - 1].fingerprint
  }

  function ContributorsOf(found: seq<Contribution>): set<string> {
    set i | 0 <= i < |found| :: found[i].path
  }

  function BuildSurface(locate: Locator, files: seq<FileSurface>, attempted: set<string>): Option<BranchSurface> {
    if !InputOk(files, attempted) then None
    else
      var c := Collect(locate, PathsOf(files), Items(files));
      if c.None? then None
      else Some(BranchSurface(map k | k in c.value.contributions :: ByPath(c.value.contributions[k]), attempted,
                              c.value.unread))
  }

  /** Whether some attempted path names a file space. */
  predicate NamespaceIsRead(attempted: set<string>, space: Namespace) {
    space.FileSpace? && exists p :: p in attempted && StripTsSuffix(p) == Some(space.name)
  }

  // ----- every landed file space was attempted -------------------------------

  /** A key lands in a file space only when some attempted file names that space, so no
      space is ever unread for not having been attempted. */
  lemma LandsWhereAttempted(locate: Locator, files: seq<FileSurface>, attempted: set<string>, f: FileSurface,
                            qualname: string)
    requires InputOk(files, attempted) && f in files && Route(locate, PathsOf(files), f, qualname).Some?
    ensures var r := Route(locate, PathsOf(files), f, qualname).value;
            r.Landed? ==>
              && (r.key.space.FileSpace? <==> r.unread.None?)
              && (r.key.space.FileSpace? ==> NamespaceIsRead(attempted, r.key.space))
              && (r.unread.Some? ==> r.unread.value.space == r.key.space && !r.unread.value.reason.NotAttempted?)
  {
    hide ParseKey, Print, ModuleEvidence, StripTsSuffix, SpecifierCandidates, Keys.Printable;
    var r := Route(locate, PathsOf(files), f, qualname).value;
    assert f.path in PathsOf(files) && f.path in attempted;
    if r.Landed? && r.key.space.FileSpace? && ParseKey(qualname).value[0].tag == 's' {
      ResolvedIsRead(locate, files, attempted, f.path, ParseKey(qualname).value[0].text);
    }
  }

  lemma ResolvedIsRead(locate: Locator, files: seq<FileSurface>, attempted: set<string>, path: string,
                       specifier: string)
    requires InputOk(files, attempted) && ResolveSpecifier(locate, PathsOf(files), path, specifier).Some?
    ensures var space := ResolveSpecifier(locate, PathsOf(files), path, specifier).value;
            space.UnresolvedSpace? || NamespaceIsRead(attempted, space)
  {
    hide StripTsSuffix, SpecifierCandidates, OwnNamespace;
    var candidates := SpecifierCandidates(locate, path, specifier);
    var space := ResolveSpecifier(locate, PathsOf(files), path, specifier).value;
    var spaces := SpacesOf(candidates, PathsOf(files));
    if |spaces| == 1 {
      var i :| 0 <= i < |candidates| && candidates[i] in PathsOf(files) && TsNamespaceOf(candidates[i]) == Some(space);
      var j :| 0 <= j < |files| && files[j].path == candidates[i];
    }
  }

  lemma AllInSpace(spaces: set<Namespace>, x: Namespace)
    ensures spaces == {x} <==> |spaces| == 1 && x in spaces
  {
    if |spaces| == 1 && x in spaces {
      OnlyOne(spaces);
    }
  }

  /** A specifier resolves to a file space exactly when some candidate file is present and
      every present candidate names that space: neither of two spellings is ever preferred. */
  lemma ResolvedExact(locate: Locator, present: set<string>, path: string, specifier: string, space: Namespace)
    requires ResolveSpecifier(locate, present, path, specifier).Some? && space.FileSpace?
    ensures var candidates := SpecifierCandidates(locate, path, specifier);
            ResolveSpecifier(locate, present, path, specifier).value == space <==>
            && (exists i :: 0 <= i < |candidates| && candidates[i] in present)
            && (forall i :: 0 <= i < |candidates| && candidates[i] in present ==>
                TsNamespaceOf(candidates[i]) == Some(space))
  {
    hide SpecifierCandidates, StripTsSuffix;
    var candidates := SpecifierCandidates(locate, path, specifier);
    var spaces := SpacesOf(candidates, present);
    AllInSpace(spaces, space);
    forall i | 0 <= i < |candidates| && candidates[i] in present ensures TsNamespaceOf(candidates[i]).value in spaces {
      assert TsNamespaceOf(candidates[i]).Some?;
    }
    if spaces == {space} {
      assert space in spaces;
    }
  }

  // ----- what the collection holds -------------------------------------------

  /** The items that landed under a key, as contributions, in order. */
  function LandedAt(locate: Locator, present: set<string>, items: seq<Item>, key: SymbolKey): seq<Contribution> {
    if items == [] then []
    else
      var x := items[|items| - 1];
      var r := Route(locate, present, x.file, x.qualname);
      LandedAt(locate, present, items[..|items| - 1], key)
      + if r.Some? && r.value.Landed? && r.value.key == key then [Contribution(x.file.path, x.fingerprint)] else []
  }

  predicate Leaves(locate: Locator, present: set<string>, x: Item, u: Unread) {
    var r := Route(locate, present, x.file, x.qualname);
    r.Some? && r.value.unread == Some(u)
  }

  lemma {:induction false} CollectedUnread(locate: Locator, present: set<string>, items: seq<Item>, u: Unread)
    requires Collect(locate, present, items).Some?
    ensures u in Collect(locate, present, items).value.unread <==>
            exists i :: 0 <= i < |items| && Leaves(locate, present, items[i], u)
  {
    hide Route;
    if items != [] {
      var before, x := items[..|items| - 1], items[|items| - 1];
      CollectedUnread(locate, present, before, u);
      var r := Route(locate, present, x.file, x.qualname).value;
      assert Leaves(locate, present, x, u) <==> u in Touch(r.unread);
      if u in Collect(locate, present, before).value.unread {
        var i :| 0 <= i < |before| && Leaves(locate, present, before[i], u);
        assert Leaves(locate, present, items[i], u);
      }
      hide Leaves;
      assert forall i :: 0 <= i < |before| ==> before[i] == items[i];
    }
  }

  lemma {:induction false} CollectedAt(locate: Locator, present: set<string>, items: seq<Item>, k: SymbolKey)
    requires Collect(locate, present, items).Some?
    ensures var c := Collect(locate, present, items).value.contributions;
            ContributionsAt(c, k) == LandedAt(locate, present, items, k) && (k in c ==> c[k] != [])
  {
    hide Route;
    if items != [] {
      CollectedAt(locate, present, items[..|items| - 1], k);
    }
  }

  /** Totality: a key's contributions are exactly the items routed to it, and a space is
      unread exactly when some item left it so. */
  lemma CollectExact(locate: Locator, present: set<string>, items: seq<Item>)
    requires Collect(locate, present, items).Some?
    ensures var c := Collect(locate, present, items).value;
            && (forall k :: ContributionsAt(c.contributions, k) == LandedAt(locate, present, items, k))
            && (forall k :: k in c.contributions ==> c.contributions[k] != [])
            && (forall u :: u in c.unread <==> exists i :: 0 <= i < |items| && Leaves(locate, present, items[i], u))
    ensures forall i :: 0 <= i < |items| ==> Route(locate, present, items[i].file, items[i].qualname).Some?
  {
    hide Route, Collect, LandedAt, Leaves, ContributionsAt;
    var c := Collect(locate, present, items).value;
    forall k ensures ContributionsAt(c.contributions, k) == LandedAt(locate, present, items, k)
             ensures k in c.contributions ==> c.contributions[k] != []
    {
      CollectedAt(locate, present, items, k);
    }
    forall u ensures u in c.unread <==> exists i :: 0 <= i < |items| && Leaves(locate, present, items[i], u) {
      CollectedUnread(locate, present, items, u);
    }
    forall i | 0 <= i < |items| ensures Route(locate, present, items[i].file, items[i].qualname).Some? {
      CollectedRoutes(locate, present, items, i);
    }
  }

  lemma {:induction false} CollectedRoutes(locate: Locator, present: set<string>, items: seq<Item>, i: nat)
    requires Collect(locate, present, items).Some? && i < |items|
    ensures Route(locate, present, items[i].file, items[i].qualname).Some?
  {
    hide Route, CollectOne;
    if i < |items| - 1 {
      CollectedRoutes(locate, present, items[..|items| - 1], i);
    }
  }

  lemma {:induction false} LandedKey(locate: Locator, present: set<string>, items: seq<Item>, key: SymbolKey)
    returns (i: nat)
    requires LandedAt(locate, present, items, key) != []
    ensures i < |items|
    ensures var r := Route(locate, present, items[i].file, items[i].qualname);
            r.Some? && r.value.Landed? && r.value.key == key
  {
    hide Route;
    var x := items[|items| - 1];
    var r := Route(locate, present, x.file, x.qualname);
    if r.Some? && r.value.Landed? && r.value.key == key {
      i := |items| - 1;
    } else {
      i := LandedKey(locate, present, items[..|items| - 1], key);
    }
  }

  lemma {:induction false} ItemsAreOfFiles(files: seq<FileSurface>)
    ensures forall i :: 0 <= i < |Items(files)| ==> Items(files)[i].file in files
  {
    if files != [] {
      var f := files[|files| - 1];
      ItemsAreOfFiles(files[..|files| - 1]);
      ItemsAreOfFile(f, |f.fingerprints|);
    }
  }

  lemma {:induction false} ItemsAreOfFile(f: FileSurface, n: nat)
    requires n <= |f.fingerprints|
    ensures forall i :: 0 <= i < |ItemsOfFile(f, n)| ==> ItemsOfFile(f, n)[i].file == f
  {
    if n > 0 {
      ItemsAreOfFile(f, n - 1);
    }
  }

  /** Every space a key landed in is an attempted file space or was recorded unread, and
      none was recorded for not having been attempted. */
  lemma SpacesAccounted(locate: Locator, files: seq<FileSurface>, attempted: set<string>)
    requires InputOk(files, attempted) && Collect(locate, PathsOf(files), Items(files)).Some?
    ensures var c := Collect(locate, PathsOf(files), Items(files)).value;
            && (forall k :: k in c.contributions ==>
                  (k.space.FileSpace? ==> NamespaceIsRead(attempted, k.space)) &&
                  (!k.space.FileSpace? ==> exists u :: u in c.unread && u.space == k.space))
            && (forall u :: u in c.unread ==> !u.reason.NotAttempted? && !u.space.FileSpace?)
  {
    hide Route, Collect, LandedAt, InputOk, NamespaceIsRead;
    var present, items := PathsOf(files), Items(files);
    var c := Collect(locate, present, items).value;
    CollectExact(locate, present, items);
    ItemsAreOfFiles(files);
    forall k | k in c.contributions
      ensures k.space.FileSpace? ==> NamespaceIsRead(attempted, k.space)
      ensures !k.space.FileSpace? ==> exists u :: u in c.unread && u.space == k.space
    {
      assert ContributionsAt(c.contributions, k) == LandedAt(locate, present, items, k) != [];
      var i := LandedKey(locate, present, items, k);
      LandsWhereAttempted(locate, files, attempted, items[i].file, items[i].qualname);
      if !k.space.FileSpace? {
        var u := Route(locate, present, items[i].file, items[i].qualname).value.unread.value;
        assert Leaves(locate, present, items[i], u);
        assert u in c.unread;
      }
    }
    forall u | u in c.unread ensures !u.reason.NotAttempted? && !u.space.FileSpace? {
      var i :| 0 <= i < |items| && Leaves(locate, present, items[i], u);
      UnreadIsNotAFile(locate, files, attempted, items[i].file, items[i].qualname);
    }
  }

  lemma UnreadIsNotAFile(locate: Locator, files: seq<FileSurface>, attempted: set<string>, f: FileSurface,
                         qualname: string)
    requires InputOk(files, attempted) && f in files && Route(locate, PathsOf(files), f, qualname).Some?
    ensures var u := Route(locate, PathsOf(files), f, qualname).value.unread;
            u.Some? ==> !u.value.reason.NotAttempted? && !u.value.space.FileSpace?
  {
    hide ParseKey, Print, ModuleEvidence, StripTsSuffix, SpecifierCandidates, Keys.Printable;
  }

  // ----- building as loops ---------------------------------------------------

  lemma {:induction false} CollectPrefix(locate: Locator, present: set<string>, xs: seq<Item>, ys: seq<Item>)
    requires Collect(locate, present, xs).None?
    ensures Collect(locate, present, xs + ys).None?
  {
    hide Route;
    if ys == [] {
      assert xs + ys == xs;
    } else {
      assert (xs + ys)[..|xs + ys| - 1] == xs + ys[..|ys| - 1];
      CollectPrefix(locate, present, xs, ys[..|ys| - 1]);
    }
  }

  lemma {:induction false} ItemsPrefix(files: seq<FileSurface>, i: nat, j: nat) returns (rest: seq<Item>)
    requires i < |files| && j <= |files[i].fingerprints|
    ensures Items(files) == (Items(files[..i]) + ItemsOfFile(files[i], j)) + rest
    decreases |files|
  {
    var last := files[|files| - 1];
    var n := |files| - 1;
    if i == n {
      var tail := ItemsOfFilePrefix(last, j, |last.fingerprints|);
      rest := tail;
      assert files[..i] == files[..n];
    } else {
      var inner := ItemsPrefix(files[..n], i, j);
      assert files[..n][..i] == files[..i];
      rest := inner + ItemsOfFile(last, |last.fingerprints|);
    }
  }

  lemma {:induction false} ItemsOfFilePrefix(f: FileSurface, j: nat, n: nat) returns (rest: seq<Item>)
    requires j <= n <= |f.fingerprints|
    ensures ItemsOfFile(f, n) == ItemsOfFile(f, j) + rest
    decreases n
  {
    if j == n {
      rest := [];
    } else {
      var inner := ItemsOfFilePrefix(f, j, n - 1);
      rest := inner + [Item(f, f.fingerprints[n - 1].0, f.fingerprints[n - 1].1)];
    }
  }

  lemma CollectSnoc(locate: Locator, present: set<string>, items: seq<Item>, x: Item)
    ensures Collect(locate, present, items + [x]) ==
            var before, r := Collect(locate, present, items), Route(locate, present, x.file, x.qualname);
            if before.None? || r.None? then None else Some(CollectOne(before.value, x, r.value))
  {
    hide Route;
    assert (items + [x])[..|items|] == items;
  }

  /** The caller bugs the source refuses before it routes anything. */
  method CheckInput(files: seq<FileSurface>, attempted: set<string>) returns (ok: bool, present: set<string>)
    ensures ok ==> present == PathsOf(files)
    ensures ok <==> (forall i :: 0 <= i < |files| ==> files[i].language.TypeScript? && files[i].path in attempted)
                    && (forall i, j :: 0 <= i < j < |files| ==> files[i].path != files[j].path)
  {
    present := {};
    for i := 0 to |files|
      invariant present == PathsOf(files[..i])
      invariant forall k :: 0 <= k < i ==> files[k].language.TypeScript? && files[k].path in attempted
      invariant forall j, k :: 0 <= j < k < i ==> files[j].path != files[k].path
    {
      var f := files[i];
      if !f.language.TypeScript? || f.path !in attempted {
        return false, present;
      }
      if f.path in present {
        var j :| 0 <= j < i && files[..i][j].path == f.path;
        return false, present;
      }
      present := present + {f.path};
      PathsSnoc(files[..i], f);
      assert files[..i + 1] == files[..i] + [f];
    }
    assert files[..|files|] == files;
    return true, present;
  }

  lemma PathsSnoc(files: seq<FileSurface>, f: FileSurface)
    ensures PathsOf(files + [f]) == PathsOf(files) + {f.path}
  {
    var all := files + [f];
    assert all[|files|] == f;
    forall p | p in PathsOf(files) ensures p in PathsOf(all) {
      var i :| 0 <= i < |files| && files[i].path == p;
      assert all[i] == files[i];
    }
  }

  /** Route every key of one file. */
  method RouteFile(locate: Locator, present: set<string>, ghost files: seq<FileSurface>, ghost i: nat, f: FileSurface,
                   c: Collected)
    returns (r: Option<Collected>)
    requires i < |files| && files[i] == f && Collect(locate, present, Items(files[..i])) == Some(c)
    ensures r.Some? ==> Collect(locate, present, Items(files[..i + 1])) == r
    ensures r.None? ==> Collect(locate, present, Items(files)).None?
  {
    hide Route, Collect;
    var now := c;
    assert Items(files[..i]) + ItemsOfFile(f, 0) == Items(files[..i]);
    for j := 0 to |f.fingerprints|
      invariant Collect(locate, present, Items(files[..i]) + ItemsOfFile(f, j)) == Some(now)
    {
      var (qualname, fingerprint) := f.fingerprints[j];
      var x := Item(f, qualname, fingerprint);
      ghost var before := Items(files[..i]) + ItemsOfFile(f, j);
      assert Items(files[..i]) + ItemsOfFile(f, j + 1) == before + [x];
      CollectSnoc(locate, present, before, x);
      var routed := Route(locate, present, f, qualname);
      if routed.None? {
        ghost var rest := ItemsPrefix(files, i, j + 1);
        CollectPrefix(locate, present, before + [x], rest);
        return None;
      }
      now := CollectOne(now, x, routed.value);
    }
    assert files[..i + 1][..i] == files[..i] && files[..i + 1][i] == f;
    return Some(now);
  }

  /** One revision's surface, file by file and key by key. */
  method BuildSurfaceLoop(locate: Locator, files: seq<FileSurface>, attempted: set<string>)
    returns (r: Option<BranchSurface>)
    ensures r == BuildSurface(locate, files, attempted)
  {
    hide Route, Collect, Items, OwnNamespace, NamespaceIsRead;
    var ok, present := CheckInput(files, attempted);
    if !ok {
      return None;
    }
    var c := Collected(map[], {});
    NothingCollected(locate, present);
    assert files[..0] == [];
    for i := 0 to |files|
      invariant forall k :: 0 <= k < i ==> OwnNamespace(files[k]).Some?
      invariant Collect(locate, present, Items(files[..i])) == Some(c)
    {
      if OwnNamespace(files[i]).None? {
        return None;
      }
      var next := RouteFile(locate, present, files, i, files[i], c);
      if next.None? {
        return None;
      }
      c := next.value;
    }
    assert files[..|files|] == files;
    var entries := map k | k in c.contributions :: ByPath(c.contributions[k]);
    var unread, rest := c.unread, entries.Keys;
    SpacesAccounted(locate, files, attempted);
    while rest != {}
      invariant rest <= entries.Keys && unread == c.unread
    {
      var key :| key in rest;
      rest := rest - {key};
      if key.space.FileSpace? && !NamespaceIsRead(attempted, key.space) {
        unread := unread + {Unread(key.space, NotAttempted)};
      }
    }
    return Some(BranchSurface(entries, attempted, unread));
  }

  lemma NothingCollected(locate: Locator, present: set<string>)
    ensures Collect(locate, present, Items([])) == Some(Collected(map[], {}))
  {
  }

  // ----- comparing two revisions ---------------------------------------------

  datatype SurfaceChange = SurfaceChange(before: string, after: string, introducedBy: set<string>)

  datatype Comparison = Comparison(changes: map<SymbolKey, SurfaceChange>, unread: set<Unread>) {
    predicate Clean() {
      changes == map[] && unread == {}
    }
  }

  function NewContributors(base: BranchSurface, head: BranchSurface, key: SymbolKey): set<string>
    requires key in base.entries && key in head.entries
  {
    ContributorsOf(head.entries[key]) - ContributorsOf(base.entries[key])
  }

  predicate Widens(base: BranchSurface, head: BranchSurface, key: SymbolKey) {
    && key in base.entries && key in head.entries
    && NewContributors(base, head, key) != {}
    && Merged(base.entries[key]) != Merged(head.entries[key])
  }

  predicate SpaceUnread(unread: set<Unread>, space: Namespace) {
    exists u :: u in unread && u.space == space
  }

  function ChangeAt(base: BranchSurface, head: BranchSurface, key: SymbolKey): SurfaceChange
    requires key in base.entries && key in head.entries
  {
    SurfaceChange(Merged(base.entries[key]), Merged(head.entries[key]), NewContributors(base, head, key))
  }

  /** The three clauses over every key of a space read at both revisions. */
  method CompareSurfaces(base: BranchSurface, head: BranchSurface) returns (r: Comparison)
    ensures r.unread == base.unread + head.unread
    ensures forall k :: k in r.changes <==>
            k in head.entries && !SpaceUnread(r.unread, k.space) && Widens(base, head, k)
    ensures forall k :: k in r.changes ==>
            k in base.entries && k in head.entries && r.changes[k] == ChangeAt(base, head, k)
    ensures forall k :: k in r.changes ==>
            && r.changes[k].before == Merged(base.entries[k]) && r.changes[k].after == Merged(head.entries[k])
            && r.changes[k].introducedBy == ContributorsOf(head.entries[k]) - ContributorsOf(base.entries[k])
  {
    hide SpaceUnread, NewContributors;
    var unread := base.unread + head.unread;
    var changes: map<SymbolKey, SurfaceChange>, rest := map[], head.entries.Keys;
    while rest != {}
      invariant rest <= head.entries.Keys
      invariant forall k :: k in changes <==>
                k in head.entries.Keys - rest && !SpaceUnread(unread, k.space) && Widens(base, head, k)
      invariant forall k :: k in changes ==>
                k in base.entries && k in head.entries && changes[k] == ChangeAt(base, head, k)
    {
      var key :| key in rest;
      rest := rest - {key};
      if !SpaceUnread(unread, key.space) && key in base.entries {
        var introduced := NewContributors(base, head, key);
        var before, after := Merged(base.entries[key]), Merged(head.entries[key]);
        if introduced != {} && before != after {
          changes := changes[key := SurfaceChange(before, after, introduced)];
        }
      }
    }
    r := Comparison(changes, unread);
    forall k | k in r.changes
      ensures r.changes[k].introducedBy == ContributorsOf(head.entries[k]) - ContributorsOf(base.entries[k])
    {
      IntroducedBy(base, head, k);
    }
  }

  lemma IntroducedBy(base: BranchSurface, head: BranchSurface, key: SymbolKey)
    requires key in base.entries && key in head.entries
    ensures NewContributors(base, head, key) == ContributorsOf(head.entries[key]) - ContributorsOf(base.entries[key])
  {
  }

  // ----- what a clean answer means -------------------------------------------

  /** Every key of the revision landed in a file space or was a bare augmentation head. */
  ghost predicate AllInFiles(locate: Locator, files: seq<FileSurface>) {
    forall i :: 0 <= i < |Items(files)| ==>
      var r := Route(locate, PathsOf(files), Items(files)[i].file, Items(files)[i].qualname);
      r.Some? && r.value.unread.None? && (r.value.Landed? ==> r.value.key.space.FileSpace?)
  }

  lemma NothingUnread(locate: Locator, files: seq<FileSurface>, attempted: set<string>, s: BranchSurface)
    requires BuildSurface(locate, files, attempted) == Some(s)
    ensures s.unread == {} <==> AllInFiles(locate, files)
  {
    hide Route, Collect, Items, OwnNamespace;
    var present, items := PathsOf(files), Items(files);
    CollectExact(locate, present, items);
    ItemsAreOfFiles(files);
    forall i | 0 <= i < |items|
      ensures var r := Route(locate, present, items[i].file, items[i].qualname);
              r.Some? && (r.value.Landed? ==> (r.value.key.space.FileSpace? <==> r.value.unread.None?))
              && (r.value.unread.Some? ==> r.value.unread.value in s.unread)
    {
      LandsWhereAttempted(locate, files, attempted, items[i].file, items[i].qualname);
      var r := Route(locate, present, items[i].file, items[i].qualname).value;
      if r.unread.Some? {
        assert Leaves(locate, present, items[i], r.unread.value);
      }
    }
    if u :| u in s.unread {
      var i :| 0 <= i < |items| && Leaves(locate, present, items[i], u);
    }
  }

  /** A clean comparison is conclusive, in both directions: it is clean exactly when every
      key of both revisions landed in a file space with no touch of the global one, and no
      key that gained a contributor changed its merged fingerprint. */
  lemma CleanExact(locate: Locator, baseFiles: seq<FileSurface>, headFiles: seq<FileSurface>,
                   baseAttempted: set<string>, headAttempted: set<string>, base: BranchSurface, head: BranchSurface,
                   r: Comparison)
    requires BuildSurface(locate, baseFiles, baseAttempted) == Some(base)
    requires BuildSurface(locate, headFiles, headAttempted) == Some(head)
    requires r.unread == base.unread + head.unread
    requires forall k :: k in r.changes <==>
             k in head.entries && !SpaceUnread(r.unread, k.space) && Widens(base, head, k)
    ensures r.Clean() <==>
            && AllInFiles(locate, baseFiles) && AllInFiles(locate, headFiles)
            && forall k :: k in base.entries && k in head.entries && NewContributors(base, head, k) != {} ==>
                 Merged(base.entries[k]) == Merged(head.entries[k])
  {
    hide AllInFiles, BuildSurface, NewContributors, Merged;
    NothingUnread(locate, baseFiles, baseAttempted, base);
    NothingUnread(locate, headFiles, headAttempted, head);
    if base.unread + head.unread == {} {
      assert base.unread == {} && head.unread == {};
      assert forall k :: k in r.changes <==> k in head.entries && Widens(base, head, k);
    }
  }

  // ----- merging -------------------------------------------------------------

  lemma {:induction false} PathLessTotal(a: string, b: string)
    ensures a == b || PathLess(a, b) || PathLess(b, a)
    ensures !(PathLess(a, b) && PathLess(b, a))
  {
    if a != "" && b != "" && a[0] == b[0] {
      PathLessTotal(a[1..], b[1..]);
      assert a == [a[0]] + a[1..] && b == [b[0]] + b[1..];
    }
  }

  lemma {:induction false} PathLessTransitive(a: string, b: string, c: string)
    requires !PathLess(b, a) && !PathLess(c, b)
    ensures !PathLess(c, a)
  {
    if a != "" && b != "" && c != "" && a[0] == b[0] == c[0] {
      PathLessTransitive(a[1..], b[1..], c[1..]);
    }
  }

  /** Paths are compared as texts are: a proper beginning comes first, otherwise the first
      difference decides. */
  lemma {:induction false} PathLessExact(a: string, b: string)
    ensures PathLess(a, b) <==> a < b || exists k :: 0 <= k < |a| && k < |b| && a[..k] == b[..k] && a[k] < b[k]
  {
    if a != "" && b != "" && a[0] == b[0] {
      PathLessExact(a[1..], b[1..]);
      assert a == [a[0]] + a[1..] && b == [b[0]] + b[1..];
      if k :| 0 <= k < |a[1..]| && k < |b[1..]| && a[1..][..k] == b[1..][..k] && a[1..][k] < b[1..][k] {
        assert a[..k + 1] == [a[0]] + a[1..][..k] && b[..k + 1] == [b[0]] + b[1..][..k];
        assert a[k + 1] < b[k + 1];
      }
      if k :| 0 <= k < |a| && k < |b| && a[..k] == b[..k] && a[k] < b[k] {
        assert a[1..][..k - 1] == a[..k][1..] && b[1..][..k - 1] == b[..k][1..];
      }
    }
  }

  ghost predicate Ordered(s: seq<Contribution>) {
    forall i, j :: 0 <= i < j < |s| ==> !PathLess(s[j].path, s[i].path)
  }

  lemma AppendKeepsOrder(s: seq<Contribution>, last: Contribution)
    requires Ordered(s) && forall x :: x in multiset(s) ==> !PathLess(last.path, x.path)
    ensures Ordered(s + [last])
  {
    hide PathLess;
    assert forall i :: 0 <= i < |s| ==> s[i] in multiset(s);
  }

  lemma LastIsGreatest(s: seq<Contribution>, x: Contribution)
    requires Ordered(s) && s != [] && x in multiset(s)
    ensures !PathLess(s[|s| - 1].path, x.path)
  {
    PathLessTotal(x.path, x.path);
    hide PathLess;
    var i :| 0 <= i < |s| && s[i] == x;
  }

  lemma {:induction false} InsertKeepsOrder(s: seq<Contribution>, c: Contribution)
    requires Ordered(s)
    ensures Ordered(InsertByPath(s, c)) && multiset(InsertByPath(s, c)) == multiset(s) + multiset{c}
  {
    hide PathLess;
    if s != [] {
      var init, last := s[..|s| - 1], s[|s| - 1];
      assert s == init + [last];
      if PathLess(c.path, last.path) {
        InsertKeepsOrder(init, c);
        PathLessTotal(c.path, last.path);
        forall x | x in multiset(InsertByPath(init, c)) ensures !PathLess(last.path, x.path) {
          if x != c {
            LastIsGreatest(s, x);
          }
        }
        AppendKeepsOrder(InsertByPath(init, c), last);
      } else {
        forall x | x in multiset(s) ensures !PathLess(c.path, x.path) {
          LastIsGreatest(s, x);
          PathLessTransitive(x.path, last.path, c.path);
        }
        AppendKeepsOrder(s, c);
      }
    }
  }

  /** Contributions are listed in path order, and none is lost or invented. */
  lemma {:induction false} ByPathSorts(found: seq<Contribution>)
    ensures Ordered(ByPath(found)) && multiset(ByPath(found)) == multiset(found)
  {
    if found != [] {
      var init, last := found[..|found| - 1], found[|found| - 1];
      assert found == init + [last];
      assert ByPath(found) == InsertByPath(ByPath(init), last);
      ByPathSorts(init);
      hide Ordered, InsertByPath, ByPath;
      InsertKeepsOrder(ByPath(init), last);
    }
  }

  /** The contributions of one file, in order. */
  function AtPath(s: seq<Contribution>, path: string): seq<Contribution> {
    if s == [] then []
    else
      var last := s[|s| - 1];
      AtPath(s[..|s| - 1], path) + if last.path == path then [last] else []
  }

  lemma {:induction false} InsertIsStable(s: seq<Contribution>, c: Contribution, path: string)
    ensures AtPath(InsertByPath(s, c), path) == AtPath(s + [c], path)
  {
    if s != [] {
      var init, last := s[..|s| - 1], s[|s| - 1];
      assert (s + [c])[..|s|] == s && (init + [c])[..|init|] == init;
      if PathLess(c.path, last.path) {
        InsertIsStable(init, c, path);
        PathLessTotal(c.path, last.path);
        var r := InsertByPath(init, c) + [last];
        assert r[..|r| - 1] == InsertByPath(init, c);
      }
    }
  }

  /** What one file contributes keeps its order. */
  lemma {:induction false} ByPathIsStable(found: seq<Contribution>, path: string)
    ensures AtPath(ByPath(found), path) == AtPath(found, path)
  {
    if found != [] {
      var init, last := found[..|found| - 1], found[|found| - 1];
      assert found == init + [last];
      ByPathIsStable(init, path);
      InsertIsStable(ByPath(init), last, path);
      var r := ByPath(init) + [last];
      assert r[..|r| - 1] == ByPath(init);
    }
  }

  function Weight(s: seq<Contribution>): nat {
    if s == [] then 0 else Weight(s[..|s| - 1]) + |s[|s| - 1].fingerprint| + 3
  }

  lemma {:induction false} MergedLength(s: seq<Contribution>)
    requires s != []
    ensures |Merged(s)| == Weight(s) - 3
  {
    if |s| > 1 {
      MergedLength(s[..|s| - 1]);
    } else {
      assert s[..0] == [];
    }
  }

  lemma {:induction false} WeightConcat(x: seq<Contribution>, y: seq<Contribution>)
    ensures Weight(x + y) == Weight(x) + Weight(y)
  {
    if y == [] {
      assert x + y == x;
    } else {
      assert (x + y)[..|x + y| - 1] == x + y[..|y| - 1];
      WeightConcat(x, y[..|y| - 1]);
    }
  }

  lemma Remove(s: seq<Contribution>, c: Contribution) returns (rest: seq<Contribution>)
    requires c in multiset(s)
    ensures multiset(s) == multiset(rest) + multiset{c}
    ensures Weight(s) == Weight(rest) + |c.fingerprint| + 3
  {
    var i :| 0 <= i < |s| && s[i] == c;
    rest := s[..i] + s[i + 1..];
    assert s == (s[..i] + [c]) + s[i + 1..];
    WeightConcat(s[..i] + [c], s[i + 1..]);
    WeightConcat(s[..i], s[i + 1..]);
    assert (s[..i] + [c])[..i] == s[..i];
  }

  lemma {:induction false} WeightGrows(small: seq<Contribution>, large: seq<Contribution>)
    requires multiset(small) <= multiset(large)
    ensures Weight(small) <= Weight(large)
    ensures multiset(small) != multiset(large) ==> Weight(small) < Weight(large)
  {
    if small != [] {
      var init, c := small[..|small| - 1], small[|small| - 1];
      assert small == init + [c];
      var rest := Remove(large, c);
      assert multiset(small) == multiset(init) + multiset{c};
      forall x ensures multiset(init)[x] <= multiset(rest)[x] {
        assert multiset(small)[x] <= multiset(large)[x];
      }
      WeightGrows(init, rest);
    }
  }

  lemma NotAContributor(s: seq<Contribution>, c: Contribution)
    requires c.path !in ContributorsOf(s)
    ensures c !in multiset(s)
  {
    assert forall i :: 0 <= i < |s| ==> s[i].path in ContributorsOf(s);
  }

  /** A widening cannot hide: when a key keeps all its contributions and gains one from a
      new file, the comparison reports it wherever its space is read. */
  lemma AdditionIsReported(base: BranchSurface, head: BranchSurface, key: SymbolKey)
    requires key in base.entries && key in head.entries && base.entries[key] != [] && head.entries[key] != []
    requires multiset(base.entries[key]) <= multiset(head.entries[key])
    requires NewContributors(base, head, key) != {}
    ensures Widens(base, head, key)
  {
    var x, y := base.entries[key], head.entries[key];
    var p :| p in NewContributors(base, head, key);
    var i :| 0 <= i < |y| && y[i].path == p;
    assert y[i] in multiset(y);
    NotAContributor(x, y[i]);
    WeightGrows(x, y);
    MergedLength(x);
    MergedLength(y);
  }

  /** A single contribution merges to itself, so moving it between files is not reported. */
  lemma MoveIsSilent(base: BranchSurface, head: BranchSurface, key: SymbolKey, p: string, q: string,
                     fingerprint: string)
    requires key in base.entries && base.entries[key] == [Contribution(p, fingerprint)]
    requires key in head.entries && head.entries[key] == [Contribution(q, fingerprint)]
    ensures Merged(base.entries[key]) == fingerprint && !Widens(base, head, key)
    ensures p != q ==> NewContributors(base, head, key) == {q}
  {
    assert head.entries[key][0].path == q;
  }

  // ----- what a merged fingerprint distinguishes -----------------------------

  const JOINT: string := " + "

  predicate HasJointAt(f: string, k: nat) {
    k + 3 <= |f| && f[k..k + 3] == JOINT
  }

  /** Text that cannot be mistaken for the joint: it neither contains it nor begins with its
      second half. */
  predicate Separable(f: string) {
    (forall k: nat :: k < |f| ==> !HasJointAt(f, k)) && !("+ " <= f)
  }

  function Texts(s: seq<Contribution>): seq<string> {
    if s == [] then [] else Texts(s[..|s| - 1]) + [s[|s| - 1].fingerprint]
  }

  ghost predicate AllSeparable(s: seq<Contribution>) {
    forall i :: 0 <= i < |s| ==> Separable(s[i].fingerprint)
  }

  /** The last joint of a text is found from its right end. */
  lemma LastJoint(a: string, f: string, b: string, g: string)
    requires a + JOINT + f == b + JOINT + g && Separable(f) && Separable(g)
    ensures a == b && f == g
  {
    var t := a + JOINT + f;
    assert t[|a|..|a| + 3] == JOINT && t[|b|..|b| + 3] == JOINT;
    assert t[|a| + 3..] == f && t[|b| + 3..] == g;
    if |a| > |b| {
      JointInside(t, b, |a|, g);
    } else if |b| > |a| {
      JointInside(t, a, |b|, f);
    } else {
      assert t[..|a|] == a && t[..|b|] == b;
    }
  }

  lemma JointInside(t: string, b: string, p: nat, g: string)
    requires |b| < p && p + 3 <= |t| && |b| + 3 <= |t|
    requires t[p..p + 3] == JOINT && t[|b|..|b| + 3] == JOINT && t[|b| + 3..] == g
    ensures !Separable(g)
  {
    var q := |b|;
    assert t[p] == ' ' && t[p + 1] == '+' && t[p + 2] == ' ';
    assert t[q] == ' ' && t[q + 1] == '+' && t[q + 2] == ' ';
    if p >= q + 3 {
      assert g[p - q - 3..p - q] == t[p..p + 3];
      assert HasJointAt(g, p - q - 3);
    } else {
      assert p == q + 2;
      assert g[0] == t[q + 3] && g[1] == t[q + 4];
    }
  }

  /** Between lists of separable fingerprints, merging loses nothing but the paths. */
  lemma {:induction false} MergedDecides(x: seq<Contribution>, y: seq<Contribution>)
    requires x != [] && y != [] && AllSeparable(x) && AllSeparable(y)
    ensures Merged(x) == Merged(y) <==> Texts(x) == Texts(y)
  {
    var a, b := x[..|x| - 1], y[..|y| - 1];
    var f, g := x[|x| - 1].fingerprint, y[|y| - 1].fingerprint;
    assert Separable(f) && Separable(g);
    if |x| > 1 && |y| > 1 {
      MergedDecides(a, b);
      hide Separable;
      if Merged(x) == Merged(y) {
        LastJoint(Merged(a), f, Merged(b), g);
      }
      if Texts(x) == Texts(y) {
        assert Texts(a) == Texts(x)[..|Texts(x)| - 1] == Texts(b);
      }
    } else if |x| > 1 {
      JoinedIsNotSeparable(Merged(a), f);
      TextsCount(x);
      TextsCount(y);
    } else if |y| > 1 {
      JoinedIsNotSeparable(Merged(b), g);
      TextsCount(x);
      TextsCount(y);
    } else {
      assert a == [] && b == [];
      assert Texts(x) == [f] && Texts(y) == [g];
    }
  }

  lemma JoinedIsNotSeparable(a: string, f: string)
    ensures !Separable(a + JOINT + f)
  {
    var g := a + JOINT + f;
    assert g[|a|..|a| + 3] == JOINT;
    assert HasJointAt(g, |a|);
  }

  lemma {:induction false} TextsCount(s: seq<Contribution>)
    ensures |Texts(s)| == |s|
  {
    if s != [] {
      TextsCount(s[..|s| - 1]);
    }
  }

  /** So between separable fingerprints the third clause says what it means: a key widens
      exactly when it gains a contributor and its list of fingerprints changes. */
  lemma WideningExact(base: BranchSurface, head: BranchSurface, key: SymbolKey)
    requires key in base.entries && key in head.entries && base.entries[key] != [] && head.entries[key] != []
    requires AllSeparable(base.entries[key]) && AllSeparable(head.entries[key])
    ensures Widens(base, head, key) <==>
            NewContributors(base, head, key) != {} && Texts(base.entries[key]) != Texts(head.entries[key])
  {
    MergedDecides(base.entries[key], head.entries[key]);
  }

  /** Otherwise it does not, for any such text: one contribution holding a joint merges like
      two, and one beginning with the joint's second half merges, after any other, like another
      pair. A key that gains the contributor `q` this way is not reported. */
  lemma JointHides(base: BranchSurface, head: BranchSurface, key: SymbolKey, p: string, q: string, r: string, u: string,
                   v: string)
    requires p != q && r != q && key in base.entries && key in head.entries
    ensures base.entries[key] == [Contribution(p, u + JOINT + v)]
            && head.entries[key] == [Contribution(p, u), Contribution(q, v)] ==>
              NewContributors(base, head, key) == {q} && !Widens(base, head, key)
    ensures base.entries[key] == [Contribution(p, u), Contribution(r, "+ " + v)]
            && head.entries[key] == [Contribution(p, u + " +"), Contribution(q, v)] ==>
              NewContributors(base, head, key) == {q} && !Widens(base, head, key)
  {
    var x, y := base.entries[key], head.entries[key];
    if x == [Contribution(p, u + JOINT + v)] && y == [Contribution(p, u), Contribution(q, v)] {
      Pair(y[0], y[1]);
      assert x[0].path == p;
    }
    if x == [Contribution(p, u), Contribution(r, "+ " + v)] && y == [Contribution(p, u + " +"), Contribution(q, v)] {
      Pair(x[0], x[1]);
      Pair(y[0], y[1]);
      assert u + JOINT + ("+ " + v) == u + " +" + JOINT + v;
    }
  }

  /** And for every text outside the condition, between any neighbours: the three merge like
      two other texts, neither empty, so a file that contributes it goes unreported. */
  lemma UnseparableHides(f: string, u: string, w: string, p: string, q: string, r: string)
    returns (x: string, y: string)
    requires !Separable(f) && q != p && q != r
    ensures x != "" && y != ""
    ensures forall base: BranchSurface, head: BranchSurface, key: SymbolKey ::
              key in base.entries && key in head.entries
              && base.entries[key] == [Contribution(p, x), Contribution(r, y)]
              && head.entries[key] == [Contribution(p, u), Contribution(q, f), Contribution(r, w)] ==>
                NewContributors(base, head, key) == {q} && !Widens(base, head, key)
  {
    if "+ " <= f {
      var g := f[2..];
      assert f == "+ " + g;
      x, y := u + " +", g + JOINT + w;
      assert u + JOINT + ("+ " + g) + JOINT + w == u + " +" + JOINT + (g + JOINT + w);
    } else {
      var k: nat :| k < |f| && HasJointAt(f, k);
      var a, b := f[..k], f[k + 3..];
      assert f == a + JOINT + b;
      x, y := u + JOINT + a, b + JOINT + w;
      assert u + JOINT + (a + JOINT + b) + JOINT + w == u + JOINT + a + JOINT + (b + JOINT + w);
    }
    Pair(Contribution(p, x), Contribution(r, y));
    Triple(Contribution(p, u), Contribution(q, f), Contribution(r, w));
  }

  lemma Triple(c: Contribution, d: Contribution, e: Contribution)
    ensures Merged([c, d, e]) == c.fingerprint + JOINT + d.fingerprint + JOINT + e.fingerprint
    ensures ContributorsOf([c, d, e]) == {c.path, d.path, e.path}
  {
    var all := [c, d, e];
    assert all[..2] == [c, d];
    Pair(c, d);
    forall path ensures path in ContributorsOf(all) <==> path in {c.path, d.path, e.path} {
      assert all[0] == c && all[1] == d && all[2] == e;
    }
  }

  lemma Pair(c: Contribution, d: Contribution)
    ensures Merged([c, d]) == c.fingerprint + JOINT + d.fingerprint && ContributorsOf([c, d]) == {c.path, d.path}
  {
    var both := [c, d];
    assert both[..1] == [c];
    forall path ensures path in ContributorsOf(both) <==> path in {c.path, d.path} {
      assert both[0] == c && both[1] == d;
    }
  }
}
