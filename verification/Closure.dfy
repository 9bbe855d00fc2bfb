/** The bounded baseline closure of a branch's augmentations, and the reads it costs. */
module Closure {
  import opened Wrappers
  import opened Keys
  import opened Surface

  const MAX_CLOSURE_READS: nat := 256

  // ----- enumeration ---------------------------------------------------------

  function FirstOnly(seen: seq<string>, xs: seq<string>): seq<string> {
    if xs == [] then seen
    else
      var before := FirstOnly(seen, xs[..|xs| - 1]);
      if xs[|xs| - 1] in before then before else before + [xs[|xs| - 1]]
  }

  /** The list without repetitions, first occurrences kept. */
  function Deduped(xs: seq<string>): seq<string> {
    FirstOnly([], xs)
  }

  /** The specifiers the first `n` keys augment, in order; None at a malformed key. */
  function SpecifiersUpTo(f: FileSurface, n: nat): Option<seq<string>>
    requires n <= |f.fingerprints|
  {
    if n == 0 then Some([])
    else
      var before, parsed := SpecifiersUpTo(f, n - 1), ParseKey(f.fingerprints[n - 1].0);
      if before.None? || parsed.None? || parsed.value == [] then None
      else if parsed.value[0].tag == 's' && parsed.value[0].text !in before.value
        then Some(before.value + [parsed.value[0].text])
      else before
  }

  function AugmentationSpecifiers(f: FileSurface): Option<seq<string>> {
    if f.language.TypeScript? then SpecifiersUpTo(f, |f.fingerprints|) else Some([])
  }

  function CandidatesOf(locate: Locator, path: string, specifiers: seq<string>): seq<string> {
    if specifiers == [] then []
    else
      CandidatesOf(locate, path, specifiers[..|specifiers| - 1])
      + SpecifierCandidates(locate, path, specifiers[|specifiers| - 1])
  }

  /** Every key of the file reads. */
  predicate Readable(f: FileSurface) {
    AugmentationSpecifiers(f).Some?
  }

  /** Every candidate the readable files name, in enumeration order. */
  function Enumeration(locate: Locator, files: seq<FileSurface>): seq<string> {
    if files == [] then []
    else
      var f := files[|files| - 1];
      Enumeration(locate, files[..|files| - 1])
      + if Readable(f) then CandidatesOf(locate, f.path, AugmentationSpecifiers(f).value) else []
  }

  datatype Request = Request(candidates: seq<string>, truncated: bool)

  /** The exact bounded prefix of the distinct candidates. */
  function Bounded(enumeration: seq<string>): Request {
    var all := Deduped(enumeration);
    if |all| <= MAX_CLOSURE_READS then Request(all, false) else Request(all[..MAX_CLOSURE_READS], true)
  }

  // ----- facts about enumeration ---------------------------------------------

  lemma {:induction false} FirstOnlyConcat(seen: seq<string>, xs: seq<string>, ys: seq<string>)
    ensures FirstOnly(seen, xs + ys) == FirstOnly(FirstOnly(seen, xs), ys)
  {
    if ys == [] {
      assert xs + ys == xs;
    } else {
      assert (xs + ys)[..|xs + ys| - 1] == xs + ys[..|ys| - 1];
      FirstOnlyConcat(seen, xs, ys[..|ys| - 1]);
    }
  }

  lemma {:induction false} FirstOnlyGrows(seen: seq<string>, xs: seq<string>)
    ensures seen <= FirstOnly(seen, xs)
  {
    if xs != [] {
      FirstOnlyGrows(seen, xs[..|xs| - 1]);
    }
  }

  lemma {:induction false} FirstOnlyMembers(seen: seq<string>, xs: seq<string>, x: string)
    ensures x in FirstOnly(seen, xs) <==> x in seen || x in xs
  {
    if xs != [] {
      FirstOnlyMembers(seen, xs[..|xs| - 1], x);
      assert xs == xs[..|xs| - 1] + [xs[|xs| - 1]];
    }
  }

  lemma {:induction false} DedupedDistinct(seen: seq<string>, xs: seq<string>)
    requires Distinct(seen)
    ensures Distinct(FirstOnly(seen, xs))
  {
    if xs != [] {
      DedupedDistinct(seen, xs[..|xs| - 1]);
    }
  }

  /** Once over the bound, further candidates change nothing. */
  lemma BoundedIsStable(xs: seq<string>, ys: seq<string>)
    requires Bounded(xs).truncated
    ensures Bounded(xs + ys) == Bounded(xs)
  {
    FirstOnlyConcat([], xs, ys);
    FirstOnlyGrows(Deduped(xs), ys);
    hide FirstOnly;
    var a, b := Deduped(xs), Deduped(xs + ys);
    assert b[..|a|] == a;
    assert b[..MAX_CLOSURE_READS] == b[..|a|][..MAX_CLOSURE_READS];
  }

  // ----- the request as loops ------------------------------------------------

  /** One file's augmented specifiers, first occurrences in key order. */
  method SpecifiersLoop(f: FileSurface) returns (r: Option<seq<string>>)
    ensures r == AugmentationSpecifiers(f)
  {
    if !f.language.TypeScript? {
      return Some([]);
    }
    var out: seq<string> := [];
    for n := 0 to |f.fingerprints|
      invariant SpecifiersUpTo(f, n) == Some(out)
    {
      var parsed := ParseKey(f.fingerprints[n].0);
      if parsed.None? || parsed.value == [] {
        UnreadableAt(f, n + 1, |f.fingerprints|);
        return None;
      }
      if parsed.value[0].tag == 's' && parsed.value[0].text !in out {
        out := out + [parsed.value[0].text];
      }
    }
    return Some(out);
  }

  lemma {:induction false} UnreadableAt(f: FileSurface, n: nat, m: nat)
    requires n <= m <= |f.fingerprints| && SpecifiersUpTo(f, n).None?
    ensures SpecifiersUpTo(f, m).None?
    decreases m
  {
    if n < m {
      UnreadableAt(f, n, m - 1);
    }
  }

  /** Add one file's candidates to those found so far, stopping at the bound. */
  method AddCandidates(done: seq<string>, more: seq<string>, found: seq<string>) returns (r: Request)
    requires found == Deduped(done) && |found| <= MAX_CLOSURE_READS
    ensures r == Bounded(done + more)
  {
    hide FirstOnly;
    var candidates := found;
    assert done + more[..0] == done;
    for i := 0 to |more|
      invariant candidates == Deduped(done + more[..i]) && |candidates| <= MAX_CLOSURE_READS
    {
      var x := more[i];
      assert done + more[..i + 1] == (done + more[..i]) + [x];
      DedupedSnoc(done + more[..i], x);
      if x !in candidates {
        if |candidates| >= MAX_CLOSURE_READS {
          BoundedIsStable(done + more[..i + 1], more[i + 1..]);
          assert (done + more[..i + 1]) + more[i + 1..] == done + more;
          assert Deduped(done + more[..i + 1])[..MAX_CLOSURE_READS] == candidates;
          return Request(candidates, true);
        }
        candidates := candidates + [x];
      }
    }
    assert more[..|more|] == more;
    return Request(candidates, false);
  }

  lemma DedupedSnoc(xs: seq<string>, x: string)
    ensures Deduped(xs + [x]) == if x in Deduped(xs) then Deduped(xs) else Deduped(xs) + [x]
  {
    assert (xs + [x])[..|xs|] == xs;
  }

  lemma {:induction false} EnumerationSplit(locate: Locator, files: seq<FileSurface>, i: nat)
    returns (rest: seq<string>)
    requires i <= |files|
    ensures Enumeration(locate, files) == Enumeration(locate, files[..i]) + rest
    decreases |files|
  {
    hide AugmentationSpecifiers, CandidatesOf;
    if i == |files| {
      assert files[..i] == files;
      rest := [];
    } else {
      var last := files[|files| - 1];
      var inner := EnumerationSplit(locate, files[..|files| - 1], i);
      assert files[..|files| - 1][..i] == files[..i];
      rest := inner + if Readable(last) then CandidatesOf(locate, last.path, AugmentationSpecifiers(last).value)
        else [];
    }
  }

  lemma EnumerationSnoc(locate: Locator, files: seq<FileSurface>, i: nat)
    requires i < |files| && Readable(files[i])
    ensures Enumeration(locate, files[..i + 1]) ==
            Enumeration(locate, files[..i])
            + CandidatesOf(locate, files[i].path, AugmentationSpecifiers(files[i]).value)
  {
    assert files[..i + 1][..i] == files[..i];
  }

  /** The closure request. It is refused exactly when an unreadable file is reached before
      the bound; otherwise it is the bounded prefix of the distinct candidates. */
  method ClosureRequest(locate: Locator, files: seq<FileSurface>) returns (r: Option<Request>)
    ensures r.None? <==>
            exists i :: 0 <= i < |files| && !Readable(files[i]) && !Bounded(Enumeration(locate, files[..i])).truncated
    ensures r.Some? ==> r.value == Bounded(Enumeration(locate, files))
  {
    hide Enumeration, Bounded, Readable, CandidatesOf;
    var found: seq<string> := [];
    NothingEnumerated(locate);
    assert files[..0] == [];
    for i := 0 to |files|
      invariant Bounded(Enumeration(locate, files[..i])) == Request(found, false)
      invariant forall k :: 0 <= k < i ==> Readable(files[k])
    {
      var specifiers := SpecifiersLoop(files[i]);
      ReadableIs(files[i]);
      if specifiers.None? {
        return None;
      }
      var more := CandidatesList(locate, files[i].path, specifiers.value);
      EnumerationSnoc(locate, files, i);
      BoundedIsDeduped(Enumeration(locate, files[..i]));
      var next := AddCandidates(Enumeration(locate, files[..i]), more, found);
      if next.truncated {
        ghost var rest := EnumerationSplit(locate, files, i + 1);
        BoundedIsStable(Enumeration(locate, files[..i + 1]), rest);
        forall k | i < k < |files| ensures Bounded(Enumeration(locate, files[..k])).truncated {
          ghost var tail := EnumerationSplit(locate, files[..k], i + 1);
          assert files[..k][..i + 1] == files[..i + 1];
          BoundedIsStable(Enumeration(locate, files[..i + 1]), tail);
        }
        return Some(next);
      }
      found := next.candidates;
    }
    assert files[..|files|] == files;
    return Some(Request(found, false));
  }

  lemma ReadableIs(f: FileSurface)
    ensures Readable(f) <==> AugmentationSpecifiers(f).Some?
  {
  }

  lemma NothingEnumerated(locate: Locator)
    ensures Bounded(Enumeration(locate, [])) == Request([], false)
  {
  }

  lemma BoundedIsDeduped(xs: seq<string>)
    requires !Bounded(xs).truncated
    ensures Bounded(xs).candidates == Deduped(xs) && |Deduped(xs)| <= MAX_CLOSURE_READS
  {
  }

  method CandidatesList(locate: Locator, path: string, specifiers: seq<string>) returns (out: seq<string>)
    ensures out == CandidatesOf(locate, path, specifiers)
  {
    out := [];
    for i := 0 to |specifiers|
      invariant out == CandidatesOf(locate, path, specifiers[..i])
    {
      assert specifiers[..i + 1][..i] == specifiers[..i];
      out := out + SpecifierCandidates(locate, path, specifiers[i]);
    }
    assert specifiers[..|specifiers|] == specifiers;
  }

  /** An exact bounded prefix: distinct, in first-occurrence order, at most the bound, and
      truncated exactly when some candidate is missing. */
  lemma RequestExact(locate: Locator, files: seq<FileSurface>)
    ensures var e := Enumeration(locate, files); var r := Bounded(e);
            && r.candidates <= Deduped(e) && |r.candidates| <= MAX_CLOSURE_READS
            && Distinct(r.candidates)
            && (r.truncated <==> exists x :: x in e && x !in r.candidates)
            && |r.candidates| <= 256 && (r.truncated ==> |r.candidates| == 256)
  {
    var e := Enumeration(locate, files);
    DedupedDistinct([], e);
    hide FirstOnly, Enumeration;
    var all, r := Deduped(e), Bounded(e);
    forall x ensures x in all <==> x in e {
      FirstOnlyMembers([], e, x);
    }
    assert all[..|r.candidates|] == r.candidates;
    assert forall i :: 0 <= i < |r.candidates| ==> r.candidates[i] == all[i];
    if r.truncated {
      var x := all[MAX_CLOSURE_READS];
      forall i | 0 <= i < |r.candidates| ensures r.candidates[i] != x {
        assert r.candidates[i] == all[i];
      }
      assert x in all && x !in r.candidates;
      assert x in e;
    } else {
      assert forall x :: x in e ==> x in r.candidates;
    }
    assert r.candidates <= all && |r.candidates| <= MAX_CLOSURE_READS;
  }

  // ----- what is enumerated --------------------------------------------------

  /** The file augments the specifier: one of its keys begins with it. */
  ghost predicate Augments(f: FileSurface, specifier: string) {
    exists i, segments :: 0 <= i < |f.fingerprints| && ParseKey(f.fingerprints[i].0) == Some(segments)
      && segments != [] && segments[0] == Segment('s', specifier)
  }

  ghost predicate AugmentsUpTo(f: FileSurface, n: nat, specifier: string)
    requires n <= |f.fingerprints|
  {
    exists i :: 0 <= i < n && BeginsWith(f.fingerprints[i].0, specifier)
  }

  ghost predicate BeginsWith(text: string, specifier: string) {
    ParseKey(text).Some? && ParseKey(text).value != [] && ParseKey(text).value[0] == Segment('s', specifier)
  }

  lemma {:induction false} SpecifiersCollected(f: FileSurface, n: nat, specifier: string)
    requires n <= |f.fingerprints| && SpecifiersUpTo(f, n).Some?
    ensures specifier in SpecifiersUpTo(f, n).value <==> AugmentsUpTo(f, n, specifier)
    ensures Distinct(SpecifiersUpTo(f, n).value)
    ensures n > 0 ==> SpecifiersUpTo(f, n - 1).Some? && SpecifiersUpTo(f, n - 1).value <= SpecifiersUpTo(f, n).value
  {
    hide ParseKey;
    if n > 0 {
      SpecifiersCollected(f, n - 1, specifier);
      var last := f.fingerprints[n - 1].0;
      assert AugmentsUpTo(f, n, specifier) <==> AugmentsUpTo(f, n - 1, specifier) || BeginsWith(last, specifier);
      SpecifierStep(f, n, specifier);
    }
  }

  lemma SpecifierStep(f: FileSurface, n: nat, specifier: string)
    requires 0 < n <= |f.fingerprints| && SpecifiersUpTo(f, n).Some?
    ensures SpecifiersUpTo(f, n - 1).Some?
    ensures var before, after := SpecifiersUpTo(f, n - 1).value, SpecifiersUpTo(f, n).value;
            && before <= after
            && (specifier in after <==> specifier in before || BeginsWith(f.fingerprints[n - 1].0, specifier))
            && (Distinct(before) ==> Distinct(after))
  {
    hide ParseKey;
  }

  /** The specifiers of a readable file, each once: exactly those it augments, in the order of
      the keys that first do, so that the keys of a longer file add theirs at the end. */
  lemma SpecifiersExact(f: FileSurface, specifier: string)
    requires Readable(f)
    ensures specifier in AugmentationSpecifiers(f).value <==> f.language.TypeScript? && Augments(f, specifier)
    ensures Distinct(AugmentationSpecifiers(f).value)
  {
    if f.language.TypeScript? {
      SpecifiersCollected(f, |f.fingerprints|, specifier);
      if i :| 0 <= i < |f.fingerprints| && BeginsWith(f.fingerprints[i].0, specifier) {
        assert ParseKey(f.fingerprints[i].0) == Some(ParseKey(f.fingerprints[i].0).value);
      }
      if Augments(f, specifier) {
        var i, segments :| 0 <= i < |f.fingerprints| && ParseKey(f.fingerprints[i].0) == Some(segments)
                           && segments != [] && segments[0] == Segment('s', specifier);
        assert BeginsWith(f.fingerprints[i].0, specifier);
      }
      hide SpecifiersUpTo, ParseKey;
    }
  }

  /** A file is readable exactly when it is of another language or every key of it reads. */
  lemma ReadableExact(f: FileSurface)
    ensures Readable(f) <==>
            !f.language.TypeScript?
            || forall i :: 0 <= i < |f.fingerprints| ==>
               ParseKey(f.fingerprints[i].0).Some? && ParseKey(f.fingerprints[i].0).value != []
  {
    ReadableUpTo(f, |f.fingerprints|);
  }

  lemma {:induction false} ReadableUpTo(f: FileSurface, n: nat)
    requires n <= |f.fingerprints|
    ensures SpecifiersUpTo(f, n).Some? <==>
            forall i :: 0 <= i < n ==> ParseKey(f.fingerprints[i].0).Some? && ParseKey(f.fingerprints[i].0).value != []
  {
    hide ParseKey;
    if n > 0 {
      ReadableUpTo(f, n - 1);
    }
  }

  lemma {:induction false} CandidatesMember(locate: Locator, path: string, specifiers: seq<string>, x: string)
    ensures x in CandidatesOf(locate, path, specifiers) <==>
            exists specifier :: specifier in specifiers && x in SpecifierCandidates(locate, path, specifier)
  {
    hide SpecifierCandidates;
    if specifiers != [] {
      CandidatesMember(locate, path, specifiers[..|specifiers| - 1], x);
      assert specifiers == specifiers[..|specifiers| - 1] + [specifiers[|specifiers| - 1]];
    }
  }

  /** The candidates enumerated are exactly those of the specifiers some readable file augments. */
  lemma {:induction false} EnumerationExact(locate: Locator, files: seq<FileSurface>, x: string)
    ensures x in Enumeration(locate, files) <==>
            exists f, specifier :: f in files && Readable(f) && f.language.TypeScript? && Augments(f, specifier)
              && x in SpecifierCandidates(locate, f.path, specifier)
  {
    hide SpecifierCandidates, Augments, AugmentationSpecifiers;
    if files != [] {
      var before, last := files[..|files| - 1], files[|files| - 1];
      EnumerationExact(locate, before, x);
      assert files == before + [last];
      ReadableIs(last);
      if Readable(last) {
        CandidatesMember(locate, last.path, AugmentationSpecifiers(last).value, x);
        forall specifier
          ensures specifier in AugmentationSpecifiers(last).value <==>
                  last.language.TypeScript? && Augments(last, specifier)
        {
          SpecifiersExact(last, specifier);
        }
      }
      hide Readable, CandidatesOf;
    }
  }

  // ----- what a truncated closure leaves unnamed ------------------------------

  /** The specifier has a candidate the request does not cover. */
  predicate Uncovered(locate: Locator, path: string, specifier: string, covered: seq<string>) {
    exists i :: 0 <= i < |SpecifierCandidates(locate, path, specifier)|
      && SpecifierCandidates(locate, path, specifier)[i] !in covered
  }

  function UnenumeratedIn(locate: Locator, path: string, specifiers: seq<string>, covered: seq<string>): set<string> {
    set i | 0 <= i < |specifiers| && Uncovered(locate, path, specifiers[i], covered) :: specifiers[i]
  }

  function Unenumerated(locate: Locator, files: seq<FileSurface>, covered: seq<string>): set<string> {
    if files == [] then {}
    else
      var f := files[|files| - 1];
      Unenumerated(locate, files[..|files| - 1], covered)
      + if Readable(f) then UnenumeratedIn(locate, f.path, AugmentationSpecifiers(f).value, covered) else {}
  }

  /** The specifiers left unfinished are exactly those some readable file augments and of which a
      candidate is not covered. */
  lemma {:induction false} UnenumeratedExact(locate: Locator, files: seq<FileSurface>, covered: seq<string>,
                                             specifier: string)
    ensures specifier in Unenumerated(locate, files, covered) <==>
            exists f, x :: f in files && Readable(f) && f.language.TypeScript? && Augments(f, specifier)
              && x in SpecifierCandidates(locate, f.path, specifier) && x !in covered
  {
    hide SpecifierCandidates, Augments, AugmentationSpecifiers;
    if files != [] {
      var before, last := files[..|files| - 1], files[|files| - 1];
      UnenumeratedExact(locate, before, covered, specifier);
      assert files == before + [last];
      ReadableIs(last);
      if Readable(last) {
        SpecifiersExact(last, specifier);
        var own := AugmentationSpecifiers(last).value;
        assert specifier in UnenumeratedIn(locate, last.path, own, covered) <==>
               specifier in own && Uncovered(locate, last.path, specifier, covered);
      }
      hide Readable, UnenumeratedIn;
    }
  }

  /** A truncated request always names some specifier it did not finish. */
  lemma TruncationIsNamed(locate: Locator, files: seq<FileSurface>)
    requires Bounded(Enumeration(locate, files)).truncated
    ensures Unenumerated(locate, files, Bounded(Enumeration(locate, files)).candidates) != {}
  {
    hide Bounded, Enumeration, Unenumerated, SpecifierCandidates, Augments, Readable;
    RequestExact(locate, files);
    var e := Enumeration(locate, files);
    var x :| x in e && x !in Bounded(e).candidates;
    EnumerationExact(locate, files, x);
    var f, specifier :| f in files && Readable(f) && f.language.TypeScript? && Augments(f, specifier)
                        && x in SpecifierCandidates(locate, f.path, specifier);
    UnenumeratedExact(locate, files, Bounded(e).candidates, specifier);
  }

  // ----- the read plan -------------------------------------------------------

  datatype Revision = MergeBase | BranchHead

  datatype Blob = Blob(revision: Revision, path: string)

  datatype ReadOutcome = Absent | Fault | Found(surface: FileSurface)

  /** The surfaces found among the paths at one revision, in order. */
  function FoundAt(read: Blob -> ReadOutcome, revision: Revision, paths: seq<string>): seq<FileSurface> {
    if paths == [] then []
    else
      var last := read(Blob(revision, paths[|paths| - 1]));
      FoundAt(read, revision, paths[..|paths| - 1]) + if last.Found? then [last.surface] else []
  }

  /** The candidates that are not changed paths, in order. */
  function Unchanged(candidates: seq<string>, paths: seq<string>): (r: seq<string>)
    ensures |r| <= |candidates| && forall x :: x in r ==> x in candidates && x !in paths
  {
    if candidates == [] then []
    else
      var last := candidates[|candidates| - 1];
      Unchanged(candidates[..|candidates| - 1], paths) + if last in paths then [] else [last]
  }

  /** Every changed path at the merge base and at the branch head, in turn. */
  function ChangedReads(paths: seq<string>): (r: seq<Blob>)
    ensures |r| == 2 * |paths|
    ensures forall k :: 0 <= k < |paths| ==>
            r[2 * k] == Blob(MergeBase, paths[k]) && r[2 * k + 1] == Blob(BranchHead, paths[k])
  {
    if paths == [] then []
    else
      var last := paths[|paths| - 1];
      ChangedReads(paths[..|paths| - 1]) + [Blob(MergeBase, last), Blob(BranchHead, last)]
  }

  function AtMergeBase(paths: seq<string>): (r: seq<Blob>)
    ensures |r| == |paths| && forall k :: 0 <= k < |paths| ==> r[k] == Blob(MergeBase, paths[k])
  {
    if paths == [] then [] else AtMergeBase(paths[..|paths| - 1]) + [Blob(MergeBase, paths[|paths| - 1])]
  }

  predicate AnyFault(read: Blob -> ReadOutcome, log: seq<Blob>) {
    exists i :: 0 <= i < |log| && read(log[i]).Fault?
  }

  lemma FaultSnoc(read: Blob -> ReadOutcome, log: seq<Blob>, blob: Blob)
    ensures AnyFault(read, log + [blob]) <==> AnyFault(read, log) || read(blob).Fault?
  {
    var all := log + [blob];
    assert all[|log|] == blob && forall i :: 0 <= i < |log| ==> all[i] == log[i];
  }

  method ReadChanged(read: Blob -> ReadOutcome, paths: seq<string>)
    returns (log: seq<Blob>, bases: seq<FileSurface>, heads: seq<FileSurface>, faulted: bool)
    ensures log == ChangedReads(paths)
    ensures bases == FoundAt(read, MergeBase, paths) && heads == FoundAt(read, BranchHead, paths)
    ensures faulted == AnyFault(read, log)
  {
    hide AnyFault;
    log, bases, heads, faulted := [], [], [], false;
    NoFault(read);
    for i := 0 to |paths|
      invariant log == ChangedReads(paths[..i])
      invariant bases == FoundAt(read, MergeBase, paths[..i]) && heads == FoundAt(read, BranchHead, paths[..i])
      invariant faulted == AnyFault(read, log)
    {
      assert paths[..i + 1][..i] == paths[..i];
      var before, after := Blob(MergeBase, paths[i]), Blob(BranchHead, paths[i]);
      FaultSnoc(read, log, before);
      FaultSnoc(read, log + [before], after);
      assert log + [before, after] == log + [before] + [after];
      log := log + [before, after];
      if read(before).Found? {
        bases := bases + [read(before).surface];
      }
      if read(after).Found? {
        heads := heads + [read(after).surface];
      }
      faulted := faulted || read(before).Fault? || read(after).Fault?;
    }
    assert paths[..|paths|] == paths;
  }

  lemma NoFault(read: Blob -> ReadOutcome)
    ensures !AnyFault(read, [])
  {
  }

  method ReadClosure(read: Blob -> ReadOutcome, candidates: seq<string>, paths: seq<string>, done: seq<Blob>)
    returns (log: seq<Blob>, closure: seq<FileSurface>, faulted: bool)
    ensures var more := Unchanged(candidates, paths);
            && log == done + AtMergeBase(more) && closure == FoundAt(read, MergeBase, more)
            && faulted == AnyFault(read, log)
  {
    hide AnyFault, FoundAt, AtMergeBase, Unchanged;
    log, closure := done, [];
    faulted := AnyFault(read, done);
    NothingRead(read, paths);
    assert candidates[..0] == [] && done + [] == done;
    for i := 0 to |candidates|
      invariant log == done + AtMergeBase(Unchanged(candidates[..i], paths))
      invariant closure == FoundAt(read, MergeBase, Unchanged(candidates[..i], paths))
      invariant faulted == AnyFault(read, log)
    {
      UnchangedSnoc(candidates, paths, i);
      if candidates[i] !in paths {
        var blob := Blob(MergeBase, candidates[i]);
        OneMoreRead(read, Unchanged(candidates[..i], paths), candidates[i]);
        FaultSnoc(read, log, blob);
        assert log + [blob] == done + (AtMergeBase(Unchanged(candidates[..i], paths)) + [blob]);
        log := log + [blob];
        if read(blob).Found? {
          closure := closure + [read(blob).surface];
        }
        faulted := faulted || read(blob).Fault?;
      }
    }
    assert candidates[..|candidates|] == candidates;
  }

  lemma NothingRead(read: Blob -> ReadOutcome, paths: seq<string>)
    ensures Unchanged([], paths) == [] && AtMergeBase([]) == [] && FoundAt(read, MergeBase, []) == []
  {
  }

  lemma UnchangedSnoc(candidates: seq<string>, paths: seq<string>, i: nat)
    requires i < |candidates|
    ensures Unchanged(candidates[..i + 1], paths) ==
            if candidates[i] in paths then Unchanged(candidates[..i], paths)
            else Unchanged(candidates[..i], paths) + [candidates[i]]
  {
    assert candidates[..i + 1][..i] == candidates[..i];
    assert Unchanged(candidates[..i], paths) + [] == Unchanged(candidates[..i], paths);
  }

  lemma OneMoreRead(read: Blob -> ReadOutcome, done: seq<string>, path: string)
    ensures AtMergeBase(done + [path]) == AtMergeBase(done) + [Blob(MergeBase, path)]
    ensures FoundAt(read, MergeBase, done + [path]) ==
            if read(Blob(MergeBase, path)).Found?
              then FoundAt(read, MergeBase, done) + [read(Blob(MergeBase, path)).surface]
            else FoundAt(read, MergeBase, done)
  {
    assert (done + [path])[..|done|] == done;
    assert FoundAt(read, MergeBase, done) + [] == FoundAt(read, MergeBase, done);
  }

  /** The reads of a fold: every changed path at both revisions, then every closure candidate
      that is not itself a changed path, at the merge base only; and what they found. */
  method FoldReads(locate: Locator, read: Blob -> ReadOutcome, paths: seq<string>)
    returns (log: seq<Blob>, bases: seq<FileSurface>, heads: seq<FileSurface>, request: Option<Request>,
             closure: seq<FileSurface>, faulted: bool)
    ensures bases == FoundAt(read, MergeBase, paths) && heads == FoundAt(read, BranchHead, paths)
    ensures request.None? <==>
            exists i :: 0 <= i < |heads| && !Readable(heads[i]) && !Bounded(Enumeration(locate, heads[..i])).truncated
    ensures request.None? ==> log == ChangedReads(paths) && closure == []
    ensures request.Some? ==>
              && request.value == Bounded(Enumeration(locate, heads))
              && var more := Unchanged(request.value.candidates, paths);
                 log == ChangedReads(paths) + AtMergeBase(more) && closure == FoundAt(read, MergeBase, more)
    ensures faulted == AnyFault(read, log)
    ensures |log| <= 2 * |paths| + 256
  {
    hide Bounded, Enumeration, Readable, AnyFault, FoundAt;
    log, bases, heads, faulted := ReadChanged(read, paths);
    closure := [];
    request := ClosureRequest(locate, heads);
    if request.Some? {
      RequestExact(locate, heads);
      log, closure, faulted := ReadClosure(read, request.value.candidates, paths, log);
    }
  }
}
