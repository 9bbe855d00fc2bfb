/** TypeScript symbol keys: the printer, and the escape-aware parser that inverts it. */
module Keys {
  import opened Wrappers

  /** A tagged piece of a symbol's name. */
  datatype Segment = Segment(tag: char, text: string)

  const TS_KEY_TAGS: set<char> := {'i', 's', 'c', 'k'}

  predicate Printable(segments: seq<Segment>) {
    segments != [] && forall i :: 0 <= i < |segments| ==> segments[i].tag in TS_KEY_TAGS && segments[i].text != ""
  }

  function Escape(text: string): string {
    if text == "" then ""
    else (if text[0] == '\\' || text[0] == '/' then ['\\', text[0]] else [text[0]]) + Escape(text[1..])
  }

  function PrintSegment(s: Segment): string {
    [s.tag, ':'] + Escape(s.text)
  }

  function Print(segments: seq<Segment>): string
    requires segments != []
  {
    if |segments| == 1 then PrintSegment(segments[0])
    else PrintSegment(segments[0]) + "/" + Print(segments[1..])
  }

  /** The printer refuses an empty list, an unknown tag and an empty text. */
  function TsSymbolKey(segments: seq<Segment>): Option<string> {
    if Printable(segments) then Some(Print(segments)) else None
  }

  // ----- splitting -----------------------------------------------------------

  /** The unescaped parts between unescaped slashes; None at a dangling escape. */
  function SplitParts(key: string): (parts: Option<seq<string>>)
    ensures parts.Some? ==> parts.value != []
  {
    if key == "" then Some([""])
    else if key[0] == '\\' then
      if |key| < 2 then None else Prefixed([key[1]], SplitParts(key[2..]))
    else if key[0] == '/' then
      NextOf(SplitParts(key[1..]))
    else Prefixed([key[0]], SplitParts(key[1..]))
  }

  /** A finished, still empty part in front of the others. */
  function NextOf(parts: Option<seq<string>>): (r: Option<seq<string>>)
    ensures r.Some? ==> r.value != []
  {
    match parts
    case Some(ps) => Some([""] + ps)
    case None => None
  }

  /** `text` put in front of the first part. */
  function Prefixed(text: string, parts: Option<seq<string>>): (r: Option<seq<string>>)
    requires parts.Some? ==> parts.value != []
    ensures r.Some? ==> r.value != []
  {
    match parts
    case Some(ps) => Some([text + ps[0]] + ps[1..])
    case None => None
  }

  predicate WellFormed(part: string) {
    |part| >= 3 && part[1] == ':' && part[0] in TS_KEY_TAGS
  }

  function SegmentsOf(parts: seq<string>): Option<seq<Segment>> {
    if parts == [] then Some([])
    else
      var init, last := SegmentsOf(parts[..|parts| - 1]), parts[|parts| - 1];
      if init.Some? && WellFormed(last) then Some(init.value + [Segment(last[0], last[2..])]) else None
  }

  function ParseKey(key: string): Option<seq<Segment>> {
    var parts := SplitParts(key);
    if parts.None? then None else SegmentsOf(parts.value)
  }

  // ----- the parser as a loop ------------------------------------------------

  lemma PrefixedTwice(a: string, b: string, parts: Option<seq<string>>)
    requires parts.Some? ==> parts.value != []
    ensures Prefixed(a, Prefixed(b, parts)) == Prefixed(a + b, parts)
  {
    if parts.Some? {
      assert a + (b + parts.value[0]) == (a + b) + parts.value[0];
    }
  }

  function After(done: seq<string>, rest: Option<seq<string>>): Option<seq<string>> {
    if rest.None? then None else Some(done + rest.value)
  }

  /** The key split at its unescaped slashes; every index it reads is in bounds. */
  method Split(key: string) returns (r: Option<seq<string>>)
    ensures r == SplitParts(key)
  {
    hide SplitParts, After, Prefixed;
    var parts: seq<string>, text, index := [], "", 0;
    EmptyPrefix(SplitParts(key));
    assert key[0..] == key;
    while index < |key|
      invariant 0 <= index <= |key|
      invariant SplitParts(key) == After(parts, Prefixed(text, SplitParts(key[index..])))
    {
      var c := key[index];
      SplitStep(key[index..]);
      if c == '\\' {
        if index + 1 >= |key| {
          Dangling(parts, text);
          return None;
        }
        assert key[index..][2..] == key[index + 2..];
        PrefixedTwice(text, [key[index + 1]], SplitParts(key[index + 2..]));
        text := text + [key[index + 1]];
        index := index + 2;
      } else if c == '/' {
        assert key[index..][1..] == key[index + 1..];
        NextPart(parts, text, SplitParts(key[index + 1..]));
        parts := parts + [text];
        text := "";
        index := index + 1;
      } else {
        assert key[index..][1..] == key[index + 1..];
        PrefixedTwice(text, [c], SplitParts(key[index + 1..]));
        text := text + [c];
        index := index + 1;
      }
    }
    assert key[index..] == "";
    LastPart(parts, text);
    r := Some(parts + [text]);
  }

  lemma SplitStep(rest: string)
    requires rest != ""
    ensures SplitParts(rest) ==
            if rest[0] == '\\' then if |rest| < 2 then None else Prefixed([rest[1]], SplitParts(rest[2..]))
            else if rest[0] == '/' then NextOf(SplitParts(rest[1..]))
            else Prefixed([rest[0]], SplitParts(rest[1..]))
  {
  }

  lemma Dangling(done: seq<string>, text: string)
    ensures After(done, Prefixed(text, None)) == None
  {
  }

  /** The key's segments, or None where the source refuses. */
  method TsKeySegments(key: string) returns (r: Option<seq<Segment>>)
    ensures r == ParseKey(key)
  {
    hide SplitParts;
    var split := Split(key);
    if split.None? {
      return None;
    }
    var parts := split.value;
    var segments: seq<Segment> := [];
    for i := 0 to |parts|
      invariant SegmentsOf(parts[..i]) == Some(segments)
    {
      var part := parts[i];
      assert parts[..i + 1][..i] == parts[..i];
      if |part| < 3 || part[1] != ':' || part[0] !in TS_KEY_TAGS {
        OneMalformed(parts, i);
        return None;
      }
      segments := segments + [Segment(part[0], part[2..])];
    }
    assert parts[..|parts|] == parts;
    r := Some(segments);
  }

  lemma EmptyPrefix(parts: Option<seq<string>>)
    requires parts.Some? ==> parts.value != []
    ensures After([], Prefixed("", parts)) == parts
  {
    if parts.Some? {
      assert "" + parts.value[0] == parts.value[0];
      assert [parts.value[0]] + parts.value[1..] == parts.value;
      assert [] + parts.value == parts.value;
    }
  }

  lemma LastPart(done: seq<string>, text: string)
    ensures After(done, Prefixed(text, SplitParts(""))) == Some(done + [text])
  {
    assert text + "" == text;
    assert [text] + [""][1..] == [text];
  }

  lemma NextPart(done: seq<string>, text: string, parts: Option<seq<string>>)
    requires parts.Some? ==> parts.value != []
    ensures After(done, Prefixed(text, NextOf(parts)))
            == After(done + [text], Prefixed("", parts))
  {
    if parts.Some? {
      assert ([""] + parts.value)[1..] == parts.value;
      assert [parts.value[0]] + parts.value[1..] == parts.value;
      assert text + "" == text && "" + parts.value[0] == parts.value[0];
      assert done + ([text] + parts.value) == (done + [text]) + parts.value;
    }
  }

  // ----- refusal, exactly ----------------------------------------------------

  function TrailingBackslashes(key: string): nat {
    if key == "" || key[|key| - 1] != '\\' then 0 else 1 + TrailingBackslashes(key[..|key| - 1])
  }

  lemma {:induction false} TrailingAfter(head: string, rest: string)
    ensures TrailingBackslashes(head + rest) ==
            TrailingBackslashes(rest) + if TrailingBackslashes(rest) == |rest| then TrailingBackslashes(head) else 0
  {
    if rest == "" {
      assert head + rest == head;
    } else {
      assert (head + rest)[..|head + rest| - 1] == head + rest[..|rest| - 1];
      TrailingAfter(head, rest[..|rest| - 1]);
    }
  }

  /** Splitting fails exactly on a key that ends in an odd run of backslashes. */
  lemma {:induction false} DanglingExact(key: string)
    ensures SplitParts(key).None? <==> TrailingBackslashes(key) % 2 == 1
  {
    if key != "" {
      if key[0] == '\\' && |key| >= 2 {
        DanglingExact(key[2..]);
        assert key == key[..2] + key[2..] && key[..2] == [key[0]] + [key[1]];
        TrailingAfter(key[..2], key[2..]);
        TrailingAfter([key[0]], [key[1]]);
      } else if key[0] == '\\' {
        assert key == ['\\'] && key[..0] == "";
      } else {
        DanglingExact(key[1..]);
        assert key == [key[0]] + key[1..];
        TrailingAfter([key[0]], key[1..]);
      }
    }
  }

  lemma {:induction false} SegmentsExact(parts: seq<string>)
    ensures SegmentsOf(parts).None? <==> exists i :: 0 <= i < |parts| && !WellFormed(parts[i])
    ensures SegmentsOf(parts).Some? ==>
              |SegmentsOf(parts).value| == |parts| &&
              forall i :: 0 <= i < |parts| ==> SegmentsOf(parts).value[i] == Segment(parts[i][0], parts[i][2..])
  {
    if parts != [] {
      var init := parts[..|parts| - 1];
      SegmentsExact(init);
      assert forall i :: 0 <= i < |init| ==> init[i] == parts[i];
    }
  }

  lemma OneMalformed(parts: seq<string>, i: nat)
    requires i < |parts| && !WellFormed(parts[i])
    ensures SegmentsOf(parts).None?
  {
    SegmentsExact(parts);
  }

  /** The parser refuses exactly a dangling escape or a part that is not one of the four tags, a
      colon and some text. */
  lemma RefusalExact(key: string)
    ensures ParseKey(key).None? <==>
            || TrailingBackslashes(key) % 2 == 1
            || (SplitParts(key).Some? && exists part ::
                  part in SplitParts(key).value
                    && (|part| < 3 || part[0] !in {'i', 's', 'c', 'k'} || part[1] != ':'))
  {
    DanglingExact(key);
    if SplitParts(key).Some? {
      SegmentsExact(SplitParts(key).value);
    }
  }

  function Escaped(c: char): string {
    if c == '/' || c == '\\' then ['\\', c] else [c]
  }

  lemma EscapeStep(text: string)
    requires text != ""
    ensures Escape(text) == Escaped(text[0]) + Escape(text[1..])
  {
  }

  lemma Associative(a: string, b: string, c: string)
    ensures a + (b + c) == (a + b) + c
  {
  }

  lemma {:induction false} EscapeJoin(a: string, b: string)
    ensures Escape(a + b) == Escape(a) + Escape(b)
  {
    if a == "" {
      assert a + b == b;
    } else {
      EscapeJoin(a[1..], b);
      EscapeStep(a + b);
      assert (a + b)[1..] == a[1..] + b;
      Associative(Escaped(a[0]), Escape(a[1..]), Escape(b));
    }
  }

  /** Escaping puts a backslash before each slash and each backslash, and changes nothing else. */
  lemma EscapeExact(head: string, c: char, tail: string)
    ensures Escape("") == ""
    ensures Escape(head + [c] + tail) == Escape(head) + Escaped(c) + Escape(tail)
  {
    EscapeJoin(head, [c]);
    EscapeJoin(head + [c], tail);
    assert Escape([c]) == Escaped(c);
  }

  // ----- round trip ----------------------------------------------------------

  lemma {:induction false} SplitEscaped(text: string, key: string)
    ensures SplitParts(Escape(text) + key) == Prefixed(text, SplitParts(key))
  {
    if text == "" {
      assert Escape(text) + key == key;
      if SplitParts(key).Some? {
        var ps := SplitParts(key).value;
        assert "" + ps[0] == ps[0] && [ps[0]] + ps[1..] == ps;
      }
    } else {
      var head := if text[0] == '\\' || text[0] == '/' then ['\\', text[0]] else [text[0]];
      assert Escape(text) + key == head + (Escape(text[1..]) + key);
      assert (Escape(text) + key)[|head|..] == Escape(text[1..]) + key;
      SplitEscaped(text[1..], key);
      PrefixedTwice([text[0]], text[1..], SplitParts(key));
      assert [text[0]] + text[1..] == text;
    }
  }

  /** A printed segment splits into its own part, unescaped. */
  lemma SplitPrinted(s: Segment, key: string)
    requires s.tag in TS_KEY_TAGS
    ensures SplitParts(PrintSegment(s) + key) == Prefixed([s.tag, ':'] + s.text, SplitParts(key))
  {
    hide SplitParts, Escape, Prefixed;
    var tail := Escape(s.text) + key;
    var k := PrintSegment(s) + key;
    assert k == [s.tag] + ([':'] + tail);
    assert k[1..] == [':'] + tail && k[1..][1..] == tail;
    SplitStep(k);
    SplitStep(k[1..]);
    SplitEscaped(s.text, key);
    PrefixedTwice([':'], s.text, SplitParts(key));
    PrefixedTwice([s.tag], [':'] + s.text, SplitParts(key));
    assert [s.tag] + ([':'] + s.text) == [s.tag, ':'] + s.text;
  }

  function PartOf(s: Segment): string {
    [s.tag, ':'] + s.text
  }

  function PartsOf(segments: seq<Segment>): seq<string> {
    if segments == [] then [] else [PartOf(segments[0])] + PartsOf(segments[1..])
  }

  lemma {:induction false} SplitOfPrint(segments: seq<Segment>)
    requires Printable(segments)
    ensures SplitParts(Print(segments)) == Some(PartsOf(segments))
  {
    var s := segments[0];
    if |segments| == 1 {
      SplitPrinted(s, "");
      assert PrintSegment(s) + "" == PrintSegment(s);
      assert PartOf(s) + "" == PartOf(s);
      assert PartsOf(segments) == [PartOf(s)];
    } else {
      SplitOfPrint(segments[1..]);
      var rest := "/" + Print(segments[1..]);
      assert rest[1..] == Print(segments[1..]);
      SplitPrinted(s, rest);
      assert PrintSegment(s) + "/" + Print(segments[1..]) == PrintSegment(s) + rest;
      var ps := PartsOf(segments[1..]);
      assert SplitParts(rest) == Some([""] + ps);
      assert ([""] + ps)[1..] == ps && PartOf(s) + "" == PartOf(s);
    }
  }

  lemma {:induction false} PartsOfAt(segments: seq<Segment>)
    ensures |PartsOf(segments)| == |segments|
    ensures forall i :: 0 <= i < |segments| ==> PartsOf(segments)[i] == PartOf(segments[i])
  {
    if segments != [] {
      PartsOfAt(segments[1..]);
    }
  }

  /** The parser inverts the printer, whatever slashes, backslashes and colons the texts
      contain. */
  lemma RoundTrip(segments: seq<Segment>, key: string)
    requires TsSymbolKey(segments) == Some(key)
    ensures ParseKey(key) == Some(segments)
  {
    SplitOfPrint(segments);
    PartsOfAt(segments);
    var parts := PartsOf(segments);
    forall i | 0 <= i < |parts| ensures WellFormed(parts[i]) && Segment(parts[i][0], parts[i][2..]) == segments[i] {
      assert parts[i] == PartOf(segments[i]);
      assert parts[i][2..] == segments[i].text;
    }
    SegmentsExact(parts);
    assert SegmentsOf(parts).value == segments;
  }

  /** So two symbols never share a key. */
  lemma PrintInjective(a: seq<Segment>, b: seq<Segment>)
    requires TsSymbolKey(a).Some? && TsSymbolKey(a) == TsSymbolKey(b)
    ensures a == b
  {
    RoundTrip(a, TsSymbolKey(a).value);
    RoundTrip(b, TsSymbolKey(b).value);
  }

  /** Whatever the parser accepts, the printer prints and the parser reads back: routing a
      parsed key's remaining segments never fails. */
  lemma ParsedIsPrintable(key: string)
    requires ParseKey(key).Some?
    ensures Printable(ParseKey(key).value)
    ensures |ParseKey(key).value| > 1 ==> Printable(ParseKey(key).value[1..])
  {
    SegmentsExact(SplitParts(key).value);
  }
}
