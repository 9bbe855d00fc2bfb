/** Newline-free text, decimal numerals, and the tagged newline-joined preimages
    that every derived identifier of the boundary protocol is a digest of. */
module Text {

  predicate NewlineFree(s: string) {
    '\n' !in s
  }

  /** A wire string that passed the field rules: non-empty and newline-free. */
  type Text = s: string | s != "" && NewlineFree(s) witness "x"

  /** An identifier that is only ever compared: hold, delivery and digest text. */
  type Id = string

  // ----- the join ------------------------------------------------------------

  function Join(lines: seq<string>): string
    requires lines != []
  {
    if |lines| == 1 then lines[0] else lines[0] + "\n" + Join(lines[1..])
  }

  ghost predicate AllNewlineFree(lines: seq<string>) {
    forall i :: 0 <= i < |lines| ==> NewlineFree(lines[i])
  }

  /** Two newline-free heads followed by a newline agree when the whole texts agree. */
  lemma HeadsAgree(a: string, x: string, b: string, y: string)
    requires NewlineFree(a) && NewlineFree(b)
    requires a + "\n" + x == b + "\n" + y
    ensures a == b && x == y
  {
    var s, t := a + "\n" + x, b + "\n" + y;
    assert s[|a|] == '\n' && t[|b|] == '\n';
    assert |a| == |b|;
    assert a == s[..|a|] == t[..|b|] == b;
    assert x == s[|a| + 1..] == t[|b| + 1..] == y;
  }

  lemma JoinHasNewline(lines: seq<string>)
    requires |lines| > 1
    ensures !NewlineFree(Join(lines))
  {
    assert Join(lines)[|lines[0]|] == '\n';
  }

  /** Joining is injective over newline-free lines, whatever their number. */
  lemma {:induction false} JoinInjective(a: seq<string>, b: seq<string>)
    requires a != [] && b != [] && AllNewlineFree(a) && AllNewlineFree(b)
    requires Join(a) == Join(b)
    ensures a == b
  {
    if |a| == 1 && |b| == 1 {
    } else if |a| == 1 {
      JoinHasNewline(b);
    } else if |b| == 1 {
      JoinHasNewline(a);
    } else {
      HeadsAgree(a[0], Join(a[1..]), b[0], Join(b[1..]));
      JoinInjective(a[1..], b[1..]);
      assert a == [a[0]] + a[1..];
      assert b == [b[0]] + b[1..];
    }
  }

  // ----- decimal numerals ----------------------------------------------------

  const DIGITS: string := "0123456789"

  function Decimal(n: nat): (s: string)
    ensures s != "" && NewlineFree(s)
    ensures n < 10 <==> |s| == 1
  {
    if n < 10 then [DIGITS[n]] else Decimal(n / 10) + [DIGITS[n % 10]]
  }

  lemma {:induction false} DecimalInjective(m: nat, n: nat)
    requires Decimal(m) == Decimal(n)
    ensures m == n
  {
    if m < 10 {
      assert Decimal(m)[0] == DIGITS[m];
    } else {
      var s, t := Decimal(m / 10), Decimal(n / 10);
      assert s == Decimal(m)[..|Decimal(m)| - 1] == t;
      assert Decimal(m)[|s|] == DIGITS[m % 10];
      assert Decimal(n)[|t|] == DIGITS[n % 10];
      DecimalInjective(m / 10, n / 10);
    }
  }

  // ----- preimages -----------------------------------------------------------

  /** A digest function over preimage text. */
  type Digest = string -> string

  /** Collision freedom, assumed only where a lemma names it. */
  ghost predicate Injective(hash: Digest) {
    forall p, q :: hash(p) == hash(q) ==> p == q
  }

  function HoldLines(base: string, ref: string, old_: string, new_: string, occurrence: nat): seq<string> {
    ["base=" + base, "ref=" + ref, "old=" + old_, "new=" + new_, "seq=" + Decimal(occurrence)]
  }

  function RecoveryLines(base: string, movement: string): seq<string> {
    ["recovery=crash_recovery", "base=" + base, "movement=" + movement]
  }

  function ReleaseLines(base: string, hold: string, delivery: string): seq<string> {
    ["release=actor_verified_match", "base=" + base, "hold=" + hold, "delivery=" + delivery]
  }

  function SubjectLines(base: string, ref: string, old_: string, new_: string): seq<string> {
    ["subject-base=" + base, "subject-ref=" + ref, "subject-old=" + old_, "subject-new=" + new_]
  }

  function DeriveHoldId(hash: Digest, base: string, ref: string, old_: string, new_: string, occurrence: nat): Id {
    hash(Join(HoldLines(base, ref, old_, new_, occurrence)))
  }

  function DeriveRecoveryEventId(hash: Digest, base: string, movement: string): Id {
    hash(Join(RecoveryLines(base, movement)))
  }

  function DeriveMatchedDeltaDigest(hash: Digest, base: string, ref: string, old_: string, new_: string): Id {
    hash(Join(SubjectLines(base, ref, old_, new_)))
  }

  /** The texts that a hold id and a delta digest are digests of. */
  lemma PreimageTexts(base: string, ref: string, old_: string, new_: string, k: nat)
    ensures Join(HoldLines(base, ref, old_, new_, k)) ==
            "base=" + base + "\n" + ("ref=" + ref + "\n" + ("old=" + old_ + "\n"
              + ("new=" + new_ + "\n" + ("seq=" + Decimal(k)))))
    ensures Join(SubjectLines(base, ref, old_, new_)) ==
            "subject-base=" + base + "\n" + ("subject-ref=" + ref + "\n" + ("subject-old=" + old_ + "\n"
              + ("subject-new=" + new_)))
  {
    var p, q := HoldLines(base, ref, old_, new_, k), SubjectLines(base, ref, old_, new_);
    JoinFour(p[1], p[2], p[3], p[4]);
    assert p[1..] == [p[1], p[2], p[3], p[4]];
    JoinFour(q[0], q[1], q[2], q[3]);
    assert q == [q[0], q[1], q[2], q[3]];
  }

  lemma JoinFour(a: string, b: string, c: string, d: string)
    ensures Join([a, b, c, d]) == a + "\n" + (b + "\n" + (c + "\n" + d))
  {
    assert [a, b, c, d][1..] == [b, c, d] && [b, c, d][1..] == [c, d] && [c, d][1..] == [d];
    assert Join([c, d]) == c + "\n" + d;
    assert Join([b, c, d]) == b + "\n" + (c + "\n" + d);
  }

  lemma TagInjective(tag: string, x: string, y: string)
    requires tag + x == tag + y
    ensures x == y
  {
    assert x == (tag + x)[|tag|..];
    assert y == (tag + y)[|tag|..];
  }

  /** A hold id names exactly one (base, ref, old, new, occurrence). */
  lemma HoldIdInjective(hash: Digest,
                        b: string, r: string, o: string, n: string, k: nat,
                        b': string, r': string, o': string, n': string, k': nat)
    requires Injective(hash)
    requires NewlineFree(b) && NewlineFree(r) && NewlineFree(o) && NewlineFree(n)
    requires NewlineFree(b') && NewlineFree(r') && NewlineFree(o') && NewlineFree(n')
    requires DeriveHoldId(hash, b, r, o, n, k) == DeriveHoldId(hash, b', r', o', n', k')
    ensures b == b' && r == r' && o == o' && n == n' && k == k'
  {
    var p, q := HoldLines(b, r, o, n, k), HoldLines(b', r', o', n', k');
    JoinInjective(p, q);
    assert p[0] == q[0] && p[1] == q[1] && p[2] == q[2] && p[3] == q[3] && p[4] == q[4];
    TagInjective("base=", b, b');
    TagInjective("ref=", r, r');
    TagInjective("old=", o, o');
    TagInjective("new=", n, n');
    TagInjective("seq=", Decimal(k), Decimal(k'));
    DecimalInjective(k, k');
  }

  /** A recovery event id names exactly one (base, movement). */
  lemma RecoveryIdInjective(hash: Digest, b: string, m: string, b': string, m': string)
    requires Injective(hash)
    requires NewlineFree(b) && NewlineFree(m) && NewlineFree(b') && NewlineFree(m')
    requires DeriveRecoveryEventId(hash, b, m) == DeriveRecoveryEventId(hash, b', m')
    ensures b == b' && m == m'
  {
    var p, q := RecoveryLines(b, m), RecoveryLines(b', m');
    JoinInjective(p, q);
    assert p[1] == q[1] && p[2] == q[2];
    TagInjective("base=", b, b');
    TagInjective("movement=", m, m');
  }
}
