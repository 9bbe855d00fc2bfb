/** Wire records as the carrier delivers them, and the canonical form under which two
    copies of a record count as identical. */
module Wire {
  import opened Wrappers
  import opened Text

  /** One JSON value. `Other` is any value that is neither absent, a string nor an
      integer; `text` is what printing it yields (empty for a falsy value). */
  datatype Value = Null | Str(s: string) | Int(n: int) | Other(text: string)

  /** A wire event is an untyped mapping, exactly as it is read from the carrier. */
  type Wire = map<string, Value>

  function Get(ev: Wire, field: string): Value {
    if field in ev then ev[field] else Null
  }

  function IntText(n: int): string {
    if n < 0 then "-" + Decimal(-n) else Decimal(n)
  }

  function ValueText(v: Value): string {
    match v
    case Null => "None"
    case Str(s) => s
    case Int(n) => IntText(n)
    case Other(text) => text
  }

  /** The base an event is accounted to before it has been validated. */
  function BaseHint(ev: Wire): string {
    var v := Get(ev, "base_key");
    if v == Null || v == Int(0) then "" else ValueText(v)
  }

  /** The value of a field that must be non-empty newline-free text. */
  function TextField(ev: Wire, field: string): Option<Text> {
    var v := Get(ev, field);
    if v.Str? && v.s != "" && NewlineFree(v.s) then Some(v.s) else None
  }

  // ----- halts and rules ---------------------------------------------------------

  datatype Code =
    | SchemaMajorUnknown
    | IllegalTransition
    | EventPayloadDivergent
    | RecoveryCeiling
    | HoldAdmissionCeiling
    | EpochGap
    | EpochFork

  datatype CredentialMode = Shared | Separated

  /** What record validation needs from outside the stream: `hash` stands for SHA-256,
      `validTs` for the RFC 3339 check, and `checkSingle` for the field validation of the
      records that neither machine reduces (None: valid). */
  datatype Rules = Rules(
    hash: Digest,
    validTs: string -> bool,
    checkSingle: Wire -> Option<Code>)

  // ----- derived identifiers -------------------------------------------------

  /** The preimage lines of a derived event id, absent when the record's trigger is not
      a derived kind or one of the components is missing. */
  function DerivedLines(ev: Wire): Option<seq<string>> {
    var trigger := Get(ev, "trigger_event");
    if trigger == Str("crash_recovery") then
      if Get(ev, "base_key") == Null || Get(ev, "movement_id") == Null then None
      else Some(RecoveryLines(ValueText(Get(ev, "base_key")), ValueText(Get(ev, "movement_id"))))
    else if trigger == Str("actor_verified_match") then
      if Get(ev, "base_key") == Null || Get(ev, "hold_id") == Null || Get(ev, "source_delivery_id") == Null then None
      else Some(ReleaseLines(ValueText(Get(ev, "base_key")), ValueText(Get(ev, "hold_id")),
                             ValueText(Get(ev, "source_delivery_id"))))
    else None
  }

  /** Whether the record's event_id is its own derivation. */
  predicate IsDerivedId(hash: Digest, ev: Wire) {
    var lines := DerivedLines(ev);
    lines.Some? && lines.value != [] && (forall i :: 0 <= i < |lines.value| ==> NewlineFree(lines.value[i])) &&
    Get(ev, "event_id") == Str(hash(Join(lines.value)))
  }

  const RECOVERY_CORE: set<string> :=
    {"family", "variant", "trigger_event", "from", "to", "base_key", "movement_id", "hold_id",
     "source_delivery_id", "disposition", "hold_effect"}

  const RELEASE_CORE: set<string> :=
    {"family", "variant", "trigger_event", "from", "to", "base_key", "movement_id", "hold_id",
     "source_delivery_id", "disposition", "epoch_before", "epoch_after", "ref", "mode",
     "matched_subject_digest", "matched_movement_id", "actor_node_id", "actor_verification"}

  function Restrict(ev: Wire, fields: set<string>): Wire {
    map f | f in ev && f in fields :: ev[f]
  }

  /** What two copies sharing an event id must agree on: for a derived id the fields its
      honest issuers cannot disagree about, otherwise everything but the carrier. */
  function Canonical(hash: Digest, ev: Wire): Wire {
    if IsDerivedId(hash, ev) then
      Restrict(ev, if Get(ev, "trigger_event") == Str("crash_recovery") then RECOVERY_CORE else RELEASE_CORE)
    else
      ev - {"branch"}
  }

  /** Copies with one canonical form belong to one base, so deduplication never crosses
      bases on identical copies. */
  lemma CanonicalFixesBase(hash: Digest, x: Wire, y: Wire)
    requires Canonical(hash, x) == Canonical(hash, y)
    ensures Get(x, "base_key") == Get(y, "base_key")
    ensures BaseHint(x) == BaseHint(y)
  {
    assert Get(Canonical(hash, x), "base_key") == Get(x, "base_key");
    assert Get(Canonical(hash, y), "base_key") == Get(y, "base_key");
  }
}
