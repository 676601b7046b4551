/** The policy block of the configuration: trust, thresholds per confidence source, pass basis, floor and budget. */
module ProofConfig {
  import opened ProofFormat
  import opened Wrappers

  datatype Trust = Signed | Local

  /** The severity an escalating finding is given where nothing overrides it. */
  datatype EscalationMode = EscalateToError | EscalateToWarning

  datatype PassBasis = ExecutedOnly | Corroborated | JudgedBasis
  {
    function Leniency(): nat {
      match this
      case ExecutedOnly => 0
      case Corroborated => 1
      case JudgedBasis => 2
    }
  }

  const EXECUTION := "execution"
  const HOST_VOTES := "host-votes"
  const SYSTEM_ONE := "system-one"
  const LARGEST_INT := 0x7FFF_FFFF_FFFF_FFFF

  function DigitsValue(digits: string): int {
    if digits == [] then 0
    else 10 * DigitsValue(digits[..|digits| - 1]) + (digits[|digits| - 1] as int - '0' as int)
  }

  /** The text reads as a machine integer of at least one vote. */
  predicate CountsVotes(text: string) {
    var digits := if text != [] && text[0] == '+' then text[1..] else text;
    digits != [] && (forall c | c in digits :: '0' <= c <= '9') && 1 <= DigitsValue(digits) <= LARGEST_INT
  }

  /** Well-formed sources: execution, host-votes(k) with k a vote count, system-one:detail with some detail. */
  predicate IsKnownSource(source: string) {
    if source == EXECUTION then true
    else if HOST_VOTES + "(" <= source && source[|source| - 1] == ')' then
      CountsVotes(source[|HOST_VOTES| + 1..|source| - 1])
    else SYSTEM_ONE + ":" < source
  }

  function UpToDetail(source: string): string {
    if source == [] || source[0] == '(' || source[0] == ':' then [] else [source[0]] + UpToDetail(source[1..])
  }

  /** What stands before the detail of a well-formed source, and nothing for any other text. */
  function SourceKind(source: string): Option<string> {
    if IsKnownSource(source) then Some(UpToDetail(source)) else None
  }

  datatype Threshold = Threshold(default_: real, bySource: map<string, real>)
  {
    /** The most specific entry there is. */
    function For(source: string): real {
      if source in bySource then bySource[source]
      else
        var kind := SourceKind(source);
        if kind.Some? && kind.value in bySource then bySource[kind.value] else default_
    }
  }

  /** The loader of a configuration rejects any threshold beyond these bounds. */
  predicate InBounds(threshold: Threshold) {
    && 0.0 <= threshold.default_ <= 1.0
    && forall source | source in threshold.bySource :: 0.0 <= threshold.bySource[source] <= 1.0
  }

  /** The floor of a configuration that sets none. */
  const DEFAULT_MIN_ISOLATION := Restricted

  datatype Config = Config(
    require: seq<Kind>, trust: Trust, validity: Threshold, alignment: Threshold, escalation: EscalationMode,
    signedPassBasis: PassBasis, minIsolation: Isolation, maxHostExclusions: int)
  {
    predicate Requires(kind: Kind) {
      kind in require
    }

    /** The configured basis, which only signed trust enforces. */
    function Basis(): PassBasis {
      if trust.Local? then JudgedBasis else signedPassBasis
    }

    predicate AboveFloor(executor: Executor) {
      executor.isolation.AtLeast(minIsolation)
    }
  }

  /** No confidence source has a higher threshold, however the two tables come to theirs. */
  ghost predicate LoweredThresholds(strict: Threshold, relaxed: Threshold) {
    forall source: string :: relaxed.For(source) <= strict.For(source)
  }

  /** relaxed admits at least the evidence strict admits, about the same proofs. */
  ghost predicate Relaxes(strict: Config, relaxed: Config) {
    && relaxed.require == strict.require
    && relaxed.trust == strict.trust
    && LoweredThresholds(strict.validity, relaxed.validity)
    && LoweredThresholds(strict.alignment, relaxed.alignment)
    && strict.signedPassBasis.Leniency() <= relaxed.signedPassBasis.Leniency()
    && relaxed.minIsolation.Strength() <= strict.minIsolation.Strength()
    && strict.maxHostExclusions <= relaxed.maxHostExclusions
  }
}
