/** What the proof policy observes about a criterion, and how observations compose into an outcome. */
module GateFindings {

  /** The categories of a proof finding. */
  datatype Category =
    | StaleProof
    | MalformedProof
    | CorrectCodeFails
    | SurvivingValidMutant
    | NoValidMutant
    | NoKilledValidMutant
    | EscalatedMutant
    | MisalignedTest
    | MutationSensitiveTest
    | ExampleFails
    | CompletenessQuestion
    | AwaitingHost
    | AwaitingProof
    | AwaitingHostJudgment
    | HostUnresponsive

  /** What a finding does to an outcome: nothing, escalate it or block it. */
  datatype Effect = EffectBlock | EffectEscalate | EffectInform

  /** What the message of a finding names beside the criterion. */
  datatype Topic = NoTopic | OfMutant(digest: string) | OfTest(name: string) | OfTests(names: seq<string>)
                 | OfExample(index: int) | OfFile(path: string) | OfQuestion(text: string)

  /** The producer is the module a finding concerns; one about the verified set itself has none and no requirement. */
  datatype Finding = Finding(category: Category, effect: Effect, producer: string, requirementId: string, topic: Topic)

  datatype Outcome = Pass | Escalate | Block
  {
    function Rank(): nat {
      match this
      case Pass => 0
      case Escalate => 1
      case Block => 2
    }
  }

  ghost predicate HasEffect(findings: seq<Finding>, effect: Effect) {
    exists finding | finding in findings :: finding.effect == effect
  }

  /** The strongest effect among the findings. */
  ghost function Strongest(findings: seq<Finding>): Outcome {
    if HasEffect(findings, EffectBlock) then Block
    else if HasEffect(findings, EffectEscalate) then Escalate
    else Pass
  }

  method OutcomeOf(findings: seq<Finding>) returns (outcome: Outcome)
    ensures outcome == Strongest(findings)
  {
    outcome := Pass;
    for i := 0 to |findings|
      invariant !HasEffect(findings[..i], EffectBlock)
      invariant outcome == Strongest(findings[..i])
    {
      assert findings[..i + 1] == findings[..i] + [findings[i]];
      HasEffectConcat(findings[..i], [findings[i]], EffectBlock);
      HasEffectConcat(findings[..i], [findings[i]], EffectEscalate);
      match findings[i].effect {
        case EffectBlock =>
          assert findings[i] in findings;
          return Block;
        case EffectEscalate =>
          assert findings[i] in [findings[i]];
          outcome := Escalate;
        case EffectInform =>
      }
    }
    assert findings[..|findings|] == findings;
  }

  lemma HasEffectConcat(xs: seq<Finding>, ys: seq<Finding>, effect: Effect)
    ensures HasEffect(xs + ys, effect) <==> HasEffect(xs, effect) || HasEffect(ys, effect)
  {
    if finding :| finding in xs && finding.effect == effect {
      assert finding in xs + ys;
    }
    if finding :| finding in ys && finding.effect == effect {
      assert finding in xs + ys;
    }
  }

  /** The outcome of a list is the stronger of the outcomes of its parts. */
  lemma StrongestConcat(xs: seq<Finding>, ys: seq<Finding>)
    ensures Strongest(xs + ys) == if Strongest(xs).Rank() >= Strongest(ys).Rank() then Strongest(xs) else Strongest(ys)
  {
    HasEffectConcat(xs, ys, EffectBlock);
    HasEffectConcat(xs, ys, EffectEscalate);
  }
}
