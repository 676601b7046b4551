# Shallnot, verified

Shallnot is a deterministic gate. It joins requirements, tags in test sources and test results into a coverage
matrix; consumes signed proofs about how well the tests discriminate and what they verify; and turns both into a
verdict. An end-of-turn hook sends a blocked verdict back to a coding agent, and `init` installs the gate in a project.

These Dafny modules model that logic and prove what it promises, for every input and every run. Where the source
changes something step by step, so does the model: loops, classes and arrays, proved against functions whose
properties are the lemmas. `dafny verify dfyconfig.toml` checks the whole project.

- **Gate policy.** `ProofFormat`, `ProofConfig`, `GateFindings`, `ClaimPower` (the table over a mutant pool),
  `Invariants`, `CriterionNames` and `StatementIdentity` (what validation accepts), `GateInput`, `Classification` (valid or
  stale, by a fixpoint in place), `Answers`, `Composition` (the outcome and the report of each criterion); laws in
  `ClaimPowerLaws`, `ClassificationLaws`, `EvidenceLaws` (the files behind the proofs), `GateLaws`, `RelaxationLaws`,
  `ReportLaws`, `GateEffects`, and `Attainability` (what evidence that validation accepts can bring about).
- **Canonical JSON and the cache key.** `CanonicalJson` (RFC 8785, sections 3.2.2.2 and 3.2.3), `CanonicalJsonLaws`, `CacheKey`.
- **Inline examples.** `ExampleGrammar`, `ExampleScanner` (the cursor), `ExampleLaws`, `ExampleStatement`.
- **The end-of-turn hook.** `HookAttempts` (the persisted counters), `Hook`, `HookLaws` (bounds over all runs).
- **Traceability.** `SourceScan` (locating a tag), `Labels`, `Results` (test cases and citations), `Traceability`,
  `Analyzer` (the accumulating analysis), `TraceabilityLaws`, `CitationLaws`; with proofs, `Settling` and `SettlingLaws`.
- **`init`.** `ProjectText`, `HookSettings`, `InitPlan`, `InitSetup` (what a project gets), `InitSetupLaws` (running it
  again), `SoundKit` (texts and an encoder that meet the conditions of those laws).
- **Shared.** `Ordering`, `Counting`, `Flattening`, `Spaces`, `Wrappers`.

Beside these stand modules that say what a result is without a word of how it is computed, by predicates over the
input, and prove that the operations meet them exactly: `StatementRules` (what validation accepts), `StateLaws`
(states and causes), `MatrixFindings` and `FindingLaws` (the findings of the gate), `PolicyLaws` (thresholds and floors),
`ModuleReports` and `ReportOrder` (its report), `CanonicalText` and `CacheText` (the texts written), `TokenShapes`,
`ExampleLanguage` and `ExampleRefusals` (which segments are examples and why others are not), `TrimLaws` and `MarkerLaws`
(how a statement is cut), `LiteralLaws`, `LabelLaws` and `ResultsLaws` (what is read from sources and results),
`TraceFindings` and `TraceOrder` (the findings of the analysis), `AskedAbout` (what the gate is asked),
`ProjectTextLaws`, `SettingsLaws` and `InitOutcome` (what `init` leaves behind).

The results that need most of the rest:

1. `SettlingLaws.PassVouches`: a passing run holds, for every active requirement in focus, a passing test, one
   discriminating matrix and one clearing verdict for each test, each from a current statement file whose consumed
   proofs are valid too. It rests on `TraceabilityLaws.ExactVerdict`, `GateEffects.GateDecides`, `GateLaws.SoundPass`,
   `ClaimPowerLaws.PassIffDiscriminates` and `ClassificationLaws.ValidStandsOnCurrent`.
2. `SettlingLaws.VerdictUnderAnyPolicy`: when a run fails, under any policy and any overrides. It rests on
   `TraceFindings.FindingsExactly`, `FindingLaws.FindingsExactly` and `StateLaws.StatesAre`, which say of every possible
   finding and state when it is made; `ClaimPowerLaws.BlockIffViolated`: which survivors block.
3. `Classification.InvalidateConsumersOfStale`: the loop over the statements in place computes a greatest fixpoint;
   `ClassificationLaws.ChangedFileInvalidatesExactly`: which statements a changed file invalidates.
4. `GateLaws.AddedResponsesNeverWeaken` and `RelaxationLaws.RelaxingKeepsPassOfRun`: no unfavourable evidence helps, and
   no relaxed policy hurts a pass; `RelaxationLaws.RelaxingStrengthensCriterionIff`: when one strengthens an outcome.
5. `CanonicalJsonLaws.CanonicalFormIsInjective`, `CanonicalText.TextIs` and `CacheText.PreimageIs`: the canonical form, to
   the character; `CacheKey.OrderForgottenIffAnnotationsAgree`: what the cache key depends on, exactly.
6. `ExampleLaws.PrintThenParse` and `ExampleLaws.ParserRangeIsWellFormed`: parser and printer undo each other;
   `ExampleLanguage.AcceptedIffSpelled`: the language the parser accepts; `MarkerLaws.MarkersAre`: how it is cut out.
7. `HookLaws.CountersAreTheHistory`, `HookLaws.BoundedBlocks`, `HookLaws.SixAreSentBack` and
   `HookLaws.SessionsDoNotInteract`: the bounds of the hook over every run, and that they are reached.
8. `InitSetupLaws.SecondAutomaticInitIsIdle`: a second `init` finds the same runner and harnesses and has nothing to do;
   `InitOutcome.HookStands` and `InitOutcome.NothingElseIsWritten`: what the first one does.

## Where the code and its promises differ

The model follows the code. Each case names the lemmas that show the difference and say when the promise holds.

- The comment on the cache key (internal/domain/proof/canonical.go:157-158) says that it does not depend on the order of
  the inputs. The sort ignores annotations, so two inputs that tie but carry different globs keep their order:
  `CacheKey.TiedInputsKeepTheirOrder`, and exactly when the claim holds: `CacheKey.OrderForgottenIffAnnotationsAgree`.
  A statement that validation accepts lists its inputs in one order only (`StatementIdentity.AcceptedInputsHaveOneOrder`).
- A printed example is cut in two when a string in it holds the marker: `ExampleStatement.ReturnedMarkerCuts`,
  and exactly when it reads back: `ExampleStatement.WrittenReadsBackIff`.
- Relaxing the policy can turn an escalation into a block (`Attainability.RelaxingCanBlock`). Exactly when it does is
  `ClaimPowerLaws.RelaxingStrengthensIff` for a matrix and `RelaxationLaws.RelaxingStrengthensCriterionIff` for a criterion.
- The report of a passing criterion shows the alignment module as not passed when an alignment nobody requires covers
  only some tests: `Attainability.SomePassIsNotReported`, and exactly then: `ReportLaws.ReportAgreesWithOutcome`.
- A required alignment asks nothing of a criterion without passing tests (`GateLaws.NoTestsNoAlignment`); the caller
  never evaluates such a criterion (`SettlingLaws.PassVouches`).
- The rewrite of AGENTS.md grows on every run if the section body holds the end marker: `ProjectText.AgentsFileIsIdempotentIff`.
- The JSON hook writers replace a wrapper that is no object and an event that is no list: `HookSettings.StopHookKeepsIff`
  and `HookSettings.VersionedHookKeepsIff` say exactly when nothing is lost.
  For Gemini's settings, whose context is rewritten too, `HookSettings.GeminiKeepsIff` does.
- A settings file that holds the JSON value null decodes without an error to a map that cannot be written to, and `init`
  panics: `InitPlan.NothingIsSettledInNull`, and in no other case: `InitPlan.PanicsOnNullOnly`.

## Model

| member | source | states |
|---|---|---|
| `GateFindings.OutcomeOf` | internal/analysis/proofgate/types.go:88-99 | The loop returns the strongest effect among the findings: block if one blocks, else escalate if one escalates, else pass. |
| `ClaimPower.FactsOf` | internal/analysis/proofgate/discriminating.go:54-66 | A mutant survived when it has results and all say so; its killers are the tests of the killing results, in their order. |
| `ClaimPower.TaintSentinelKillers` | internal/analysis/proofgate/discriminating.go:128-142 | The tainted tests are exactly those that killed a sentinel, and each is reported once, where it first appears. |
| `ClaimPower.JudgeMutant` | internal/analysis/proofgate/discriminating.go:145-155 | The disposition of a mutant is its row of the claim-power table, settled with the exclusions used so far; the counter moves only for an exclusion on a judgment. |
| `ClaimPower.JudgeSurvivor` | internal/analysis/proofgate/discriminating.go:157-183 | A survivor blocks, escalates or is excluded as its validity and the evidence say. |
| `ClaimPower.JudgeNotViolatingSurvivor` | internal/analysis/proofgate/discriminating.go:188-204 | Evidence executed for another criterion sets the survivor aside; a judgment alone does only under the judged basis, above threshold and floor, while the budget lasts. |
| `ClaimPower.JudgeKill` | internal/analysis/proofgate/discriminating.go:207-230 | A kill earns credit exactly as the table says: by an untainted test, on an own example or on evidence the basis admits. |
| `ClaimPower.EvaluateDiscriminatingPower` | internal/analysis/proofgate/discriminating.go:69-125 | The findings, the tainted tests and every counter of the in-place evaluation are those of the specification; the host exclusions are the minimum of the eligible survivors and the budget. |
| `ClaimPower.CountsPermute` | internal/analysis/proofgate/discriminating.go:90-124 | No count the evaluation reports depends on the order of the mutants. |
| `ClaimPowerLaws.ClosedForm` | internal/analysis/proofgate/discriminating.go:69-126 | The outcome of all findings equals a closed form over counts of table rows, in which digest order and budget bookkeeping no longer appear. |
| `ClaimPowerLaws.PoolOrderIsIrrelevant` | internal/analysis/proofgate/discriminating.go:90-124 | Any permutation of the mutants keeps the outcome, the tainted tests and every row count. |
| `ClaimPowerLaws.FindingsForgetOrder` | internal/analysis/proofgate/discriminating.go:90-124 | With distinct digests any permutation of the mutants keeps the list of findings itself. |
| `ClaimPowerLaws.InsertionNeverWeakens` | internal/analysis/proofgate/discriminating.go:90-230 | A mutant that earns no credit, inserted anywhere, keeps the outcome at least as strong, although it shifts the exclusion budget and may taint killers. |
| `ClaimPowerLaws.CreditNeverStrengthens` | internal/analysis/proofgate/discriminating.go:207-230 | A mutant that earns credit, inserted anywhere, never makes the outcome stronger. |
| `ClaimPowerLaws.ResponsesNeverWeaken` | internal/analysis/proofgate/discriminating.go:69-230 | Any list of added survivors and killed sentinels, added failing examples, examples of the matrix that turn to failing, and a failing reference code keeps the outcome at least as strong. |
| `ClaimPowerLaws.RelaxingKeepsPassAndBlock` | internal/analysis/proofgate/discriminating.go:157-230 | A policy whose thresholds are lower for every source, however the tables come to them, with a lower floor, a weaker basis and a larger budget keeps every pass and every block of a proof. |
| `Attainability.RelaxingCanBlock` | internal/analysis/proofgate/discriminating.go:157-186 | A witness that relaxing is not monotone in general: with thresholds the loader lets through, on a matrix validation accepts, a lower threshold turns an escalation into a block. |
| `ClaimPowerLaws.RelaxingStrengthensIff` | internal/analysis/proofgate/discriminating.go:157-186 | A relaxed policy makes the outcome of a matrix stronger if and only if it did not block before and some survivor judged VALID on witnessed evidence has a confidence between the two thresholds; the change is then from an escalation to a block. |
| `ClaimPowerLaws.PassIffDiscriminates` | internal/analysis/proofgate/discriminating.go:69-230 | A proof passes if and only if the reference and all examples pass, no test killed a sentinel, some non-sentinel VALID mutant was killed on admitted evidence, every other survivor is excluded, and the exclusions on a judgment fit the budget. |
| `ClaimPowerLaws.BlockIffViolated` | internal/analysis/proofgate/discriminating.go:69-186 | A matrix blocks if and only if the reference or an example fails, or some non-sentinel mutant that survived its tests is judged VALID and either fails its own example, or is trusted above the threshold of its source on a witness that builds and passes the other criteria. |
| `ClaimPowerLaws.RowMeans` | internal/analysis/proofgate/discriminating.go:145-230 | What each row of the table says of a mutant, in terms of what was run and claimed alone: which survivors violate the criterion, which may be excluded and on what, and which kills are admitted. |
| `MatrixFindings.MatrixFindingsExactly` | internal/analysis/proofgate/discriminating.go:69-125 | A finding is made about a matrix if and only if the evidence warrants it: for each category, the exact runs, kills, survivals, claims and exclusions. |
| `Attainability.EveryPolicyCanPass` | internal/analysis/proofgate/discriminating.go:69-230 | For every configuration, every requirement and every test name there is a matrix that validation accepts and that discriminates: no threshold, floor, basis or budget puts a pass out of reach. |
| `ClaimPowerLaws.JudgmentAloneHasNoPower` | internal/analysis/proofgate/discriminating.go:157-230 | Judgments without executed corroboration never block through a mutant, and never pass under a basis other than judged. |
| `Invariants.CheckAscending` | internal/domain/proof/invariants.go:436-443 | However many neighbours are out of order, one violation is added; none if all are in order. |
| `Invariants.NeighboursSettleOrder` | internal/domain/proof/invariants.go:436-443 | With a transitive order the check of neighbours implies that every two elements are strictly ordered. |
| `Invariants.CheckClaim` | internal/domain/proof/invariants.go:40-85 | The check of a claim adds violations exactly when the claim lacks the class, confidence or corroborations it must have, or carries a member its class forbids; earlier violations stay. |
| `Invariants.CheckMutant` | internal/domain/proof/invariants.go:180-200 | The checks of a mutant, its decision included, add violations exactly when it is malformed. |
| `Invariants.CheckPool` | internal/domain/proof/invariants.go:131-153 | The checks of the mutants of a matrix add violations exactly when two neighbours are out of order or a mutant is malformed. |
| `Invariants.CheckPower` | internal/domain/proof/invariants.go:131-153 | The checks of a matrix add violations exactly when its pool, the order of its examples or its decision is malformed. |
| `Invariants.CheckAlignment` | internal/domain/proof/invariants.go:118-129 | The checks of a verdict add violations exactly when it names no test, its claim breaks the rules of a judged claim, or its decision is malformed. |
| `Invariants.CheckCorroborationRequired` | internal/domain/proof/invariants.go:236-240 | A judged VALID claim without corroboration is reported. |
| `StatementRules.AcceptedIffSound` | internal/domain/proof/invariants.go:15-443 | All the checks together accept exactly the statements that keep the rules, which are written out on their own: names, digests, subjects, inputs in their roles and in one order, and what each kind of proof must hold. |
| `Invariants.WellFormedPoolIsSorted` | internal/analysis/proofgate/discriminating.go:90-92 | On a pool the checks accept, the sort by digest is the identity and digests are distinct. |
| `Invariants.PassRestsOnCorroboration` | internal/domain/proof/invariants.go:236-240 | On a pool the checks accept, a pass under any basis rests on a credited mutant that lists at least one executed corroboration. |
| `CriterionNames.ParseCriterionIff` | internal/domain/proof/manifest.go:90-100 | A text is read as a criterion if and only if it is the name of that criterion, with an ID that holds no separator and a revision from 1 up to the largest machine integer. |
| `StatementIdentity.Validate` | internal/domain/proof/invariants.go:15-32 | Validation adds violations exactly when the criterion, the subject, the order of the inputs, an input in its role, or the predicate is malformed. |
| `StatementIdentity.AcceptedSpecInputNeverOutdated` | internal/domain/proof/invariants.go:299-308 | A statement these checks accept is never stale on account of its spec input: two of the causes of the classification never arise for it. |
| `StatementIdentity.AcceptedKeyIdentifiesProof` | internal/domain/proof/invariants.go:365-375 | Two accepted statements that answer one consumed key have the same digest, kind, requirement and revision. |
| `StatementIdentity.ConsumedProofIsAsSpelled` | internal/domain/proof/invariants.go:315-326 | Whatever accepted statement answers a key that an accepted one consumes has the kind and is about the criterion that the input spells. |
| `StatementIdentity.AcceptedInputsHaveOneOrder` | internal/domain/proof/invariants.go:270-278 | The same multiset of inputs is accepted in one order only. |
| `Classification.StaleReason` | internal/analysis/proofgate/classify.go:93-112 | The cause found by the checks in order (trust, subject, inputs, test files) is that of the specification. |
| `Classification.CollectRequiredTestFiles` | internal/analysis/proofgate/classify.go:209-220 | The files collected are exactly the test files the proof depends on. |
| `Classification.UnlistedTestFiles` | internal/analysis/proofgate/classify.go:188-207 | A file is unlisted exactly when some required test file is no test_source descriptor of the proof. |
| `Classification.InvalidateRound` | internal/analysis/proofgate/classify.go:65-90 | One round over the slice leaves each valid statement alone or makes it stale for the first key, in the order of its inputs, that no statement valid at the start of the round provides. |
| `Classification.InvalidateConsumersOfStale` | internal/analysis/proofgate/classify.go:62-90 | The loop over the slice in place terminates with the states the rounds lead to, and leaves valid exactly the greatest supported set of the initially valid ones. |
| `Classification.InvalidatedIsGreatest` | internal/analysis/proofgate/classify.go:58-91 | The states the rounds lead to differ from the initial ones by dropped consumers only, and their valid statements are the greatest set whose members find every proof they consume within it. |
| `Classification.GreatestIsSupported` | internal/analysis/proofgate/classify.go:58-61 | Every proof a member of the greatest set consumes is provided by a member. |
| `Classification.GreatestContains` | internal/analysis/proofgate/classify.go:58-61 | Every supported set of valid statements is contained in the greatest one. |
| `Classification.Classify` | internal/analysis/proofgate/classify.go:22-42 | Each statement of a usable set gets the state and the cause of its own checks, then those the rounds leave it with; an unusable set yields none. |
| `StateLaws.StatesAre` | internal/analysis/proofgate/classify.go:22-221 | Every file gets the state the rules give it: malformed, valid where its own checks and the proofs it consumes uphold it, or stale, for the first cause in the order of the checks. |
| `StateLaws.StatesWhereUsable` | internal/analysis/proofgate/classify.go:22-43 | Each file of a set with a manifest nothing is wrong with gets a state, and no file of any other set. |
| `StateLaws.CauseIsBlamed` | internal/analysis/proofgate/classify.go:93-112 | A statement is stale for a cause if and only if that cause holds of it and none of those checked before does. |
| `StateLaws.ValidIffUpheld` | internal/analysis/proofgate/classify.go:22-91 | A statement is valid in the end if and only if it is current and belongs to a set of current statements that find every proof they consume within the set. |
| `ClassificationLaws.AddingStatementsKeepsValid` | internal/analysis/proofgate/classify.go:22-91 | Adding statement files anywhere never makes a valid statement stale. |
| `ClassificationLaws.StatementOrderIsIrrelevant` | internal/analysis/proofgate/classify.go:62-91 | Whatever the order of the statement files, each of them is given the same state for the same cause. |
| `ClassificationLaws.UnnamedFileChangesNothing` | internal/analysis/proofgate/classify.go:164-176 | Where no descriptor lists a path, whatever happens to the file there leaves every state as it is. |
| `ClassificationLaws.NoCauseIffCurrent` | internal/analysis/proofgate/classify.go:93-207 | The checks made in order find no cause if and only if the statement is current: trust, subject digest, every listed input, and every test file it depends on listed. |
| `ClassificationLaws.ValidStandsOnCurrent` | internal/analysis/proofgate/classify.go:22-91 | A statement that is valid in the end is a file of the verified set, is current, and has a valid provider for every proof it consumes. |
| `ClassificationLaws.KeyIdentifiesProof` | internal/analysis/proofgate/classify.go:51-57 | Two statements that provide one key have the same digest, kind, requirement and revision, where IDs hold no revision separator. |
| `ClassificationLaws.LayersFallTogether` | internal/analysis/proofgate/classify.go:62-91 | Where each statement of a layer consumes a proof that only the layer before it provides, no statement of any layer is valid once none of the first is. |
| `ClassificationLaws.ChangedFileInvalidatesExactly` | internal/analysis/proofgate/classify.go:62-176 | After a file is changed or removed so that no recorded digest fits, a statement is valid if and only if it is in a set of statements that were valid together before, find their proofs within the set, and do not list the file. |
| `ClassificationLaws.ChangedFileInvalidatesLayers` | internal/analysis/proofgate/classify.go:62-176 | Changing or removing a listed file makes stale every statement that lists it and, through any layers of consumption and any copies of a proof, every statement that rests on those. |
| `Answers.MergeInto` | internal/analysis/proofgate/evaluate.go:284-291 | Whatever the order in which the counts are ranged over, every key ends with the sum of its two counts. |
| `Answers.AnswersAreCounted` | internal/analysis/proofgate/evaluate.go:275-282 | After some executors have answered, every channel and every isolation level has been counted once for each of its answers. |
| `Composition.Evaluation.Valid` | internal/analysis/proofgate/evaluate.go:63-75 | Every counted statement of the kind about the reference is found, each once and in file order, and no other. |
| `EvidenceLaws.EvidenceIsAllThatCounts` | internal/analysis/proofgate/evaluate.go:63-75 | The matrices and the verdicts a criterion is judged by are those of all the counted files about it and of no others, in file order. |
| `Composition.Evaluation.ReportAbsence` | internal/analysis/proofgate/evaluate.go:142-171 | A missing required proof is reported with the category and effect of its own pending entry, else of a pending entry it consumes, else as stale or missing. |
| `EvidenceLaws.PendingIdentifiesCriterion` | internal/analysis/proofgate/evaluate.go:103-110 | A pending entry waits for one kind and one criterion only, where IDs hold no revision separator. |
| `Composition.Evaluation.EvaluateDP` | internal/analysis/proofgate/evaluate.go:191-215 | Several valid proofs are ambiguous and count as none, one is evaluated, none is absent when required; findings, tainted tests and the report, with its outcome, exclusions and counted answers, are those of the specification. |
| `Composition.Evaluation.EvaluateTests` | internal/analysis/proofgate/evaluate.go:231-246 | Each passing test has one finding at most: ambiguous, not cleared, or none; the tests no proof names are collected in order. |
| `Composition.Evaluation.EvaluateAlignment` | internal/analysis/proofgate/evaluate.go:224-262 | The findings and the report of the alignment module, with its required and optional cases and the answers of the judges of its tests. |
| `Composition.Evaluation.EvaluateCriterion` | internal/analysis/proofgate/evaluate.go:173-189 | The outcome recorded for a criterion is the strongest effect of the findings made for it, and the report is its own. |
| `Composition.Evaluation.ReportCompleteness` | internal/analysis/proofgate/evaluate.go:308-322 | Questions of valid completeness proofs, and nothing else, are added as findings of no effect. |
| `Composition.Evaluate` | internal/analysis/proofgate/evaluate.go:14-36 | The findings come in the order of the phases over criteria sorted by reference, the outcome map holds the outcome of every criterion, and the report holds the policy with its escalation mode, the manifest where there is one, what was consumed sorted by path, what is pending and one report for each criterion in order. |
| `FindingLaws.FindingsExactly` | internal/analysis/proofgate/evaluate.go:14-322 | The gate makes a finding if and only if something warrants it: an unusable set, a malformed file, a defect of a matrix, several proofs where one counts, a test without a clearing verdict, a proof that is required and absent, or an open question. |
| `FindingLaws.AbsenceWarranted` | internal/analysis/proofgate/evaluate.go:142-171 | The one finding about an absent proof names the pending reason of the criterion itself, else that of what it would consume, else says that it is missing or stale, with the effect its kind calls for. |
| `FindingLaws.TaintIs` | internal/analysis/proofgate/discriminating.go:128-142 | A test is tainted if and only if there is one matrix and the test killed a sentinel of it. |
| `FindingLaws.UnmatchedListsUnnamed` | internal/analysis/proofgate/evaluate.go:224-262 | The tests listed as lacking a verdict are those no verdict names, by name. |
| `ModuleReports.ModulesOfReport` | internal/analysis/proofgate/evaluate.go:173-306 | The report of a criterion says of each module whether it passed, blocked or escalated, what was excluded, and lists the absent proofs in order. |
| `ModuleReports.AnswersOfReportAre` | internal/analysis/proofgate/evaluate.go:191-292 | For each channel and each isolation level the report counts who answered for the mutants of the one matrix and for the tests with one verdict. |
| `ReportOrder.CriteriaAscend` | internal/analysis/proofgate/evaluate.go:14-27 | The criteria reported are those asked about, in the ascending order of their names. |
| `ReportOrder.ConsumedAscend` | internal/analysis/proofgate/classify.go:223-237 | The report lists each file once for each time it was handed over, in the ascending order of paths. |
| `PolicyLaws.IsolationIsALadder` | internal/domain/proof/isolation.go:20-49 | A level reaches a floor if and only if it is not behind it on the ladder; a text that is no level reaches nothing. |
| `PolicyLaws.KnownIff` | internal/domain/proof/confidence.go:41-53 | A text is a known source if and only if it is one of the names, or a family name with a detail in the spelling that family asks for. |
| `PolicyLaws.ExactEntryDecides` | internal/domain/proof/config.go:53-75 | A threshold for the source itself decides. |
| `PolicyLaws.KindEntryDecides` | internal/domain/proof/config.go:53-75 | Without one the threshold for the family of the source does, and else the default. |
| `PolicyLaws.OthersTakeTheDefault` | internal/domain/proof/config.go:53-75 | A source of no family, and a text that is no source, take the default. |
| `GateLaws.AlignmentPassIff` | internal/analysis/proofgate/alignment.go:23-42 | The alignment part passes if and only if every passing test has exactly one matching verdict, which says ALIGNED, of an untainted test, with a confidence at or above the threshold of its source, an executor at or above the floor and, unless the basis is judged, a matrix behind it; or has none while none is required. |
| `GateLaws.PassIffProven` | internal/analysis/proofgate/evaluate.go:173-262 | A criterion passes if and only if its one valid matrix discriminates, or none is required and none is there, and each of its tests has one verdict of this kind, or none while none is required. |
| `GateLaws.SoundPass` | internal/analysis/proofgate/evaluate.go:173-262 | With both kinds required a pass rests on one discriminating matrix and, for each passing test, on exactly one matching verdict, which says ALIGNED and meets every condition of a clearing one. |
| `Attainability.AcceptedEvidencePassesIff` | internal/analysis/proofgate/evaluate.go:173-262 | Matrices and verdicts that validation accepts can let a criterion with one passing test pass if and only if alignment is not required, or a proof can name the test and some confidence source has a threshold that can be reached. |
| `Attainability.InBoundsIsAttainable` | internal/adapters/config/threshold.go:47-85 | A threshold of a configuration that loads can be reached. |
| `GateLaws.NoTestsNoAlignment` | internal/analysis/proofgate/evaluate.go:231-255 | Without a passing test a required alignment asks for nothing. |
| `GateLaws.AddedResponsesNeverWeaken` | internal/analysis/proofgate/discriminating.go:69-230 | Added survivors and killed sentinels, added or existing examples that fail, and a failing reference keep the outcome of the whole criterion at least as strong. |
| `GateLaws.AddedVerdictNeverWeakens` | internal/analysis/proofgate/evaluate.go:231-246 | An alignment proof that clears no test, added anywhere, keeps the outcome at least as strong. |
| `RelaxationLaws.RelaxingKeepsPass` | internal/analysis/proofgate/policy.go:10-64 | Relaxing the policy never turns a passing criterion into a non-passing one. |
| `RelaxationLaws.RelaxingStrengthensCriterionIff` | internal/analysis/proofgate/policy.go:10-64 | Relaxing the policy makes the outcome of a criterion stronger if and only if it has one matrix, which relaxing turns from an escalation into a block, and no test of it is ambiguous. |
| `RelaxationLaws.RelaxingKeepsStates` | internal/analysis/proofgate/classify.go:22-113 | Relaxing the policy keeps the state and the cause of every statement of the verified set. |
| `RelaxationLaws.RelaxingKeepsPassOfRun` | internal/analysis/proofgate/evaluate.go:14-36 | A criterion that passes under a policy passes when the whole verified set is classified and judged again under a relaxed one. |
| `ReportLaws.ReportAgreesWithOutcome` | internal/analysis/proofgate/evaluate.go:224-306 | The report of a criterion shows a pass exactly when its outcome is a pass and it is not the case that an optional alignment covers only some of its tests. |
| `Attainability.SomePassIsNotReported` | internal/analysis/proofgate/evaluate.go:224-306 | Under every policy that does not require alignment and has a threshold that can be reached, there is a verified set of statements that validation accepts, classified by the gate, whose criterion passes while every report of it shows the alignment module as not passed. |
| `ReportLaws.AnswersOfReport` | internal/analysis/proofgate/evaluate.go:191-292 | The report counts, for every channel and isolation level, each judged mutant of the one valid matrix and each test that exactly one valid verdict names, and nothing else. |
| `GateEffects.GateDecides` | internal/analysis/proofgate/evaluate.go:14-27 | Some finding of the gate fails a run if and only if the set is unusable, a statement is malformed, or some criterion has an outcome the escalation mode does not accept. |
| `CanonicalJson.KeyOrderIsTotal` | internal/domain/proof/canonical.go:93-96 | The order by UTF-16 code units is total and separates any two strings of scalar values. |
| `CanonicalJson.KeyOrderIsNotByCodePoint` | internal/domain/proof/canonical.go:92-95 | A witness that the key order differs from the order by code point. |
| `CanonicalJson.KeyOrderForgetsIteration` | internal/domain/proof/canonical.go:71-78 | Every order a map can be ranged over sorts to the same list of keys. |
| `CanonicalText.KeyOrderIs` | internal/domain/proof/canonical.go:93-96 | A key comes before another if and only if it is a proper prefix of it or has, at the first place where they differ, the character that comes first by its code units: by code point, but with those beyond the basic plane between U+D7FF and U+E000. |
| `CanonicalText.SortedKeysAscend` | internal/domain/proof/canonical.go:71-90 | The keys an object is written with are its own, each once, and ascend. |
| `CanonicalJson.WriteCanonicalString` | internal/domain/proof/canonical.go:104-131 | The buffer grows by the quoted and escaped text. |
| `CanonicalJson.WriteCanonical` | internal/domain/proof/canonical.go:44-69 | The buffer grows by the canonical form of the value, and an error is returned exactly when the value holds an unsupported type. |
| `CanonicalJson.WriteCanonicalObject` | internal/domain/proof/canonical.go:71-90 | The members are written in key order whatever the iteration order of the map. |
| `CanonicalText.TextIs` | internal/domain/proof/canonical.go:44-131 | The text of every value: the fixed words, quoted texts, items between brackets and members between braces with a comma between any two, keys ascending. |
| `CanonicalText.ObjectText` | internal/domain/proof/canonical.go:71-90 | However the keys are enumerated, an object is written with its members in the one ascending order of its keys. |
| `CanonicalText.TwoMembers` | internal/domain/proof/canonical.go:71-90 | The literal text of an object with two members, the lesser key first. |
| `CanonicalText.EscapesAre` | internal/domain/proof/canonical.go:98-131 | Each character is written in its short form, as four hexadecimal digits where it is any other control character, or as it is. |
| `CanonicalText.EscapedIsByCharacter` | internal/domain/proof/canonical.go:104-131 | A text is escaped character by character. |
| `CanonicalJsonLaws.EscapedSplits` | internal/domain/proof/canonical.go:104-131 | Two escaped texts followed by a quote are equal only if the texts and what follows are equal. |
| `CanonicalJsonLaws.RenderSplits` | internal/domain/proof/canonical.go:44-131 | No canonical form is a proper prefix of another: equal texts are decoded in only one way, together with what follows them. |
| `CanonicalJsonLaws.CanonicalFormIsInjective` | internal/domain/proof/canonical.go:44-131 | Two values have the same canonical form if and only if they are equal. |
| `CacheKey.CachePreimage` | internal/domain/proof/canonical.go:159-184 | The preimage written is that of the sorted subjects and the sorted keyed inputs. |
| `CacheText.PreimageIs` | internal/domain/proof/canonical.go:136-184 | The preimage is this literal text: the sorted inputs with their annotations, digests, names and roles, then the sorted subjects. |
| `CacheText.KeyedAscend` | internal/domain/proof/canonical.go:186-201 | The inputs ascend by role, then name, then digest, and the subjects by name, then digest. |
| `CacheText.PlainNames` | internal/domain/proof/canonical.go:104-131 | A name of small letters and digits is quoted as it is. |
| `CacheKey.PreimageIdentifies` | internal/domain/proof/canonical.go:136-184 | Two preimages are equal if and only if the sorted subjects and the sorted keyed inputs are. |
| `CacheKey.PreimageSeparates` | internal/domain/proof/canonical.go:136-201 | Different multisets of keyed inputs or of subjects give different preimages. |
| `CacheKey.PreimageIsTheMultisets` | internal/domain/proof/canonical.go:136-201 | Where inputs equal in role, name and digest agree on their annotations, equal multisets and equal preimages are the same thing. |
| `CacheKey.OrderForgottenIffAnnotationsAgree` | internal/domain/proof/canonical.go:157-194 | The preimage is the same for every order of the inputs if and only if inputs equal in role, name and digest agree on their keyed annotations. |
| `CacheKey.TiedInputsKeepTheirOrder` | internal/domain/proof/canonical.go:186-194 | Swapping two inputs that tie in the sort but differ in their globs changes the preimage. |
| `CacheKey.SubjectOrderIsForgotten` | internal/domain/proof/canonical.go:196-201 | The order of the subjects never matters. |
| `CacheKey.CriterionIsInformational` | internal/domain/proof/canonical.go:136-157 | Changing only the criterion of an annotation leaves the preimage as it is. |
| `ExampleScanner.Scanner.Word` | internal/domain/example.go:234-240 | The cursor reads the longest word and stands behind it. |
| `ExampleScanner.Scanner.Quoted` | internal/domain/example.go:344-367 | The loop over a quoted string reads what the grammar reads: the decoded text, or the same error. |
| `ExampleScanner.Scanner.ReadArguments` | internal/domain/example.go:250-289 | The loop over the arguments reads what the grammar reads, rejects a name given twice, and stands behind the closing parenthesis. |
| `ExampleScanner.Scanner.ReadCall` | internal/domain/example.go:250-289 | The call read, or the error, is that of the grammar. |
| `ExampleScanner.Scanner.ReadLiteral` | internal/domain/example.go:319-342 | The literal read, or the error, is that of the grammar. |
| `ExampleScanner.Scanner.Outcome` | internal/domain/example.go:305-317 | The outcome read, or the error, is that of the grammar. |
| `ExampleScanner.ScanExample` | internal/domain/example.go:179-201 | The scanner accepts exactly the segments of the grammar, with the same example or the same error. |
| `ExampleLanguage.AcceptedIffSpelled` | internal/domain/example.go:179-367 | A segment is accepted as an example if and only if it is one of its spellings: its tokens in order, with blanks where blanks may stand, digits and escapes as they may be written, and nothing but blanks behind the outcome. |
| `ExampleLanguage.TextBehindIsRefused` | internal/domain/example.go:193-201 | Behind every well-formed example any text that is not blank is refused as text after the outcome. |
| `ExampleRefusals.RefusalNamesTheReason` | internal/domain/example.go:179-367 | Every refused segment has, at the first place where it goes wrong, the defect that the reason names. |
| `TokenShapes.DatetimeShape` | internal/domain/example.go:145-150 | A datetime is written as a minute, then seconds and a zone where they are given, digit by digit. |
| `TokenShapes.DecimalShape` | internal/domain/example.go:145-150 | A decimal is two runs of digits around a point, with or without a minus. |
| `TokenShapes.NameShape` | internal/domain/example.go:145-150 | A name is a letter or an underscore, then letters, digits and underscores. |
| `ExampleScanner.WriteLiteral` | internal/domain/example.go:393-415 | The loop over the bytes of a literal writes its printed form. |
| `ExampleLaws.PrintThenParse` | internal/domain/example.go:393-428 | Every well-formed example is read back from its printed text, to the last character. |
| `ExampleLaws.AcceptedIsWellFormed` | internal/domain/example.go:179-367 | Every accepted segment is an example with identifier names, distinct arguments and literals whose text fits their type. |
| `ExampleLaws.ParseThenPrintIsNormal` | internal/domain/example.go:179-428 | Printing what was parsed is a normal form: it parses to the same example, which prints as the same text. |
| `ExampleLaws.ParserRangeIsWellFormed` | internal/domain/example.go:179-367 | The examples the parser can yield are exactly the well-formed ones. |
| `ExampleLaws.PrintIsInjective` | internal/domain/example.go:393-428 | Two well-formed examples with the same text are the same example. |
| `ExampleStatement.ParseExamples` | internal/domain/example.go:155-177 | A statement is split at every marker; the prose, the numbered examples and the numbered malformed ones are those of its segments. |
| `MarkerLaws.MarkersAre` | internal/domain/example.go:143-177 | There is one way to cut a statement, each marker the first behind the one before, by the rules of a marker, and the loop finds it. |
| `MarkerLaws.ProseIs` | internal/domain/example.go:155-177 | The prose is what stands in front of the first marker, trimmed. |
| `MarkerLaws.StatementReadsAs` | internal/domain/example.go:155-177 | An example is one of the statement if and only if what stands behind the marker of its number reads as it, and a malformed one if and only if that text is refused for its reason. |
| `MarkerLaws.NumbersAscend` | internal/domain/example.go:155-177 | Examples and malformed examples are in the order of their markers. |
| `TrimLaws.TrimmedIff` | internal/domain/example.go:155-177 | Trimming leaves the one core of a text: white space around it, and none at its ends. |
| `ExampleStatement.EveryMarkerCounts` | internal/domain/example.go:155-177 | Each marker is the marker of exactly one example or malformed example, which carries its number. |
| `ExampleStatement.WrittenReadsBackIff` | internal/domain/example.go:143-177 | An example printed behind a marker is read back as the only one of its statement if and only if its text holds no further marker. |
| `ExampleStatement.ReturnedMarkerCuts` | internal/domain/example.go:143-177 | A family of examples that are cut: those that return a string with a marker in it. |
| `HookAttempts.PathsAreDistinct` | internal/adapters/agenthook/attempts.go:25-27 | Two counter files are the same file exactly for one sanitized session and one counter. |
| `HookAttempts.SanitizedIs` | internal/adapters/agenthook/attempts.go:16-28 | A file name keeps letters, digits, underscores and hyphens of the session, and has an underscore for anything else. |
| `HookAttempts.CounterFiles` | internal/adapters/agenthook/attempts.go:11-64 | Each counter is read from the file named after the session and the counter, and is zero where there is none. |
| `HookAttempts.Attempts.Record` | internal/adapters/agenthook/attempts.go:51-53 | Writes one counter of a session; its other counter and those of sessions with another sanitized name stay. |
| `HookAttempts.Attempts.RecordHostWaits` | internal/adapters/agenthook/attempts.go:56-58 | Writes the count of host waits and nothing else. |
| `HookAttempts.Attempts.Reset` | internal/adapters/agenthook/attempts.go:61-64 | Both counters of the session are zero afterwards, and no other session changes. |
| `Hook.Decide` | internal/cli/hook.go:88-117 | The decision and the counters left behind are one step of the state machine, for a harness that counts blocks and for one that does not; other sessions keep their counters. |
| `Hook.WaitForHost` | internal/cli/hook.go:119-126 | A block that only waits for the host counts against the waits and leaves the attempts. |
| `HookLaws.CountersAreTheHistory` | internal/cli/hook.go:85-126 | Along every run the counters are the tally of blocks since the last release, within both limits. |
| `HookLaws.BoundedBlocks` | internal/cli/hook.go:85-87 | At every point of every run there are at most 3 evidence blocks, 3 waits and 6 blocks in a row since the last release. |
| `HookLaws.ThreeAreSentBack` | internal/adapters/agenthook/harness.go:12-19 | The bounds are reached: after every run that ends in a release, three turns blocked for one reason are sent back and the fourth gives up. |
| `HookLaws.SixAreSentBack` | internal/adapters/agenthook/harness.go:12-19 | So is their sum: three evidence blocks and then three waits are sent back, and whatever blocks then gives up. |
| `HookLaws.DecisionsFollowHistory` | internal/cli/hook.go:88-126 | Every decision of a run is the one its history and its verdict call for. |
| `HookLaws.SevenBlocksContainAGiveUp` | internal/cli/hook.go:85-126 | Seven blocked verdicts in a row contain a give-up. |
| `HookLaws.AnnouncedAfterABlock` | internal/cli/hook.go:98-104 | A pass is announced if and only if the turn before it was sent back. |
| `HookLaws.CountingRegimesAgree` | internal/cli/hook.go:90-96 | Whether the hook or the harness counts, every run takes the same decisions. |
| `HookLaws.SessionsDoNotInteract` | internal/adapters/agenthook/attempts.go:25-64 | Under any interleaving each sanitized session decides, and keeps counters, as if it were alone. |
| `Labels.ContainsLabel` | internal/analysis/label.go:18-37 | The search terminates and answers true exactly when the label is empty or some occurrence cuts no word. |
| `Labels.NormalizeIsIdempotent` | internal/analysis/label.go:10-13 | Folding a name twice changes nothing more. |
| `Labels.SeparatorsReadAlike` | internal/analysis/label.go:8-13 | Names that differ only in which separators they use fold alike. |
| `LabelLaws.ContainsIff` | internal/analysis/label.go:18-53 | A label is found in a text if and only if it is empty or stands somewhere in it with no word character running on from either end of it. |
| `LabelLaws.HasFields` | internal/analysis/label.go:10-13 | Every name is made of fields with separators around them. |
| `LabelLaws.NormalizeSpaces` | internal/analysis/label.go:10-13 | Folding a name yields its fields with single spaces in between. |
| `Traceability.VerdictOf` | internal/analysis/analyze.go:70-77 | The verdict fails exactly when some finding blocks. |
| `Analyzer.Analysis.IndexRequirements` | internal/analysis/analyze.go:89-115 | In location order the declarations that repeat no earlier ID are known and become the rows; each of the others adds a duplicate finding. |
| `Analyzer.Analysis.SourcesOf` | internal/analysis/analyze.go:294-315 | The indexes found are exactly those of the tags that cite the reference and occur in the identity; the location is that of the first tag of maximal label length. |
| `Analyzer.Analysis.ReportSourceTagDefects` | internal/analysis/analyze.go:205-220 | Every malformed and unresolved tag is reported at its source line, and the references reported are returned. |
| `Analyzer.Analysis.BindTestCases` | internal/analysis/analyze.go:172-201 | The bound tests grow by one for each resolved citation, in order; unresolved citations are reported unless a source tag located them; the tags seen running are exactly the matching ones. |
| `Analyzer.Analysis.BindUnmatchedSourceTags` | internal/analysis/analyze.go:327-351 | Every resolved reference of a tag no citation comes from is bound as not run and reported. |
| `Analyzer.Analysis.Coverage` | internal/analysis/analyze.go:411-431 | The coverage computed from the outcomes seen is that of the specification. |
| `Analyzer.Analysis.SettleRow` | internal/analysis/analyze.go:353-365 | A row gets its tests in order and its coverage, and is reported on when it is in focus or non-testable. |
| `Analyzer.Analysis.ReportCoverageGap` | internal/analysis/analyze.go:447-471 | A gap is reported once by its category; a covered row reports each failed or errored test. |
| `Analyzer.Analyze` | internal/analysis/analyze.go:42-68 | The rows, the findings in the order they are made, and the verdict of the accumulating analyzer are those of the specification. |
| `TraceFindings.FindingsExactly` | internal/analysis/analyze.go:42-471 | Under any policy the analysis makes a finding if and only if something warrants it, category by category, from the requirements, tags and test cases handed over. |
| `TraceFindings.BoundTestsAre` | internal/analysis/analyze.go:172-351 | A test is bound to a declared reference if and only if it records a test case that cites it, with the location of the tag it comes from, or an idle tag of it. |
| `TraceOrder.DeclarationsAscend` | internal/analysis/analyze.go:89-115 | The declarations are taken in the ascending order of their locations, and none is lost. |
| `TraceOrder.RowTestsAscend` | internal/analysis/order.go:16-30 | The tests of a row are those bound to its ID, in ascending order. |
| `TraceabilityLaws.DuplicatesBlock` | internal/analysis/analyze.go:89-115 | Under the default policy the duplicate findings block exactly when IDs are not unique. |
| `TraceabilityLaws.BoundOutcomes` | internal/analysis/analyze.go:172-201 | A declared reference has a bound test of an outcome that only runs have if and only if a test case with that outcome cites that exact revision. |
| `TraceabilityLaws.RowBlocks` | internal/analysis/analyze.go:353-471 | The findings of a row block exactly when its requirement is not verified. |
| `TraceabilityLaws.ExactVerdict` | internal/analysis/analyze.go:42-77 | Under the default policy the verdict is a pass if and only if there is no spec problem, IDs are unique, no tag is malformed, every cited reference is declared, every non-testable requirement is justified, and every active requirement in focus has a passing test citing its exact revision and no failed or errored one. |
| `CitationLaws.OneTestForEachCitation` | internal/analysis/analyze.go:177-199 | A test case is bound to the ID of a declared reference once if it cites it and not at all otherwise. |
| `CitationLaws.BoundTestsAreCitingCases` | internal/analysis/analyze.go:172-203 | The tests bound to a reference from results are exactly the test cases that cite it, once each, in their order. |
| `CitationLaws.NotRunOutcome` | internal/analysis/analyze.go:327-351 | A declared reference has a bound test that did not run if and only if a test case says so or a tag no citation comes from cites it. |
| `CitationLaws.ExactCoverage` | internal/analysis/analyze.go:411-431 | The coverage of every row is a function of which outcomes cite its exact revision; source tags only tell not run from uncovered. |
| `CitationLaws.TagsNeverCover` | internal/analysis/analyze.go:327-351 | Whatever the source scan found, the same requirements are covered. |
| `CitationLaws.TestCaseOrderIsIrrelevant` | internal/analysis/analyze.go:172-288 | Under any policy, permuting the test cases keeps the coverage and the tests of every row, the multiset of findings and the verdict. |
| `Results.Citations.Add` | internal/adapters/junitxml/reader.go:173-186 | The references and malformed tags kept are the distinct ones of all tags added, in the order they first occur. |
| `Results.FirstSeenIsDistinct` | internal/adapters/junitxml/reader.go:173-186 | No reference is kept twice. |
| `Results.Convert` | internal/adapters/junitxml/reader.go:120-146 | The test case converted has the outcome by precedence and the distinct citations of name, class name and properties, in that order. |
| `Results.Collect` | internal/adapters/junitxml/reader.go:110-118 | The cases collected are those of the suite and then, depth first, those of its nested suites. |
| `ResultsLaws.OutcomeIs` | internal/adapters/junitxml/reader.go:148-159 | An error hides a failure, a failure hides a skip, and what has none of them passed. |
| `ResultsLaws.CitesIff` | internal/adapters/junitxml/reader.go:120-146 | A test case cites a reference, or has a malformed tag, if and only if some tag of its name, class name or properties does. |
| `ResultsLaws.FirstSeenKeepsOrder` | internal/adapters/junitxml/reader.go:162-186 | What is cited stands in the order in which it is first cited. |
| `ResultsLaws.TagsInOrder` | internal/adapters/junitxml/reader.go:120-146 | The tags of the name come first, then those of the class, then those of the properties in their order. |
| `ResultsLaws.CasesAre` | internal/adapters/junitxml/reader.go:110-118 | A test case is read if and only if it stands in the suite or in one nested in it, however deep. |
| `ResultsLaws.CasesInOrder` | internal/adapters/junitxml/reader.go:110-118 | They come as they stand in the document: the cases of a suite, then those of each nested suite. |
| `Results.ReadCasesCiteOnce` | internal/adapters/junitxml/reader.go:110-186 | Everything read from results cites each reference once and is never of the outcome not run. |
| `Results.ReadResultsBindOnce` | internal/adapters/junitxml/reader.go:110-186 | With results read from files, a reference is bound once to each test case that cites it. |
| `SourceScan.NewLineIndex` | internal/adapters/scan/extractor.go:33-41 | The index holds the offset of every line start. |
| `SourceScan.LineOf` | internal/adapters/scan/extractor.go:43-54 | The binary search returns one plus the number of newlines before the offset. |
| `SourceScan.LineStart` | internal/adapters/scan/extractor.go:56 | The start found is a line start with no newline between it and the offset. |
| `SourceScan.EnclosingLiteral` | internal/adapters/scan/bracket.go:70-88 | The one-pass quote automaton finds the first of the closed literals of the line that contains the range. |
| `SourceScan.EnclosedIffInLiteral` | internal/adapters/scan/bracket.go:69-88 | A range is found enclosed if and only if it lies in a closed literal of the line; that literal is unique and stands between equal delimiters with no unescaped one inside. |
| `LiteralLaws.LiteralsAreRead` | internal/adapters/scan/bracket.go:69-88 | There is one way to read a line into closed literals, from the left and each up to its first unescaped delimiter, and the scan finds it. |
| `LiteralLaws.FragmentIsLongest` | internal/adapters/scan/bracket.go:49-67 | The part of the literal kept for the title is the longest stretch around the tag that no placeholder overlaps. |
| `SourceScan.TitleAround` | internal/adapters/scan/bracket.go:51-67 | The title is the trimmed part of the enclosing literal between the last placeholder before the tag and the first one after it. |
| `SourceScan.TitleHoldsTag` | internal/adapters/scan/bracket.go:49-67 | A title is empty exactly where no literal encloses the tag, and else is a part of the literal that still holds the whole tag. |
| `SourceScan.Extract` | internal/adapters/scan/bracket.go:25-40 | Each match yields one tag, on the line of its first character and with the title around it. |
| `Settling.PassingTestsOf` | internal/analysis/proofs.go:74-86 | The names of the passing tests of a row, in order. |
| `Settling.TestFilesOf` | internal/analysis/proofs.go:49-64 | The files of the tags that cite the reference, once each, sorted. |
| `Settling.ReportProof` | internal/analysis/proofs.go:90-104 | A proof finding takes the severity of an override, else of the escalation mode, else of its category; none is kept for off. |
| `Settling.SettleProofs` | internal/analysis/proofs.go:25-46 | The criteria handed to the gate are the covered rows in focus, every finding of the gate is settled in order, and the report has one entry for each criterion. |
| `AskedAbout.CriterionIsAsked` | internal/analysis/proofs.go:25-46 | The gate is asked about a criterion only where it is that of a first declaration in focus with a passing test; the criterion has its statement digest, its passing tests and its test files. |
| `AskedAbout.AskedHasCriterion` | internal/analysis/proofs.go:25-46 | And about each of these it is asked. |
| `AskedAbout.KnownAre` | internal/analysis/proofs.go:25-46 | The gate knows the revision and the statement digest of exactly the declared IDs, as first declared. |
| `AskedAbout.PassingTestsInOrder` | internal/analysis/proofs.go:74-86 | The passing tests are those of the row, in its order, each with its name, class and file. |
| `Settling.AnalyzeWithProofs` | internal/analysis/analyze.go:42-77 | The verdict of a run with proofs fails exactly when a finding of the trace or of the gate blocks. |
| `SettlingLaws.SettledIff` | internal/analysis/proofs.go:90-104 | A finding of the gate is settled with a severity if and only if that severity is the override of its category, or, without one, the one its effect and the escalation mode call for; off drops it. |
| `SettlingLaws.VerdictUnderAnyPolicy` | internal/analysis/proofs.go:25-104 | Under any policy and any overrides a run fails if and only if something warrants a finding of the trace that blocks, or one of the gate whose severity, override or not, fails under the policy. |
| `SettlingLaws.ExactVerdictWithOverrides` | internal/analysis/proofs.go:25-104 | With any overrides and the default policy a run fails if and only if the trace does, or some warranted finding of the gate is fatal: by its override where its category has one, whatever its effect and the mode, and else by its effect and the mode. |
| `SettlingLaws.ExactVerdictWithProofs` | internal/analysis/proofs.go:25-104 | Without overrides a run with proofs passes if and only if it is traced, its verified set is usable and well formed, and the proofs accept every criterion asked about. |
| `SettlingLaws.PassVouches` | internal/analysis/proofs.go:25-46 | Where both kinds are required, escalations fail and no override lowers a category, a run that passes on the states the gate gave the verified set holds, for every active requirement in focus, a passing test that cites it, one discriminating matrix and, for each of its tests, of which there is at least one, exactly one verdict, which says ALIGNED and meets every condition of a clearing one; each of these proofs is a statement file that is current and whose consumed proofs are valid too. |
| `ProjectText.AgentsFileReplaces` | internal/adapters/scaffold/files.go:118-136 | The file written is what stood before the section, the section, and what stood after; unbalanced markers are refused. |
| `ProjectText.AgentsFileKeepsTheRest` | internal/adapters/scaffold/files.go:118-136 | What stands before and after is the text of the file around its first begin marker and its first end marker, but for one newline; where there are no markers it is the whole text but for newlines at its end. |
| `ProjectText.LastSectionWins` | internal/adapters/scaffold/files.go:118-136 | Writing one section body and then another is writing the other: nothing outside the markers is touched and nothing of the first is left, if the first body holds no end marker. |
| `ProjectText.AgentsFileIsIdempotentIff` | internal/adapters/scaffold/files.go:118-136 | A second run changes nothing if and only if the section body holds no end marker. |
| `ProjectTextLaws.AgentsFileExactly` | internal/adapters/scaffold/files.go:118-136 | A text is what AGENTS.md becomes if and only if it is the old one with its section, first begin marker to first end marker, replaced, or with the section behind it where it has no marker. |
| `ProjectTextLaws.LinesIff` | internal/adapters/scaffold/files.go:138-150 | The lines of a text are what stands in it between newlines. |
| `ProjectTextLaws.ClaudeMemoryIs` | internal/adapters/scaffold/files.go:138-150 | CLAUDE.md stays where some line imports AGENTS.md; else the import goes behind the text, with an empty line between. |
| `ProjectTextLaws.ConftestIs` | internal/adapters/scaffold/files.go:167-195 | A conftest file with the hook stays, one with a hook of its own is refused, and any other gets the hook at its end. |
| `ProjectText.ClaudeMemoryImports` | internal/adapters/scaffold/files.go:138-150 | The file imports AGENTS.md afterwards, keeps its text, and a second run changes nothing. |
| `ProjectText.ConftestIsIdempotent` | internal/adapters/scaffold/files.go:181-195 | The hook is added once. |
| `HookSettings.Settings.AddStopHook` | internal/adapters/scaffold/hooks.go:132-148 | The settings changed in place hold the hook entry at the end of the list of the event, reported kept exactly when the command was mentioned; where the map was never made, the write that is needed panics. |
| `HookSettings.Settings.AddVersionedHook` | internal/adapters/scaffold/hooks.go:195-231 | The Copilot and Cursor files get a version where they have none and the entry in the list of the event, with the same report and the same panic. |
| `HookSettings.Settings.AddContextFile` | internal/adapters/scaffold/hooks.go:173-190 | AGENTS.md is put first among the context file names unless it is one of them; a map that was never made makes the first write panic. |
| `HookSettings.Settings.AddGeminiSettings` | internal/adapters/scaffold/hooks.go:159-170 | Both the hook and the context file are settled, the change is reported exactly when one was missing, and a map that was never made makes the first write panic. |
| `HookSettings.StopHookIsAddedOnce` | internal/adapters/scaffold/hooks.go:132-148 | The command is mentioned afterwards, so a second run changes nothing. |
| `HookSettings.VersionedHookIsAddedOnce` | internal/adapters/scaffold/hooks.go:195-231 | The same for the Copilot and Cursor files. |
| `HookSettings.GeminiIsSettledOnce` | internal/adapters/scaffold/hooks.go:159-190 | Gemini settings are settled after one run, and every context file name read before is still read. |
| `HookSettings.GeminiKeepsTheRest` | internal/adapters/scaffold/hooks.go:159-190 | Every other setting of Gemini stays, and the hooks are kept exactly under the condition for any harness. |
| `HookSettings.GeminiKeepsIff` | internal/adapters/scaffold/hooks.go:159-190 | Nothing of the Gemini settings is lost if and only if the hooks are there already or fit, and the context is absent or an object whose file name is absent, null, a name or a list. |
| `HookSettings.StopHookKeepsIff` | internal/adapters/scaffold/hooks.go:132-148 | Adding a hook loses nothing of the settings if and only if it was there already, or the wrapper is absent or an object and the event is absent or a list. |
| `HookSettings.VersionedHookKeepsIff` | internal/adapters/scaffold/hooks.go:195-231 | The same condition for the Copilot and Cursor files. |
| `SettingsLaws.HasCommandIff` | internal/adapters/scaffold/hooks.go:300-318 | A command is mentioned if and only if it is some text, at any depth of lists and objects, that is the command itself. |
| `SettingsLaws.StopHookIs` | internal/adapters/scaffold/hooks.go:132-148 | Where the command is not mentioned the settings become the old ones with one item, written out, at the end of the list of the event. |
| `SettingsLaws.CopilotAndCursorHooksAre` | internal/adapters/scaffold/hooks.go:192-231 | The same for the Copilot and Cursor files, with their literal events, commands, items and versions. |
| `SettingsLaws.GeminiIs` | internal/adapters/scaffold/hooks.go:150-190 | The Gemini settings become the old ones with the literal hook and AGENTS.md first among the context files. |
| `InitPlan.WriteSettings` | internal/adapters/scaffold/hooks.go:117-231 | Decoding, changing in place and encoding yields the desired text: settings with nothing missing keep their text, an undecodable file is an error, and a write into the map that null decodes to is a panic. |
| `InitPlan.PanicsOnNullOnly` | internal/adapters/scaffold/hooks.go:263-292 | A provisioner panics if and only if it keeps settings and its file decodes to null, since each of them then comes to a write into a map that was never made. |
| `InitPlan.NothingIsSettledInNull` | internal/adapters/scaffold/hooks.go:132-231 | No writer finds its settings complete where there is no map, so that each of them goes on to write into it. |
| `InitPlan.ProvisionersAreIdempotent` | internal/adapters/scaffold/plan.go:72-77 | Every provisioner wants its own output left alone. |
| `InitPlan.PlanActions` | internal/adapters/scaffold/plan.go:107-115 | The plan holds one action for each provisioner, in order, or fails as the first provisioner that fails does. |
| `InitSetup.Assemble` | internal/adapters/scaffold/plan.go:83-98 | The provisioners are those of every project, the pytest hook where pytest is used, and those of the harnesses named, in that order; a name that is no harness is an error. |
| `InitSetup.Build` | internal/adapters/scaffold/plan.go:80-117 | A plan is built for exactly the assembled provisioners, or fails for an unknown harness or as the first failing provisioner does, before any file is touched. |
| `InitSetup.DetectHarnesses` | internal/adapters/scaffold/hooks.go:81-98 | The names returned are those of the harnesses that are always installed or that the project shows a sign of, in table order. |
| `InitOutcome.FoundIffShown` | internal/adapters/scaffold/hooks.go:39-98 | A harness is found if and only if it is Claude Code or the project has one of its signs, which are spelled out. |
| `InitOutcome.FoundInOrder` | internal/adapters/scaffold/hooks.go:81-89 | They are found in the order of the table. |
| `InitOutcome.RefusedIffUnknown` | internal/adapters/scaffold/plan.go:80-117 | A run is refused before it plans anything if and only if it names something that is none of the harnesses. |
| `InitOutcome.HookStands` | internal/adapters/scaffold/hooks.go:39-231 | After a run that named a harness the file of its hook, named literally, holds the hook in the layout of the harness, and all it held before. |
| `InitOutcome.CommonStands` | internal/adapters/scaffold/plan.go:80-117 | After every run there is the configuration, the old one or the starter, the section in AGENTS.md and the import in CLAUDE.md. |
| `InitOutcome.SkillsStand` | internal/adapters/scaffold/files.go:154-165 | After every run each skill stands under both skill roots. |
| `InitOutcome.ConftestStands` | internal/adapters/scaffold/files.go:167-195 | After a run in a project that looks like pytest the conftest file holds the hook. |
| `InitOutcome.NothingElseIsWritten` | internal/adapters/scaffold/plan.go:80-117 | Every other file is as it was, there or not. |
| `InitSetupLaws.HarnessesAreApart` | internal/adapters/scaffold/hooks.go:39-68 | In the table of the source no file of a harness lies under a sign of another harness or of pytest, or has the path of another file or of any skill; no file every project gets lies under a sign of a harness; and no two harnesses have one name. |
| `InitSetupLaws.AssembledOnePerPath` | internal/adapters/scaffold/plan.go:83-98 | For every table that keeps its harnesses apart, whatever the project holds and whichever harnesses are named, even twice, no two different provisioners have the same path. |
| `InitSetupLaws.DetectionIsStable` | internal/adapters/scaffold/hooks.go:81-98 | For every such table: once init has installed the harnesses it detected, it detects exactly the same ones; no file it writes is a sign of another harness. |
| `InitSetupLaws.SecondInitIsIdle` | internal/adapters/scaffold/runner.go:1-4 | For every such table: after a run of init, a second run with the same hooks assembles its list again, builds a plan, and finds nothing to change in any file. |
| `InitSetupLaws.SecondAutomaticInitIsIdle` | internal/cli/init.go:37-68 | The same of a run that detects the harnesses itself: its plan is not pending and applying it changes nothing. |
| `SoundKit.SomeOutfitIsSound` | internal/adapters/scaffold/plan.go:72-77 | The conditions these laws set on the texts and the encoder of init can be met: an encoder is given, with a decoder that undoes it. |
| `InitPlan.IsPending` | internal/adapters/scaffold/plan.go:39-46 | A plan is pending exactly when some action changes a file. |
| `InitPlan.Project.Apply` | internal/adapters/scaffold/plan.go:49-63 | The files afterwards are those of the plan laid over the files before. |
| `InitPlan.AppliedElsewhere` | internal/adapters/scaffold/plan.go:49-63 | A file no action names stays as it is. |
| `InitPlan.SecondRunIsIdle` | internal/adapters/scaffold/plan.go:80-136 | After a run, a second run plans the same contents, is not pending and changes nothing. |
| `InitPlan.PendingIffItChanges` | internal/adapters/scaffold/plan.go:38-64 | A plan is pending if and only if applying it changes the project. |

## Left out

- File system, shell, environment, processes and the decoding of JSON, YAML and XML: the model starts from loaded values; that a decoder reads back what the encoder wrote is a condition of `InitPlan.Kit`.
- SHA-256: properties are stated of the preimage of the cache key; digests are texts.
- The calendar check of a datetime is a parameter that depends on the token only; the shape of a datetime is modelled.
- The character classes of names in results (space, letter, digit) are parameters of a scan; strings are sequences of scalar values, so a label's length counts characters where the source counts bytes.
- Regular expressions of the bracket tag, the placeholders, the reference list and the Markdown parser, and glob patterns: their matches are parameters. The example marker and the token patterns are written out.
- `Scope.Contains`: where file descriptors may point is a parameter of the gate's input.
- Confidences are reals, so floating-point rounding and NaN are not modelled.
- Message wording and counterexample texts: findings keep category, effect or severity, requirement, location or topic, and test.
- Fields of a statement that no decision reads: attestation, tool versions, the executor profile beyond channel and isolation.
- Report rendering, flag parsing, configuration defaults and closed enums of names.
- Invariants.CheckClaim: does not check the members of the executor of a judged claim nor the closed set of corroboration kinds, which are types here.
- Invariants.CheckMutant: leaves out the attribution of a mutant, the members of a decision other than its source, and the closed sets of validities and outcomes, which are types here.
- Invariants.CheckPool: leaves out what a mutant's extensions may carry beside a decision: counterexamples and attribution.
- Invariants.CheckPower: leaves out the list of tests run and the claims around the reference and the examples, of which the model keeps the answers alone.
- Invariants.CheckAlignment: leaves out the executor, and with it the demand that the judge was blind.
- StatementIdentity.Validate: leaves out the names of the statement and predicate types and of the canonicalization, module, producer and executor, the recomputed cache key, and the questions of a completeness proof; that there is one subject is part of its type.
- Numbers in settings that are rewritten are integers: a fraction, or the rounding of a number too large for a float64, is not modelled.
- Analyzer.Analyze: leaves out findings that are warnings by default and never block (unknown dimension, malformed or detached example, changed statement), test totals, out-of-scope declarations, and the final sort of the findings.
- CitationLaws.TestCaseOrderIsIrrelevant: speaks of the multiset of findings, since their final sort is left out.
- Hook.Decide: the event is parsed already, writes of the counters are taken to succeed, and a reset writes zero or removes the file alike.
- HookSettings.Settings.AddStopHook: nested objects are values of the settings that are written back; the aliasing of nested maps in the source is not modelled.
- InitSetup.Build: the text of the starter configuration, which depends on the runners found, is a parameter, as are the texts of skills and plugins; next steps are not modelled, and a directory without files is no sign of anything.
- How skills are rendered into the section of AGENTS.md: the section body is any text.
