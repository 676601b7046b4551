/** What the gate has collected before any judgment: the criteria, the verified set and the digests of the tree. */
module GateInput {
  import opened ProofConfig
  import opened ProofFormat

  datatype KnownRequirement = KnownRequirement(revision: int, digest: string)

  /** How proofs may refer to a test that passed; file is empty where no source was found for it. */
  datatype TestName = TestName(name: string, className: string, file: string)

  /**
   What the gate is asked to judge: a covered requirement with the
   tests that passed for it and the files that tag it.
   */
  datatype Criterion = Criterion(ref: Requirement, passingTests: seq<TestName>, testFiles: seq<string>)
  {
    function RefText(): string {
      SubjectName(ref.id, ref.revision)
    }
  }

  datatype Content = Ignored | Problem(text: string) | Parsed(statement: Statement)

  datatype LoadedStatement = LoadedStatement(path: string, digest: string, content: Content)

  datatype PendingReason = PendingHost | PendingProof | PendingHostJudgment | PendingUnresponsive

  datatype Pending = Pending(module_: string, criterion: string, reason: PendingReason)

  /** Which manifest it is, who wrote it, and against which root and policy its set was verified. */
  datatype ManifestIdentity = ManifestIdentity(path: string, digest: string, verifierVersion: string,
                                               trustedRootDigest: string, policyDigest: string)

  datatype Evidence = Evidence(manifestPresent: bool, manifestProblem: string, manifest: ManifestIdentity, trust: Trust,
                               pending: seq<Pending>, statements: seq<LoadedStatement>,
                               specFiles: map<string, string>, files: map<string, string>)
  {
    predicate Usable() {
      manifestPresent && manifestProblem == ""
    }
  }

  /** covers tells, by role and path, the paths inside the configured scope. */
  datatype Input = Input(config: Config, known: map<string, KnownRequirement>, criteria: seq<Criterion>,
                         covers: (InputRole, string) -> bool, evidence: Evidence)

  /** The text is the name of the test, bare or qualified by a class name it has. */
  predicate Matches(proofTest: string, test: TestName) {
    proofTest == test.name || (test.className != "" && proofTest == test.className + "." + test.name)
  }

  /** The names a proof may use for the test: its own, and where it has a class that of the class in front of it. */
  function NamesOf(test: TestName): set<string> {
    {test.name} + if test.className == "" then {} else {test.className + "." + test.name}
  }

  lemma MatchesIff(text: string, test: TestName)
    ensures Matches(text, test) <==> text in NamesOf(test)
  {
  }
}
