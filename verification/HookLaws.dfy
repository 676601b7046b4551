/**
 The hook over whole runs: its bound on consecutive blocks, the announcement of a
 pass, the agreement of the two ways of counting and the independence of sessions.
 */
module HookLaws {
  import opened Hook
  import opened HookAttempts

  // ----- The history of a run

  /** Blocks since the last turn that was let end, by what they blocked on. */
  datatype Tally = Tally(evidence: nat, waits: nat)

  /** The tally a transcript of verdicts and decisions amounts to. */
  function SinceRelease(verdicts: seq<Verdict>, decisions: seq<Decision>): Tally
    requires |decisions| == |verdicts|
  {
    if verdicts == [] || decisions[|decisions| - 1] != SendBack then Tally(0, 0)
    else
      var earlier := SinceRelease(verdicts[..|verdicts| - 1], decisions[..|decisions| - 1]);
      if verdicts[|verdicts| - 1] == BlocksOnPending then earlier.(waits := earlier.waits + 1)
      else earlier.(evidence := earlier.evidence + 1)
  }

  /** The blocks in a row a harness that counts them has seen. */
  function BlocksInARow(decisions: seq<Decision>): nat {
    if decisions == [] || decisions[|decisions| - 1] != SendBack then 0
    else 1 + BlocksInARow(decisions[..|decisions| - 1])
  }

  datatype Run = Run(counters: Counters, decisions: seq<Decision>)

  /** A session from its start, under a harness that counts the blocks itself or leaves the count to the hook. */
  function RunOf(countsBlocks: bool, verdicts: seq<Verdict>): (run: Run)
    ensures |run.decisions| == |verdicts|
  {
    if verdicts == [] then Run(Counters(0, 0), [])
    else
      var before := RunOf(countsBlocks, verdicts[..|verdicts| - 1]);
      var (counters, decision) := Step(before.counters, countsBlocks, BlocksInARow(before.decisions),
                                       verdicts[|verdicts| - 1]);
      Run(counters, before.decisions + [decision])
  }

  /** What the history alone says the next decision is. */
  function Expected(tally: Tally, verdict: Verdict): Decision {
    match verdict
    case Passes => if tally.evidence + tally.waits > 0 then AnnouncePass else Allow
    case BlocksOnEvidence => if tally.evidence == 3 then GiveUp else SendBack
    case BlocksOnPending => if tally.waits == 3 then GiveUp else SendBack
  }

  lemma {:induction false} BlocksAreTheTally(verdicts: seq<Verdict>, decisions: seq<Decision>)
    requires |decisions| == |verdicts|
    ensures BlocksInARow(decisions)
            == SinceRelease(verdicts, decisions).evidence + SinceRelease(verdicts, decisions).waits
  {
    if verdicts != [] {
      BlocksAreTheTally(verdicts[..|verdicts| - 1], decisions[..|decisions| - 1]);
    }
  }

  /** The counters of a session stand for the tally of its history, which is within the limits. */
  predicate Tracks(countsBlocks: bool, counters: Counters, tally: Tally) {
    && tally.evidence <= 3 && tally.waits <= 3
    && counters.waits == tally.waits
    && counters.attempts == if countsBlocks then 0 else tally.evidence
  }

  function Next(tally: Tally, verdict: Verdict, decision: Decision): Tally {
    if decision != SendBack then Tally(0, 0)
    else if verdict == BlocksOnPending then tally.(waits := tally.waits + 1)
    else tally.(evidence := tally.evidence + 1)
  }

  /** One step keeps the counters and the history together and decides what the history says. */
  lemma StepTracks(countsBlocks: bool, counters: Counters, tally: Tally, verdict: Verdict)
    requires Tracks(countsBlocks, counters, tally)
    ensures var (after, decision) := Step(counters, countsBlocks, tally.evidence + tally.waits, verdict);
            decision == Expected(tally, verdict) && Tracks(countsBlocks, after, Next(tally, verdict, decision))
  {
  }

  /** A run, one verdict longer. */
  lemma RunAppend(countsBlocks: bool, earlier: seq<Verdict>, verdict: Verdict)
    ensures var before := RunOf(countsBlocks, earlier);
            var (counters, decision) := Step(before.counters, countsBlocks, BlocksInARow(before.decisions), verdict);
            RunOf(countsBlocks, earlier + [verdict]) == Run(counters, before.decisions + [decision])
  {
    assert (earlier + [verdict])[..|earlier|] == earlier;
  }

  lemma SinceReleaseAppend(earlier: seq<Verdict>, decisions: seq<Decision>, verdict: Verdict, decision: Decision)
    requires |decisions| == |earlier|
    ensures SinceRelease(earlier + [verdict], decisions + [decision])
            == Next(SinceRelease(earlier, decisions), verdict, decision)
  {
    assert (earlier + [verdict])[..|earlier|] == earlier && (decisions + [decision])[..|earlier|] == decisions;
  }

  function TallyOf(countsBlocks: bool, verdicts: seq<Verdict>): Tally {
    SinceRelease(verdicts, RunOf(countsBlocks, verdicts).decisions)
  }

  lemma TallyAppend(countsBlocks: bool, earlier: seq<Verdict>, verdict: Verdict)
    requires Tracks(countsBlocks, RunOf(countsBlocks, earlier).counters, TallyOf(countsBlocks, earlier))
    ensures var longer := RunOf(countsBlocks, earlier + [verdict]);
            && longer.decisions
               == RunOf(countsBlocks, earlier).decisions + [Expected(TallyOf(countsBlocks, earlier), verdict)]
            && Tracks(countsBlocks, longer.counters, TallyOf(countsBlocks, earlier + [verdict]))
  {
    var before, tally := RunOf(countsBlocks, earlier), TallyOf(countsBlocks, earlier);
    BlocksAreTheTally(earlier, before.decisions);
    StepTracks(countsBlocks, before.counters, tally, verdict);
    RunAppend(countsBlocks, earlier, verdict);
    SinceReleaseAppend(earlier, before.decisions, verdict, Expected(tally, verdict));
  }

  /** Along every run the counters are the history. */
  lemma {:induction false} CountersAreTheHistory(countsBlocks: bool, verdicts: seq<Verdict>)
    ensures Tracks(countsBlocks, RunOf(countsBlocks, verdicts).counters, TallyOf(countsBlocks, verdicts))
  {
    if verdicts != [] {
      var earlier, last := verdicts[..|verdicts| - 1], verdicts[|verdicts| - 1];
      CountersAreTheHistory(countsBlocks, earlier);
      assert verdicts == earlier + [last];
      TallyAppend(countsBlocks, earlier, last);
    }
  }

  lemma {:induction false} RunPrefix(countsBlocks: bool, verdicts: seq<Verdict>, i: nat)
    requires i <= |verdicts|
    ensures RunOf(countsBlocks, verdicts[..i]).decisions == RunOf(countsBlocks, verdicts).decisions[..i]
  {
    if i == |verdicts| {
      assert verdicts[..i] == verdicts;
    } else {
      RunPrefix(countsBlocks, verdicts[..|verdicts| - 1], i);
      assert verdicts[..|verdicts| - 1][..i] == verdicts[..i];
    }
  }

  // ----- The bound

  /** At every point of every run, blocks since the last release stay within each limit and within their sum. */
  lemma BoundedBlocks(countsBlocks: bool, verdicts: seq<Verdict>, i: nat)
    requires i <= |verdicts|
    ensures var decisions := RunOf(countsBlocks, verdicts).decisions;
            var tally := SinceRelease(verdicts[..i], decisions[..i]);
            tally.evidence <= 3 && tally.waits <= 3 && BlocksInARow(decisions[..i]) <= 6
  {
    RunPrefix(countsBlocks, verdicts, i);
    CountersAreTheHistory(countsBlocks, verdicts[..i]);
    BlocksAreTheTally(verdicts[..i], RunOf(countsBlocks, verdicts).decisions[..i]);
  }

  lemma {:induction false} DecisionOfPrefix(countsBlocks: bool, verdicts: seq<Verdict>, i: nat)
    requires i < |verdicts|
    ensures RunOf(countsBlocks, verdicts).decisions[i]
            == RunOf(countsBlocks, verdicts[..i] + [verdicts[i]]).decisions[i]
  {
    RunPrefix(countsBlocks, verdicts, i + 1);
    var prefix := verdicts[..i] + [verdicts[i]];
    assert verdicts[..i + 1] == prefix;
    assert |RunOf(countsBlocks, prefix).decisions| == i + 1;
  }

  /** Each decision is what the history before it says. */
  lemma {:induction false} DecisionsFollowHistory(countsBlocks: bool, verdicts: seq<Verdict>, i: nat)
    requires i < |verdicts|
    ensures var decisions := RunOf(countsBlocks, verdicts).decisions;
            decisions[i] == Expected(SinceRelease(verdicts[..i], decisions[..i]), verdicts[i])
  {
    var earlier := verdicts[..i];
    RunPrefix(countsBlocks, verdicts, i);
    DecisionOfPrefix(countsBlocks, verdicts, i);
    CountersAreTheHistory(countsBlocks, earlier);
    TallyAppend(countsBlocks, earlier, verdicts[i]);
  }

  lemma {:induction false} UnbrokenBlocks(decisions: seq<Decision>, i: nat)
    requires i <= |decisions| && forall k | i <= k < |decisions| :: decisions[k] == SendBack
    ensures BlocksInARow(decisions) >= |decisions| - i
  {
    if i < |decisions| {
      UnbrokenBlocks(decisions[..|decisions| - 1], i);
    }
  }

  /** Among seven blocked verdicts in a row the hook gives up at least once. */
  lemma SevenBlocksContainAGiveUp(countsBlocks: bool, verdicts: seq<Verdict>, i: nat)
    requires i + 7 <= |verdicts|
    requires forall k | i <= k < i + 7 :: verdicts[k] != Passes
    ensures exists k | i <= k < i + 7 ::
              RunOf(countsBlocks, verdicts).decisions[k] == GiveUp
  {
    var decisions, end := RunOf(countsBlocks, verdicts).decisions, i + 7;
    if forall k | i <= k < end :: decisions[k] != GiveUp {
      forall k | i <= k < end ensures decisions[k] == SendBack {
        DecisionsFollowHistory(countsBlocks, verdicts, k);
      }
      UnbrokenBlocks(decisions[..end], i);
      BoundedBlocks(countsBlocks, verdicts, end);
      assert false;
    }
  }

  /** The session has just started, or its last turn was let end. */
  predicate Released(countsBlocks: bool, verdicts: seq<Verdict>) {
    verdicts == [] || RunOf(countsBlocks, verdicts).decisions[|verdicts| - 1] != SendBack
  }

  /** What the next verdict of a run adds to its decisions and to its tally. */
  lemma OneMore(countsBlocks: bool, verdicts: seq<Verdict>, verdict: Verdict)
    ensures var tally, longer := TallyOf(countsBlocks, verdicts), RunOf(countsBlocks, verdicts + [verdict]);
            && longer.decisions == RunOf(countsBlocks, verdicts).decisions + [Expected(tally, verdict)]
            && TallyOf(countsBlocks, verdicts + [verdict]) == Next(tally, verdict, Expected(tally, verdict))
  {
    CountersAreTheHistory(countsBlocks, verdicts);
    TallyAppend(countsBlocks, verdicts, verdict);
    SinceReleaseAppend(verdicts, RunOf(countsBlocks, verdicts).decisions, verdict,
                       Expected(TallyOf(countsBlocks, verdicts), verdict));
  }

  /** How many turns in a row were sent back for the reason. */
  function SentBackFor(tally: Tally, blocked: Verdict): nat {
    if blocked == BlocksOnPending then tally.waits else tally.evidence
  }

  /** One more turn of a reason that has not been sent back three times yet is sent back. */
  lemma OneMoreSent(countsBlocks: bool, verdicts: seq<Verdict>, blocked: Verdict)
    requires blocked != Passes && SentBackFor(TallyOf(countsBlocks, verdicts), blocked) < 3
    ensures var longer, before := verdicts + [blocked], TallyOf(countsBlocks, verdicts);
            && RunOf(countsBlocks, longer).decisions == RunOf(countsBlocks, verdicts).decisions + [SendBack]
            && SentBackFor(TallyOf(countsBlocks, longer), blocked) == SentBackFor(before, blocked) + 1
            && forall other | other != Passes && other != blocked ::
                 SentBackFor(TallyOf(countsBlocks, longer), other) == SentBackFor(before, other)
  {
    OneMore(countsBlocks, verdicts, blocked);
  }

  /** So three in a row are, and the turns of the other reason keep their number. */
  lemma ThreeMoreSent(countsBlocks: bool, verdicts: seq<Verdict>, blocked: Verdict)
    requires blocked != Passes && SentBackFor(TallyOf(countsBlocks, verdicts), blocked) == 0
    ensures var longer, before := verdicts + [blocked] + [blocked] + [blocked], TallyOf(countsBlocks, verdicts);
            && RunOf(countsBlocks, longer).decisions
               == RunOf(countsBlocks, verdicts).decisions + [SendBack] + [SendBack] + [SendBack]
            && SentBackFor(TallyOf(countsBlocks, longer), blocked) == 3
            && forall other | other != Passes && other != blocked ::
                 SentBackFor(TallyOf(countsBlocks, longer), other) == SentBackFor(before, other)
  {
    OneMoreSent(countsBlocks, verdicts, blocked);
    OneMoreSent(countsBlocks, verdicts + [blocked], blocked);
    OneMoreSent(countsBlocks, verdicts + [blocked] + [blocked], blocked);
  }

  lemma NoneSentYet(countsBlocks: bool, verdicts: seq<Verdict>)
    requires Released(countsBlocks, verdicts)
    ensures TallyOf(countsBlocks, verdicts) == Tally(0, 0)
  {
  }

  /** Three turns blocked for one reason are sent back, and the fourth gives up. */
  lemma ThreeAreSentBack(countsBlocks: bool, verdicts: seq<Verdict>, blocked: Verdict)
    requires Released(countsBlocks, verdicts) && blocked != Passes
    ensures RunOf(countsBlocks, verdicts + [blocked] + [blocked] + [blocked] + [blocked]).decisions
            == RunOf(countsBlocks, verdicts).decisions + [SendBack] + [SendBack] + [SendBack] + [GiveUp]
  {
    NoneSentYet(countsBlocks, verdicts);
    ThreeMoreSent(countsBlocks, verdicts, blocked);
    OneMore(countsBlocks, verdicts + [blocked] + [blocked] + [blocked], blocked);
  }

  /** Three turns blocked for one reason and three for the other are sent back; whatever blocks then gives up. */
  lemma SixAreSentBack(countsBlocks: bool, verdicts: seq<Verdict>, blocked: Verdict)
    requires Released(countsBlocks, verdicts) && blocked != Passes
    ensures var three := verdicts + [BlocksOnEvidence] + [BlocksOnEvidence] + [BlocksOnEvidence];
            var six := three + [BlocksOnPending] + [BlocksOnPending] + [BlocksOnPending];
            RunOf(countsBlocks, six + [blocked]).decisions
            == RunOf(countsBlocks, verdicts).decisions + [SendBack] + [SendBack] + [SendBack] + [SendBack] + [SendBack]
               + [SendBack] + [GiveUp]
  {
    var three := verdicts + [BlocksOnEvidence] + [BlocksOnEvidence] + [BlocksOnEvidence];
    NoneSentYet(countsBlocks, verdicts);
    ThreeMoreSent(countsBlocks, verdicts, BlocksOnEvidence);
    ThreeMoreSent(countsBlocks, three, BlocksOnPending);
    OneMore(countsBlocks, three + [BlocksOnPending] + [BlocksOnPending] + [BlocksOnPending], blocked);
  }

  /** A pass is announced exactly when the turn before it was sent back. */
  lemma AnnouncedAfterABlock(countsBlocks: bool, verdicts: seq<Verdict>, i: nat)
    requires i < |verdicts|
    ensures var decisions := RunOf(countsBlocks, verdicts).decisions;
            decisions[i] == AnnouncePass <==> verdicts[i] == Passes && i > 0 && decisions[i - 1] == SendBack
  {
    var decisions := RunOf(countsBlocks, verdicts).decisions;
    DecisionsFollowHistory(countsBlocks, verdicts, i);
    BlocksAreTheTally(verdicts[..i], decisions[..i]);
    if i > 0 {
      assert decisions[..i][i - 1] == decisions[i - 1];
    }
  }

  // ----- The two ways of counting

  /** Whoever counts the blocks, every run takes the same decisions. */
  lemma {:induction false} CountingRegimesAgree(verdicts: seq<Verdict>)
    ensures RunOf(true, verdicts).decisions == RunOf(false, verdicts).decisions
  {
    if verdicts != [] {
      var earlier, last := verdicts[..|verdicts| - 1], verdicts[|verdicts| - 1];
      CountingRegimesAgree(earlier);
      assert verdicts == earlier + [last];
      CountersAreTheHistory(true, earlier);
      CountersAreTheHistory(false, earlier);
      TallyAppend(true, earlier, last);
      TallyAppend(false, earlier, last);
    }
  }

  // ----- Several sessions

  datatype Call = Call(session: string, verdict: Verdict)

  /** The verdicts of the calls of one sanitized session. */
  function VerdictsOf(calls: seq<Call>, name: string): seq<Verdict> {
    if calls == [] then []
    else
      var last := calls[|calls| - 1];
      VerdictsOf(calls[..|calls| - 1], name) + (if Sanitized(last.session) == name then [last.verdict] else [])
  }

  /** The decisions taken on the calls of one sanitized session. */
  function DecisionsOf(calls: seq<Call>, decisions: seq<Decision>, name: string): seq<Decision>
    requires |decisions| == |calls|
  {
    if calls == [] then []
    else
      DecisionsOf(calls[..|calls| - 1], decisions[..|calls| - 1], name)
      + (if Sanitized(calls[|calls| - 1].session) == name then [decisions[|calls| - 1]] else [])
  }

  datatype SharedRun = SharedRun(files: map<string, int>, decisions: seq<Decision>)

  function CountersIn(files: map<string, int>, session: string): Counters {
    Counters(CounterIn(files, session, ATTEMPTS_SUFFIX), CounterIn(files, session, HOST_WAITS_SUFFIX))
  }

  /** The counter files after a call that leaves these counters for the session. */
  function WithCounters(files: map<string, int>, session: string, counters: Counters): map<string, int> {
    files[PathOf(session, ATTEMPTS_SUFFIX) := counters.attempts][PathOf(session, HOST_WAITS_SUFFIX) := counters.waits]
  }

  /**
   Calls of any sessions, interleaved, over one directory of counter files. The count a
   harness supplies is kept for each sanitized name here; a harness keeps it for each
   session as spelled, which differs only for sessions whose sanitized names collide.
   */
  function SharedRunOf(countsBlocks: bool, calls: seq<Call>): (run: SharedRun)
    ensures |run.decisions| == |calls|
  {
    if calls == [] then SharedRun(map[], [])
    else
      var before := SharedRunOf(countsBlocks, calls[..|calls| - 1]);
      var call := calls[|calls| - 1];
      var prior := BlocksInARow(DecisionsOf(calls[..|calls| - 1], before.decisions, Sanitized(call.session)));
      var (counters, decision) := Step(CountersIn(before.files, call.session), countsBlocks, prior, call.verdict);
      SharedRun(WithCounters(before.files, call.session, counters), before.decisions + [decision])
  }

  lemma WritesStayApart(files: map<string, int>, session: string, counters: Counters, other: string)
    ensures CountersIn(WithCounters(files, session, counters), other)
            == if Sanitized(other) == Sanitized(session) then counters else CountersIn(files, other)
  {
    PathsAreDistinct(other, ATTEMPTS_SUFFIX, session, ATTEMPTS_SUFFIX);
    PathsAreDistinct(other, ATTEMPTS_SUFFIX, session, HOST_WAITS_SUFFIX);
    PathsAreDistinct(other, HOST_WAITS_SUFFIX, session, ATTEMPTS_SUFFIX);
    PathsAreDistinct(other, HOST_WAITS_SUFFIX, session, HOST_WAITS_SUFFIX);
  }

  lemma SharedRunAppend(countsBlocks: bool, earlier: seq<Call>, call: Call, session: string)
    ensures var before, name := SharedRunOf(countsBlocks, earlier), Sanitized(call.session);
            var (counters, decision) := Step(CountersIn(before.files, call.session), countsBlocks,
                                             BlocksInARow(DecisionsOf(earlier, before.decisions, name)), call.verdict);
            var after := SharedRunOf(countsBlocks, earlier + [call]);
            && after == SharedRun(WithCounters(before.files, call.session, counters), before.decisions + [decision])
            && DecisionsOf(earlier + [call], after.decisions, Sanitized(session))
               == DecisionsOf(earlier, before.decisions, Sanitized(session))
                  + (if name == Sanitized(session) then [decision] else [])
            && VerdictsOf(earlier + [call], Sanitized(session))
               == VerdictsOf(earlier, Sanitized(session)) + (if name == Sanitized(session) then [call.verdict] else [])
  {
    var before := SharedRunOf(countsBlocks, earlier);
    assert (earlier + [call])[..|earlier|] == earlier;
    var after := SharedRunOf(countsBlocks, earlier + [call]);
    assert after.decisions[..|earlier|] == before.decisions;
  }

  /** Each session decides as if it were alone, whatever other sessions do in between. */
  lemma {:induction false} SessionsDoNotInteract(countsBlocks: bool, calls: seq<Call>, session: string)
    ensures var shared, name := SharedRunOf(countsBlocks, calls), Sanitized(session);
            && DecisionsOf(calls, shared.decisions, name) == RunOf(countsBlocks, VerdictsOf(calls, name)).decisions
            && CountersIn(shared.files, session) == RunOf(countsBlocks, VerdictsOf(calls, name)).counters
  {
    if calls != [] {
      var earlier, call, name := calls[..|calls| - 1], calls[|calls| - 1], Sanitized(session);
      SessionsDoNotInteract(countsBlocks, earlier, session);
      assert calls == earlier + [call];
      SharedRunAppend(countsBlocks, earlier, call, session);
      var before := SharedRunOf(countsBlocks, earlier);
      var prior := BlocksInARow(DecisionsOf(earlier, before.decisions, Sanitized(call.session)));
      var (counters, decision) := Step(CountersIn(before.files, call.session), countsBlocks, prior, call.verdict);
      WritesStayApart(before.files, call.session, counters, session);
      if Sanitized(call.session) == name {
        var alone := RunOf(countsBlocks, VerdictsOf(earlier, name));
        assert CountersIn(before.files, call.session) == CountersIn(before.files, session) == alone.counters;
        RunAppend(countsBlocks, VerdictsOf(earlier, name), call.verdict);
        assert RunOf(countsBlocks, VerdictsOf(calls, name)) == Run(counters, alone.decisions + [decision]);
      } else {
        assert VerdictsOf(calls, name) == VerdictsOf(earlier, name);
      }
    }
  }
}
