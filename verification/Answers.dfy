/** How often each channel and each isolation level answered for a criterion. */
module Answers {
  import opened ClaimPower
  import opened Counting
  import opened ProofFormat

  datatype Answered = Answered(channels: map<Channel, int>, isolation: map<Isolation, int>)

  const NOBODY := Answered(map[], map[])

  function WithAnswer(answered: Answered, executor: Executor): Answered {
    Answered(answered.channels[executor.channel := Get(answered.channels, executor.channel) + 1],
             answered.isolation[executor.isolation := Get(answered.isolation, executor.isolation) + 1])
  }

  /** The counts after some executors have answered one after the other. */
  function WithAnswers(answered: Answered, executors: seq<Executor>): Answered {
    if executors == [] then answered
    else WithAnswer(WithAnswers(answered, executors[..|executors| - 1]), executors[|executors| - 1])
  }

  lemma WithOneMoreAnswer(answered: Answered, executors: seq<Executor>, executor: Executor)
    ensures WithAnswers(answered, executors + [executor]) == WithAnswer(WithAnswers(answered, executors), executor)
  {
    assert (executors + [executor])[..|executors|] == executors;
  }

  /** Every channel and every level counts exactly its own answers. */
  lemma {:induction false} AnswersAreCounted(answered: Answered, executors: seq<Executor>, channel: Channel,
                                             level: Isolation)
    ensures Get(WithAnswers(answered, executors).channels, channel)
            == Get(answered.channels, channel) + Count(executors, (executor: Executor) => executor.channel == channel)
    ensures Get(WithAnswers(answered, executors).isolation, level)
            == Get(answered.isolation, level) + Count(executors, (executor: Executor) => executor.isolation == level)
  {
    if executors != [] {
      AnswersAreCounted(answered, executors[..|executors| - 1], channel, level);
    }
  }

  /** The answers of one proof have been added to those counted before. */
  ghost predicate Merges(before: Answered, after: Answered, channels: map<Channel, int>, isolation: map<Isolation, int>)
  {
    && (forall channel :: Get(after.channels, channel) == Get(before.channels, channel) + Get(channels, channel))
    && forall level :: Get(after.isolation, level) == Get(before.isolation, level) + Get(isolation, level)
  }

  /** Adds the counts of one map to those of another, in whatever order its keys come. */
  method MergeInto<K(!new)>(into: map<K, int>, counts: map<K, int>) returns (merged: map<K, int>)
    ensures forall key :: Get(merged, key) == Get(into, key) + Get(counts, key)
  {
    merged := into;
    var left := counts.Keys;
    while left != {}
      invariant left <= counts.Keys
      invariant forall key :: Get(merged, key) == Get(into, key) + if key in left then 0 else Get(counts, key)
      decreases left
    {
      var key :| key in left;
      merged := merged[key := Get(merged, key) + counts[key]];
      left := left - {key};
    }
  }

  method MergeCounts(answered: Answered, channels: map<Channel, int>, isolation: map<Isolation, int>)
    returns (after: Answered)
    ensures Merges(answered, after, channels, isolation)
  {
    var mergedChannels := MergeInto(answered.channels, channels);
    var mergedIsolation := MergeInto(answered.isolation, isolation);
    after := Answered(mergedChannels, mergedIsolation);
  }
}
