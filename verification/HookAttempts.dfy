/** The counters of the end-of-turn hook: two small files per session, named after the sanitized session. */
module HookAttempts {

  const ATTEMPTS_SUFFIX := ".count"
  const HOST_WAITS_SUFFIX := ".waits"
  const FILE_PREFIX := "shallnot-hook-"

  predicate IsSafe(c: char) {
    'A' <= c <= 'Z' || 'a' <= c <= 'z' || '0' <= c <= '9' || c == '_' || c == '-'
  }

  /** The session name as a file name: every other character becomes an underscore. */
  function Sanitized(session: string): string {
    seq(|session|, i requires 0 <= i < |session| => if IsSafe(session[i]) then session[i] else '_')
  }

  function PathOf(session: string, suffix: string): string {
    FILE_PREFIX + Sanitized(session) + suffix
  }

  /** A file name keeps letters, digits, underscores and hyphens, and has an underscore for anything else. */
  lemma SanitizedIs(session: string, i: nat)
    requires i < |session|
    ensures |Sanitized(session)| == |session|
    ensures var code := session[i] as int;
            var kept := || 0x41 <= code <= 0x5A || 0x61 <= code <= 0x7A || 0x30 <= code <= 0x39
                        || code == 0x5F || code == 0x2D;
            Sanitized(session)[i] == if kept then session[i] else '_'
  {
  }

  /** Two counter files are the same file exactly for one sanitized session and one counter. */
  lemma PathsAreDistinct(session: string, suffix: string, session': string, suffix': string)
    requires suffix in {ATTEMPTS_SUFFIX, HOST_WAITS_SUFFIX} && suffix' in {ATTEMPTS_SUFFIX, HOST_WAITS_SUFFIX}
    ensures PathOf(session, suffix) == PathOf(session', suffix')
            <==> Sanitized(session) == Sanitized(session') && suffix == suffix'
  {
    var path, path' := PathOf(session, suffix), PathOf(session', suffix');
    if path == path' {
      var name, name' := Sanitized(session), Sanitized(session');
      assert |path| == |FILE_PREFIX| + |name| + 6 && |path'| == |FILE_PREFIX| + |name'| + 6;
      assert path[|FILE_PREFIX|..|FILE_PREFIX| + |name|] == name;
      assert path'[|FILE_PREFIX|..|FILE_PREFIX| + |name'|] == name';
      assert path[|path| - 6..] == suffix && path'[|path'| - 6..] == suffix';
    }
  }

  /** The number a counter file holds; a file that is absent counts as zero. */
  function CounterIn(files: map<string, int>, session: string, suffix: string): int {
    if PathOf(session, suffix) in files then files[PathOf(session, suffix)] else 0
  }

  /** Each counter has a file of its own, named after the session and the counter. */
  lemma CounterFiles(files: map<string, int>, session: string)
    ensures var name := "shallnot-hook-" + Sanitized(session) + ".count";
            CounterIn(files, session, ATTEMPTS_SUFFIX) == if name in files then files[name] else 0
    ensures var name := "shallnot-hook-" + Sanitized(session) + ".waits";
            CounterIn(files, session, HOST_WAITS_SUFFIX) == if name in files then files[name] else 0
  {
  }

  /** The directory of counter files. Writes and removals are taken to succeed. */
  class Attempts {
    var files: map<string, int>

    constructor ()
      ensures files == map[]
    {
      files := map[];
    }

    /** What the counter of a session reads: zero until something is recorded. */
    function Count(session: string): int
      reads this
    {
      CounterIn(files, session, ATTEMPTS_SUFFIX)
    }

    /** The same for the counter of the waits. */
    function CountHostWaits(session: string): int
      reads this
    {
      CounterIn(files, session, HOST_WAITS_SUFFIX)
    }

    method Record(session: string, count: int)
      modifies this
      ensures Count(session) == count && CountHostWaits(session) == old(CountHostWaits(session))
      ensures forall other: string | Sanitized(other) != Sanitized(session) ::
                Count(other) == old(Count(other)) && CountHostWaits(other) == old(CountHostWaits(other))
    {
      files := files[PathOf(session, ATTEMPTS_SUFFIX) := count];
      PathsDiffer(session);
    }

    method RecordHostWaits(session: string, count: int)
      modifies this
      ensures CountHostWaits(session) == count && Count(session) == old(Count(session))
      ensures forall other: string | Sanitized(other) != Sanitized(session) ::
                Count(other) == old(Count(other)) && CountHostWaits(other) == old(CountHostWaits(other))
    {
      files := files[PathOf(session, HOST_WAITS_SUFFIX) := count];
      PathsDiffer(session);
    }

    /** Both counters of the session read zero afterwards, those of every other session are untouched. */
    method Reset(session: string)
      modifies this
      ensures Count(session) == 0 && CountHostWaits(session) == 0
      ensures forall other: string | Sanitized(other) != Sanitized(session) ::
                Count(other) == old(Count(other)) && CountHostWaits(other) == old(CountHostWaits(other))
    {
      files := files - {PathOf(session, ATTEMPTS_SUFFIX), PathOf(session, HOST_WAITS_SUFFIX)};
      PathsDiffer(session);
    }
  }

  lemma PathsDiffer(session: string)
    ensures PathOf(session, ATTEMPTS_SUFFIX) != PathOf(session, HOST_WAITS_SUFFIX)
    ensures forall other: string | Sanitized(other) != Sanitized(session) ::
              && {PathOf(other, ATTEMPTS_SUFFIX), PathOf(other, HOST_WAITS_SUFFIX)}
                 !! {PathOf(session, ATTEMPTS_SUFFIX), PathOf(session, HOST_WAITS_SUFFIX)}
  {
    PathsAreDistinct(session, ATTEMPTS_SUFFIX, session, HOST_WAITS_SUFFIX);
    forall other: string | Sanitized(other) != Sanitized(session)
      ensures {PathOf(other, ATTEMPTS_SUFFIX), PathOf(other, HOST_WAITS_SUFFIX)}
              !! {PathOf(session, ATTEMPTS_SUFFIX), PathOf(session, HOST_WAITS_SUFFIX)}
    {
      PathsAreDistinct(other, ATTEMPTS_SUFFIX, session, ATTEMPTS_SUFFIX);
      PathsAreDistinct(other, ATTEMPTS_SUFFIX, session, HOST_WAITS_SUFFIX);
      PathsAreDistinct(other, HOST_WAITS_SUFFIX, session, ATTEMPTS_SUFFIX);
      PathsAreDistinct(other, HOST_WAITS_SUFFIX, session, HOST_WAITS_SUFFIX);
    }
  }
}
