/**
 The plan of init: what each provisioner wants of its file, given what the file
 holds; the actions that follow; and the files after they have been carried out,
 once and again.
 */
module InitPlan {
  import opened HookSettings
  import opened ProjectText

  datatype Content = Absent | Present(text: string)
  {
    function OrEmpty(): string {
      if Present? then text else ""
    }
  }

  datatype Change = ChangeNone | ChangeCreate | ChangeUpdate

  datatype Action = Action(path: string, change: Change, content: string)

  type Files = map<string, string>

  function ContentOf(files: Files, path: string): Content {
    if path in files then Present(files[path]) else Absent
  }

  // ----- The provisioners

  /** What a settings file decodes to: an object, the null that leaves the source with no map at all, or an error. */
  datatype Decoded = DecodedObject(members: Members) | DecodedNull | Undecodable

  /** How settings are read from and written to the text of a file. */
  datatype Codec = Codec(decode: string -> Decoded, encode: Members -> string)
  {
    /** A blank file holds no settings. */
    function Decode(text: string): Decoded {
      if Blank(text) then DecodedObject(map[]) else decode(text)
    }

    /** What is written is read back. */
    ghost predicate RoundTrips() {
      forall members :: !Blank(encode(members)) && decode(encode(members)) == DecodedObject(members)
    }
  }

  /** The text init carries with it: the body of the section of AGENTS.md and the hook of conftest.py. */
  datatype Kit = Kit(codec: Codec, body: string, hook: string)
  {
    ghost predicate Sound() {
      codec.RoundTrips() && !Holds(body, SECTION_END) && Holds(hook, CONFTEST_MARKER)
    }
  }

  /** The strategy for one file. */
  datatype Provisioner =
    | Owned(file: string, content: string)
    | ConfigFile(starter: string)
    | AgentsSection
    | ClaudeImport
    | PytestHook
    | StopHook(file: string, wrapper: string, event: string, command: string)
    | CopilotHook
    | CursorHook
    | GeminiHook
  {
    function Path(): string {
      match this
      case Owned(file, _) => file
      case ConfigFile(_) => "shallnot.yaml"
      case AgentsSection => AGENTS_PATH
      case ClaudeImport => "CLAUDE.md"
      case PytestHook => "conftest.py"
      case StopHook(file, _, _, _) => file
      case CopilotHook => ".github/hooks/shallnot.json"
      case CursorHook => ".cursor/hooks.json"
      case GeminiHook => ".gemini/settings.json"
    }

    /** From the content of the file, absent or not, the content init wants. */
    function Desired(kit: Kit, current: Content): Result<string> {
      var text := current.OrEmpty();
      match this
      case Owned(_, content) => Ok(content)
      case ConfigFile(starter) => Ok(if current.Present? then text else starter)
      case AgentsSection => AgentsFile(kit.body, text)
      case ClaudeImport => Ok(ClaudeMemory(text))
      case PytestHook => PytestConftest(kit.hook, text)
      case _ => DesiredSettings(kit.codec, text)
    }

    predicate WritesSettings() {
      StopHook? || CopilotHook? || CursorHook? || GeminiHook?
    }

    /** Nothing is missing from the settings. */
    predicate Settled(members: Members)
      requires WritesSettings()
    {
      match this
      case StopHook(_, wrapper, event, command) => MentionedAt(members, HookSettings.Place(wrapper, event), command)
      case CopilotHook => MentionedAt(members, HOOKS, COPILOT_STOP_COMMAND)
      case CursorHook => MentionedAt(members, HOOKS, CURSOR_STOP_COMMAND)
      case GeminiHook => GeminiSettled(members)
    }

    function Rewritten(members: Members): Members
      requires WritesSettings()
    {
      match this
      case StopHook(_, wrapper, event, command) =>
        WithStopHook(members, wrapper, event, command, GATE_TIMEOUT_SECONDS, map[])
      case CopilotHook => WithVersionedHook(members, "agentStop", COPILOT_STOP_COMMAND, CopilotEntry())
      case CursorHook => WithVersionedHook(members, "stop", CURSOR_STOP_COMMAND, CursorEntry())
      case GeminiHook => WithGeminiSettings(members)
    }

    /** Where nothing is missing the text stays; else what is missing is written, if there is a map to write into. */
    function Wanted(codec: Codec, text: string, made: bool, members: Members): Result<string>
      requires WritesSettings()
    {
      if Settled(members) then Ok(text) else if made then Ok(codec.encode(Rewritten(members))) else Panic
    }

    function DesiredSettings(codec: Codec, text: string): Result<string>
      requires WritesSettings()
    {
      match codec.Decode(text)
      case Undecodable => Err
      case DecodedNull => Wanted(codec, text, false, map[])
      case DecodedObject(members) => Wanted(codec, text, true, members)
    }
  }

  /** Decodes the settings, changes them in place, and encodes them if they changed. */
  method WriteSettings(codec: Codec, provisioner: Provisioner, text: string) returns (desired: Result<string>)
    requires provisioner.WritesSettings()
    ensures desired == provisioner.DesiredSettings(codec, text)
  {
    var decoded := codec.Decode(text);
    if decoded.Undecodable? {
      return Err;
    }
    var settings := new Settings(decoded.DecodedObject?, if decoded.DecodedObject? then decoded.members else map[]);
    var write;
    match provisioner {
      case StopHook(_, wrapper, event, command) =>
        write := settings.AddStopHook(wrapper, event, command, GATE_TIMEOUT_SECONDS, map[]);
      case CopilotHook => write := settings.AddVersionedHook("agentStop", COPILOT_STOP_COMMAND, CopilotEntry());
      case CursorHook => write := settings.AddVersionedHook("stop", CURSOR_STOP_COMMAND, CursorEntry());
      case GeminiHook => write := settings.AddGeminiSettings();
    }
    match write {
      case Kept => desired := Ok(text);
      case Changed => desired := Ok(codec.encode(settings.members));
      case Panicked => desired := Panic;
    }
  }

  /** In no map at all something is always missing, so that every writer comes to write into it. */
  lemma NothingIsSettledInNull(provisioner: Provisioner)
    requires provisioner.WritesSettings()
    ensures !provisioner.Settled(map[])
  {
    match provisioner {
      case GeminiHook =>
      case _ =>
    }
  }

  /** A provisioner panics exactly when it keeps settings and their file holds null. */
  lemma PanicsOnNullOnly(kit: Kit, provisioner: Provisioner, current: Content)
    ensures provisioner.Desired(kit, current).Panic?
            <==> provisioner.WritesSettings() && !Blank(current.OrEmpty())
                 && kit.codec.decode(current.OrEmpty()) == DecodedNull
  {
    if provisioner.WritesSettings() {
      NothingIsSettledInNull(provisioner);
    }
  }

  lemma RewrittenIsSettled(provisioner: Provisioner, members: Members)
    requires provisioner.WritesSettings()
    ensures provisioner.Settled(provisioner.Rewritten(members))
  {
    match provisioner {
      case StopHook(_, wrapper, event, command) =>
        StopHookIsAddedOnce(members, wrapper, event, command, GATE_TIMEOUT_SECONDS, map[]);
      case CopilotHook =>
        OwnEntriesMention();
        VersionedHookIsAddedOnce(members, "agentStop", COPILOT_STOP_COMMAND, CopilotEntry());
      case CursorHook =>
        OwnEntriesMention();
        VersionedHookIsAddedOnce(members, "stop", CURSOR_STOP_COMMAND, CursorEntry());
      case GeminiHook => GeminiIsSettledOnce(members);
    }
  }

  /** Every provisioner wants its own output left alone. */
  lemma ProvisionersAreIdempotent(kit: Kit, provisioner: Provisioner, current: Content)
    requires kit.Sound() && provisioner.Desired(kit, current).Ok?
    ensures provisioner.Desired(kit, Present(provisioner.Desired(kit, current).value))
            == provisioner.Desired(kit, current)
  {
    var text := current.OrEmpty();
    match provisioner {
      case AgentsSection => AgentsFileIsIdempotentIff(kit.body, text);
      case ClaudeImport => ClaudeMemoryImports(text);
      case PytestHook => ConftestIsIdempotent(kit.hook, text);
      case Owned(_, _) =>
      case ConfigFile(_) =>
      case _ =>
        NothingIsSettledInNull(provisioner);
        var members := kit.codec.Decode(text).members;
        RewrittenIsSettled(provisioner, members);
        assert kit.codec.Decode(kit.codec.encode(provisioner.Rewritten(members)))
               == DecodedObject(provisioner.Rewritten(members));
    }
  }

  // ----- Building and applying

  function ActionOf(kit: Kit, files: Files, provisioner: Provisioner): Result<Action> {
    var current := ContentOf(files, provisioner.Path());
    match provisioner.Desired(kit, current)
    case Err => Err
    case Panic => Panic
    case Ok(content) =>
      Ok(Action(provisioner.Path(),
                if current.Absent? then ChangeCreate else if current.text != content then ChangeUpdate else ChangeNone,
                content))
  }

  /** One action for each provisioner, in order. */
  ghost predicate Plans(kit: Kit, files: Files, provisioners: seq<Provisioner>, actions: seq<Action>) {
    |actions| == |provisioners| && forall i | 0 <= i < |actions| ::
      ActionOf(kit, files, provisioners[i]) == Ok(actions[i])
  }

  predicate FailsLike(action: Result<Action>, plan: Result<seq<Action>>) {
    (action.Err? && plan.Err?) || (action.Panic? && plan.Panic?)
  }

  /** The i-th provisioner is the first to fail, and the plan fails like it. */
  ghost predicate FailsAt(kit: Kit, files: Files, provisioners: seq<Provisioner>, plan: Result<seq<Action>>, i: nat)
    requires i < |provisioners|
  {
    && (forall k | 0 <= k < i :: ActionOf(kit, files, provisioners[k]).Ok?)
    && FailsLike(ActionOf(kit, files, provisioners[i]), plan)
  }

  lemma PlansStep(kit: Kit, files: Files, provisioners: seq<Provisioner>, actions: seq<Action>, i: nat, action: Action)
    requires i < |provisioners| && Plans(kit, files, provisioners[..i], actions)
             && ActionOf(kit, files, provisioners[i]) == Ok(action)
    ensures Plans(kit, files, provisioners[..i + 1], actions + [action])
  {
    assert provisioners[..i + 1] == provisioners[..i] + [provisioners[i]];
  }

  lemma FailsAfter(kit: Kit, files: Files, provisioners: seq<Provisioner>, actions: seq<Action>, i: nat,
                   plan: Result<seq<Action>>)
    requires i < |provisioners| && Plans(kit, files, provisioners[..i], actions)
    requires FailsLike(ActionOf(kit, files, provisioners[i]), plan)
    ensures FailsAt(kit, files, provisioners, plan, i)
  {
    forall k | 0 <= k < i ensures ActionOf(kit, files, provisioners[k]).Ok? {
      assert ActionOf(kit, files, provisioners[..i][k]) == Ok(actions[k]);
    }
  }

  method PlanActions(kit: Kit, files: Files, provisioners: seq<Provisioner>) returns (plan: Result<seq<Action>>)
    ensures plan.Ok? ==> Plans(kit, files, provisioners, plan.value)
    ensures !plan.Ok? ==> exists i: nat | i < |provisioners| :: FailsAt(kit, files, provisioners, plan, i)
  {
    var actions: seq<Action> := [];
    for i := 0 to |provisioners|
      invariant Plans(kit, files, provisioners[..i], actions)
    {
      var action := ActionOf(kit, files, provisioners[i]);
      if !action.Ok? {
        plan := if action.Err? then Err else Panic;
        FailsAfter(kit, files, provisioners, actions, i, plan);
        return;
      }
      PlansStep(kit, files, provisioners, actions, i, action.value);
      actions := actions + [action.value];
    }
    assert provisioners[..|provisioners|] == provisioners;
    plan := Ok(actions);
  }

  predicate Pending(actions: seq<Action>) {
    exists action | action in actions :: action.change != ChangeNone
  }

  method IsPending(actions: seq<Action>) returns (pending: bool)
    ensures pending == Pending(actions)
  {
    for i := 0 to |actions|
      invariant forall k | 0 <= k < i :: actions[k].change == ChangeNone
    {
      if actions[i].change != ChangeNone {
        return true;
      }
    }
    return false;
  }

  /** The files after the first actions have been applied. */
  function Applied(files: Files, actions: seq<Action>): Files {
    if actions == [] then files
    else
      var last := actions[|actions| - 1];
      var earlier := Applied(files, actions[..|actions| - 1]);
      if last.change == ChangeNone then earlier else earlier[last.path := last.content]
  }

  /** The files of a project directory. */
  class Project {
    var files: Files

    constructor (files: Files)
      ensures this.files == files
    {
      this.files := files;
    }

    /** Carries the plan out: one write for each action that creates or updates. */
    method Apply(actions: seq<Action>)
      modifies this
      ensures files == Applied(old(files), actions)
    {
      for i := 0 to |actions|
        invariant files == Applied(old(files), actions[..i])
      {
        assert actions[..i + 1][..i] == actions[..i];
        if actions[i].change == ChangeNone {
          continue;
        }
        files := files[actions[i].path := actions[i].content];
      }
      assert actions[..|actions|] == actions;
    }
  }

  // ----- Running init again

  /** Provisioners of one path are one provisioner. */
  predicate OnePerPath(provisioners: seq<Provisioner>) {
    forall i, j | 0 <= i < j < |provisioners| ::
      provisioners[i].Path() == provisioners[j].Path() ==> provisioners[i] == provisioners[j]
  }

  /** An action that changes nothing finds its content there, and actions of one path agree. */
  predicate Consistent(files: Files, actions: seq<Action>) {
    && (forall i | 0 <= i < |actions| ::
          actions[i].change == ChangeNone ==> ContentOf(files, actions[i].path) == Present(actions[i].content))
    && forall i, j | 0 <= i < j < |actions| :: actions[i].path == actions[j].path ==> actions[i] == actions[j]
  }

  lemma PlansAreConsistent(kit: Kit, files: Files, provisioners: seq<Provisioner>, actions: seq<Action>)
    requires Plans(kit, files, provisioners, actions) && OnePerPath(provisioners)
    ensures Consistent(files, actions)
  {
    forall i | 0 <= i < |actions|
      ensures actions[i].change == ChangeNone ==> ContentOf(files, actions[i].path) == Present(actions[i].content)
    {
      assert ActionOf(kit, files, provisioners[i]) == Ok(actions[i]);
    }
    forall i, j | 0 <= i < j < |actions| && actions[i].path == actions[j].path ensures actions[i] == actions[j] {
      assert ActionOf(kit, files, provisioners[i]) == Ok(actions[i]);
      assert ActionOf(kit, files, provisioners[j]) == Ok(actions[j]);
    }
  }

  /** A file no action names stays as it is. */
  lemma {:induction false} AppliedElsewhere(files: Files, actions: seq<Action>, path: string)
    requires forall i | 0 <= i < |actions| :: actions[i].path != path
    ensures ContentOf(Applied(files, actions), path) == ContentOf(files, path)
  {
    if actions != [] {
      AppliedElsewhere(files, actions[..|actions| - 1], path);
    }
  }

  /** A file an action names has the content it wants. */
  lemma {:induction false} AppliedHere(files: Files, actions: seq<Action>, i: nat)
    requires Consistent(files, actions) && i < |actions|
    ensures ContentOf(Applied(files, actions), actions[i].path) == Present(actions[i].content)
  {
    var n := |actions| - 1;
    var path := actions[i].path;
    if actions[n].path == path {
      assert actions[i] == actions[n];
      if actions[n].change == ChangeNone {
        if j: nat :| j < n && actions[j].path == path {
          AppliedHere(files, actions[..n], j);
        } else {
          AppliedElsewhere(files, actions[..n], path);
        }
      }
    } else {
      AppliedHere(files, actions[..n], i);
    }
  }

  /** After a run of init, a second run plans the same contents and has nothing to do. */
  lemma {:induction false} SecondRunIsIdle(kit: Kit, files: Files, provisioners: seq<Provisioner>, first: seq<Action>,
                                           second: seq<Action>)
    requires kit.Sound() && OnePerPath(provisioners) && Plans(kit, files, provisioners, first)
    ensures forall i | 0 <= i < |provisioners| ::
              ActionOf(kit, Applied(files, first), provisioners[i])
              == Ok(Action(first[i].path, ChangeNone, first[i].content))
    ensures Plans(kit, Applied(files, first), provisioners, second)
            ==> !Pending(second) && Applied(Applied(files, first), second) == Applied(files, first)
  {
    var written := Applied(files, first);
    PlansAreConsistent(kit, files, provisioners, first);
    forall i | 0 <= i < |provisioners|
      ensures ActionOf(kit, written, provisioners[i]) == Ok(Action(first[i].path, ChangeNone, first[i].content))
    {
      assert ActionOf(kit, files, provisioners[i]) == Ok(first[i]);
      AppliedHere(files, first, i);
      ProvisionersAreIdempotent(kit, provisioners[i], ContentOf(files, first[i].path));
    }
    if Plans(kit, written, provisioners, second) {
      forall i | 0 <= i < |second| ensures second[i].change == ChangeNone {
        assert ActionOf(kit, written, provisioners[i]) == Ok(second[i]);
      }
      IdleKeeps(written, second);
    }
  }

  lemma {:induction false} IdleKeeps(files: Files, actions: seq<Action>)
    requires forall i | 0 <= i < |actions| :: actions[i].change == ChangeNone
    ensures Applied(files, actions) == files
  {
    if actions != [] {
      IdleKeeps(files, actions[..|actions| - 1]);
    }
  }

  /** A plan is pending exactly when applying it changes the project. */
  lemma PendingIffItChanges(kit: Kit, files: Files, provisioners: seq<Provisioner>, actions: seq<Action>)
    requires Plans(kit, files, provisioners, actions) && OnePerPath(provisioners)
    ensures Pending(actions) <==> Applied(files, actions) != files
  {
    PlansAreConsistent(kit, files, provisioners, actions);
    if Pending(actions) {
      var i: nat :| i < |actions| && actions[i].change != ChangeNone;
      AppliedHere(files, actions, i);
      assert ActionOf(kit, files, provisioners[i]) == Ok(actions[i]);
    } else {
      forall i | 0 <= i < |actions| ensures actions[i].change == ChangeNone {
        assert actions[i] in actions;
      }
      IdleKeeps(files, actions);
    }
  }
}
