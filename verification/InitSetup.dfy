/**
 What init installs in a project: the files every project gets, the hook of pytest
 where pytest is used, and the files of the agent harnesses that are named, or of
 which the project shows signs.
 */
module InitSetup {
  import opened HookSettings
  import opened InitPlan
  import opened Ordering
  import opened ProjectText
  import opened Wrappers

  datatype Skill = Skill(name: string, content: string)

  /** The texts init carries with it; the starter configuration depends on what is found in the project. */
  datatype Outfit = Outfit(kit: Kit, skills: seq<Skill>, starter: Files -> string, goosePlugin: string,
                           opencodePlugin: string)
  {
    ghost predicate Sound() {
      && kit.Sound()
      && forall i, j | 0 <= i < |skills| && 0 <= j < |skills| ::
           skills[i].name == skills[j].name ==> skills[i] == skills[j]
    }
  }

  // ----- Signs in the project

  /** The path is that of the entry, or leads into it. */
  predicate LiesUnder(path: string, entry: string) {
    path == entry || entry + "/" <= path
  }

  /** There is a file of the name or a directory that holds one. */
  predicate Exists(files: Files, entry: string) {
    exists path | path in files :: LiesUnder(path, entry)
  }

  predicate FileContains(files: Files, path: string, text: string) {
    path in files && Holds(files[path], text)
  }

  predicate UsesPytest(files: Files) {
    || Exists(files, "pytest.ini") || Exists(files, "conftest.py") || Exists(files, "tox.ini")
    || FileContains(files, "pyproject.toml", "pytest")
    || FileContains(files, "setup.cfg", "pytest")
    || FileContains(files, "requirements.txt", "pytest")
  }

  // ----- Agent harnesses

  datatype Harness = Harness(name: string, always: bool, markers: seq<string>, provisioners: seq<Provisioner>)

  const CLAUDE_STOP_COMMAND := "shallnot hook claude-stop"
  const STOP := "Stop"
  const GOOSE_PLUGIN := ".agents/plugins/shallnot/plugin.json"
  const GOOSE_HOOKS := ".agents/plugins/shallnot/hooks/hooks.json"

  const CLAUDE := Harness("claude", true, [], [StopHook(".claude/settings.json", HOOKS, STOP, CLAUDE_STOP_COMMAND)])
  const CODEX := Harness("codex", false, [".codex"], [StopHook(".codex/hooks.json", HOOKS, STOP, STOP_COMMAND)])
  const COPILOT := Harness("copilot", false,
                           [".github/copilot-instructions.md", ".github/hooks", ".github/skills",
                            ".github/instructions"], [CopilotHook])
  const CURSOR := Harness("cursor", false, [".cursor"], [CursorHook])
  const FACTORY := Harness("factory", false, [".factory"], [StopHook(".factory/hooks.json", "", STOP, STOP_COMMAND)])
  const GEMINI := Harness("gemini", false, [".gemini", "GEMINI.md"], [GeminiHook])
  const QWEN :=
    Harness("qwen", false, [".qwen", "QWEN.md"], [StopHook(".qwen/settings.json", HOOKS, STOP, STOP_COMMAND)])

  function Goose(manifest: string): Harness {
    Harness("goose", false, [".goosehints", ".goose", ".agents/plugins"],
            [Owned(GOOSE_PLUGIN, manifest), StopHook(GOOSE_HOOKS, HOOKS, STOP, STOP_COMMAND)])
  }

  function OpenCode(plugin: string): Harness {
    Harness("opencode", false, [".opencode", "opencode.json", "opencode.jsonc"],
            [Owned(".opencode/plugins/shallnot.js", plugin)])
  }

  /** The table of the harnesses init knows. */
  function Harnesses(outfit: Outfit): seq<Harness> {
    [CLAUDE, CODEX, COPILOT, CURSOR, FACTORY, GEMINI, Goose(outfit.goosePlugin), OpenCode(outfit.opencodePlugin), QWEN]
  }

  /** The harness is installed regardless, or the project shows a sign of using it. */
  predicate ShowsSign(files: Files, harness: Harness) {
    harness.always || exists marker | marker in harness.markers :: Exists(files, marker)
  }

  function Detected(files: Files, harnesses: seq<Harness>): seq<string> {
    if harnesses == [] then []
    else (if ShowsSign(files, harnesses[0]) then [harnesses[0].name] else []) + Detected(files, harnesses[1..])
  }

  function Named(harnesses: seq<Harness>, name: string): Option<Harness> {
    if harnesses == [] then None
    else if harnesses[0].name == name then Some(harnesses[0])
    else Named(harnesses[1..], name)
  }

  /** The provisioners of the harnesses named, in that order; a name that is no harness is an error. */
  function OfHarnesses(harnesses: seq<Harness>, names: seq<string>): Result<seq<Provisioner>> {
    if names == [] then Ok([])
    else
      var last := |names| - 1;
      var earlier, harness := OfHarnesses(harnesses, names[..last]), Named(harnesses, names[last]);
      if earlier.Ok? && harness.Some? then Ok(earlier.value + harness.value.provisioners) else Err
  }

  // ----- The provisioners of a project

  function SkillPath(root: string, skill: Skill): string {
    root + "/" + skill.name + "/SKILL.md"
  }

  function SkillsUnder(root: string, skills: seq<Skill>): seq<Provisioner> {
    seq(|skills|, i requires 0 <= i < |skills| => Owned(SkillPath(root, skills[i]), skills[i].content))
  }

  /** The files of every project, its pytest hook if it uses pytest. */
  function Common(outfit: Outfit, files: Files): seq<Provisioner> {
    [ConfigFile(outfit.starter(files)), AgentsSection, ClaudeImport]
    + SkillsUnder(".agents/skills", outfit.skills) + SkillsUnder(".claude/skills", outfit.skills)
    + (if UsesPytest(files) then [PytestHook] else [])
  }

  /** The provisioners init plans for, given the table of harnesses and the names chosen from it. */
  function Assembled(outfit: Outfit, harnesses: seq<Harness>, files: Files,
                     hooks: seq<string>): Result<seq<Provisioner>>
  {
    var ofHooks := OfHarnesses(harnesses, hooks);
    if ofHooks.Ok? then Ok(Common(outfit, files) + ofHooks.value) else Err
  }

  method Lookup(harnesses: seq<Harness>, name: string) returns (harness: Option<Harness>)
    ensures harness == Named(harnesses, name)
  {
    for i := 0 to |harnesses|
      invariant Named(harnesses, name) == Named(harnesses[i..], name)
    {
      assert harnesses[i..][1..] == harnesses[i + 1..];
      if harnesses[i].name == name {
        return Some(harnesses[i]);
      }
    }
    return None;
  }

  lemma {:induction false} UnknownHarnessFails(harnesses: seq<Harness>, names: seq<string>, i: nat)
    requires i <= |names| && OfHarnesses(harnesses, names[..i]).Err?
    ensures OfHarnesses(harnesses, names).Err?
  {
    if i < |names| {
      assert names[..|names| - 1][..i] == names[..i];
      UnknownHarnessFails(harnesses, names[..|names| - 1], i);
    } else {
      assert names[..i] == names;
    }
  }

  method Assemble(outfit: Outfit, harnesses: seq<Harness>, files: Files, hooks: seq<string>)
    returns (provisioners: Result<seq<Provisioner>>)
    ensures provisioners == Assembled(outfit, harnesses, files, hooks)
  {
    var collected: seq<Provisioner> := Common(outfit, files);
    for i := 0 to |hooks|
      invariant OfHarnesses(harnesses, hooks[..i]).Ok?
      invariant collected == Common(outfit, files) + OfHarnesses(harnesses, hooks[..i]).value
    {
      assert hooks[..i + 1][..i] == hooks[..i];
      var harness := Lookup(harnesses, hooks[i]);
      if harness.None? {
        UnknownHarnessFails(harnesses, hooks, i + 1);
        return Err;
      }
      collected := collected + harness.value.provisioners;
    }
    assert hooks[..|hooks|] == hooks;
    provisioners := Ok(collected);
  }

  /** The plan of a project, made without touching it. */
  method Build(outfit: Outfit, harnesses: seq<Harness>, files: Files, hooks: seq<string>)
    returns (plan: Result<seq<Action>>)
    ensures var assembled := Assembled(outfit, harnesses, files, hooks);
            if assembled.Ok? then
              && (plan.Ok? ==> Plans(outfit.kit, files, assembled.value, plan.value))
              && (!plan.Ok? ==>
                    exists i: nat | i < |assembled.value| :: FailsAt(outfit.kit, files, assembled.value, plan, i))
            else plan.Err?
  {
    var provisioners := Assemble(outfit, harnesses, files, hooks);
    if !provisioners.Ok? {
      return Err;
    }
    plan := PlanActions(outfit.kit, files, provisioners.value);
  }

  /** The harnesses whose hook init installs when none is named. */
  method DetectHarnesses(files: Files, harnesses: seq<Harness>) returns (names: seq<string>)
    ensures names == Detected(files, harnesses)
  {
    names := [];
    for i := 0 to |harnesses|
      invariant Detected(files, harnesses) == names + Detected(files, harnesses[i..])
    {
      var harness := harnesses[i];
      assert harnesses[i..][1..] == harnesses[i + 1..];
      if ShowsSign(files, harness) {
        ConcatAssociates(names, [harness.name], Detected(files, harnesses[i + 1..]));
        names := names + [harness.name];
      }
    }
  }
}
