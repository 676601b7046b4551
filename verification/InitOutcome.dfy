/**
 What a project holds after a run of init: the files every project gets, the hook of
 every harness that was named, and nothing else; and which harnesses a run finds.
 */
module InitOutcome {
  import opened HookSettings
  import opened InitPlan
  import opened InitSetup
  import opened InitSetupLaws
  import opened Ordering
  import opened ProjectText
  import opened ProjectTextLaws
  import opened SettingsLaws
  import opened TrimLaws
  import opened Wrappers

  // ----- Signs

  /** A file of the name, or some file below a directory of the name. */
  ghost predicate HasEntry(files: Files, entry: string) {
    entry in files || exists rest :: entry + "/" + rest in files
  }

  lemma HasEntryIff(files: Files, entry: string)
    ensures Exists(files, entry) <==> HasEntry(files, entry)
  {
    if path :| path in files && LiesUnder(path, entry) {
      assert path != entry ==> path == entry + "/" + path[|entry| + 1..];
    }
    if rest :| entry + "/" + rest in files {
      assert LiesUnder(entry + "/" + rest, entry);
    }
    assert LiesUnder(entry, entry);
  }

  ghost predicate Says(files: Files, path: string, text: string) {
    path in files && HasText(files[path], text)
  }

  /** The files of pytest, or a manifest that names it. */
  ghost predicate LooksLikePytest(files: Files) {
    || HasEntry(files, "pytest.ini") || HasEntry(files, "conftest.py") || HasEntry(files, "tox.ini")
    || Says(files, "pyproject.toml", "pytest") || Says(files, "setup.cfg", "pytest")
    || Says(files, "requirements.txt", "pytest")
  }

  lemma UsesPytestIff(files: Files)
    ensures UsesPytest(files) <==> LooksLikePytest(files)
  {
    HasEntryIff(files, "pytest.ini");
    HasEntryIff(files, "conftest.py");
    HasEntryIff(files, "tox.ini");
    forall path | path in files ensures Holds(files[path], "pytest") <==> HasText(files[path], "pytest") {
      HoldsIff(files[path], "pytest");
    }
  }

  /** The name of a harness, whether it is installed in any project, and the entries that show it is used. */
  datatype Sign = Sign(name: string, always: bool, entries: seq<string>)

  const SIGNS := [Sign("claude", true, []), Sign("codex", false, [".codex"]),
                  Sign("copilot", false, [".github/copilot-instructions.md", ".github/hooks", ".github/skills",
                                          ".github/instructions"]),
                  Sign("cursor", false, [".cursor"]), Sign("factory", false, [".factory"]),
                  Sign("gemini", false, [".gemini", "GEMINI.md"]),
                  Sign("goose", false, [".goosehints", ".goose", ".agents/plugins"]),
                  Sign("opencode", false, [".opencode", "opencode.json", "opencode.jsonc"]),
                  Sign("qwen", false, [".qwen", "QWEN.md"])]

  ghost predicate ShownBy(files: Files, sign: Sign) {
    sign.always || exists i | 0 <= i < |sign.entries| :: HasEntry(files, sign.entries[i])
  }

  lemma SignsAre(files: Files, harness: Harness)
    ensures ShowsSign(files, harness) <==> harness.always || exists i | 0 <= i < |harness.markers| ::
              HasEntry(files, harness.markers[i])
  {
    forall i | 0 <= i < |harness.markers|
      ensures Exists(files, harness.markers[i]) <==> HasEntry(files, harness.markers[i])
    {
      HasEntryIff(files, harness.markers[i]);
    }
  }

  lemma {:induction false} DetectedAre(files: Files, harnesses: seq<Harness>, name: string)
    ensures name in Detected(files, harnesses)
            <==> exists k | 0 <= k < |harnesses| :: harnesses[k].name == name && ShowsSign(files, harnesses[k])
  {
    if harnesses != [] {
      var rest := harnesses[1..];
      DetectedAre(files, rest, name);
      assert harnesses == [harnesses[0]] + rest;
      if k :| 0 <= k < |rest| && rest[k].name == name && ShowsSign(files, rest[k]) {
        assert harnesses[k + 1] == rest[k];
      }
      if k :| 0 < k < |harnesses| && harnesses[k].name == name && ShowsSign(files, harnesses[k]) {
        assert rest[k - 1] == harnesses[k];
      }
    }
  }

  lemma SignsAreThoseOfTheTable(outfit: Outfit)
    ensures |Harnesses(outfit)| == |SIGNS|
    ensures forall k | 0 <= k < |SIGNS| ::
              SIGNS[k] == Sign(Harnesses(outfit)[k].name, Harnesses(outfit)[k].always, Harnesses(outfit)[k].markers)
  {
  }

  /** A run finds exactly the harnesses the project shows signs of, and Claude Code. */
  lemma FoundIffShown(outfit: Outfit, files: Files, name: string)
    ensures name in Detected(files, Harnesses(outfit))
            <==> exists k | 0 <= k < |SIGNS| :: SIGNS[k].name == name && ShownBy(files, SIGNS[k])
  {
    DetectedAre(files, Harnesses(outfit), name);
    SignsAreThoseOfTheTable(outfit);
    forall k | 0 <= k < |SIGNS| ensures ShowsSign(files, Harnesses(outfit)[k]) <==> ShownBy(files, SIGNS[k]) {
      SignsAre(files, Harnesses(outfit)[k]);
    }
  }

  /** They are found in the order of the table. */
  lemma {:induction false} FoundInOrder(files: Files, harnesses: seq<Harness>, last: Harness)
    ensures Detected(files, harnesses + [last])
            == Detected(files, harnesses) + (if ShowsSign(files, last) then [last.name] else [])
  {
    if harnesses == [] {
      assert [last][1..] == [];
    } else {
      FoundInOrder(files, harnesses[1..], last);
      assert (harnesses + [last])[1..] == harnesses[1..] + [last];
    }
  }

  // ----- What is installed

  /** How a harness keeps its hook: in settings of one of four layouts, or in a file of its own. */
  datatype Layout = Command(wrapper: string, event: string, command: string) | OfCopilot | OfCursor | OfGemini
    | GooseManifest | OpenCodePlugin

  datatype Place = Place(name: string, file: string, layout: Layout)

  const PLACES := [Place("claude", ".claude/settings.json", Command("hooks", "Stop", "shallnot hook claude-stop")),
                   Place("codex", ".codex/hooks.json", Command("hooks", "Stop", "shallnot hook stop")),
                   Place("copilot", ".github/hooks/shallnot.json", OfCopilot),
                   Place("cursor", ".cursor/hooks.json", OfCursor),
                   Place("factory", ".factory/hooks.json", Command("", "Stop", "shallnot hook stop")),
                   Place("gemini", ".gemini/settings.json", OfGemini),
                   Place("goose", ".agents/plugins/shallnot/plugin.json", GooseManifest),
                   Place("opencode", ".opencode/plugins/shallnot.js", OpenCodePlugin),
                   Place("qwen", ".qwen/settings.json", Command("hooks", "Stop", "shallnot hook stop")),
                   Place("goose", ".agents/plugins/shallnot/hooks/hooks.json",
                         Command("hooks", "Stop", "shallnot hook stop"))]

  function ProvisionerFor(outfit: Outfit, place: Place): Provisioner {
    match place.layout
    case Command(wrapper, event, command) => StopHook(place.file, wrapper, event, command)
    case OfCopilot => CopilotHook
    case OfCursor => CursorHook
    case OfGemini => GeminiHook
    case GooseManifest => Owned(place.file, outfit.goosePlugin)
    case OpenCodePlugin => Owned(place.file, outfit.opencodePlugin)
  }

  lemma FilesAre(outfit: Outfit, i: nat)
    requires i < |PLACES|
    ensures ProvisionerFor(outfit, PLACES[i]).Path() == PLACES[i].file
  {
  }

  /** The provisioners of the table are those of the places. */
  lemma PlacesAreProvisioned(outfit: Outfit, i: nat)
    requires i < |PLACES|
    ensures var k := if i == 9 then 6 else i;
            Harnesses(outfit)[k].name == PLACES[i].name
            && ProvisionerFor(outfit, PLACES[i]) in Harnesses(outfit)[k].provisioners
  {
    assert Goose(outfit.goosePlugin).provisioners[0] in Goose(outfit.goosePlugin).provisioners;
    assert Goose(outfit.goosePlugin).provisioners[1] in Goose(outfit.goosePlugin).provisioners;
  }

  lemma ProvisionersHavePlaces(outfit: Outfit, k: nat, provisioner: Provisioner) returns (i: nat)
    requires k < |Harnesses(outfit)| && provisioner in Harnesses(outfit)[k].provisioners
    ensures i < |PLACES| && PLACES[i].name == Harnesses(outfit)[k].name
    ensures provisioner == ProvisionerFor(outfit, PLACES[i])
  {
    i := if k == 6 && provisioner == Goose(outfit.goosePlugin).provisioners[1] then 9 else k;
  }

  lemma {:induction false} NamedFinds(harnesses: seq<Harness>, k: nat)
    requires k < |harnesses|
    requires forall i, j | 0 <= i < j < |harnesses| :: harnesses[i].name != harnesses[j].name
    ensures Named(harnesses, harnesses[k].name) == Some(harnesses[k])
  {
    if k > 0 {
      assert harnesses[0].name != harnesses[k].name;
      NamedFinds(harnesses[1..], k - 1);
    }
  }

  lemma {:induction false} NamedAreInstalled(harnesses: seq<Harness>, names: seq<string>, name: string,
                                             provisioner: Provisioner)
    requires OfHarnesses(harnesses, names).Ok? && name in names
    requires Named(harnesses, name).Some? && provisioner in Named(harnesses, name).value.provisioners
    ensures provisioner in OfHarnesses(harnesses, names).value
  {
    var last := |names| - 1;
    assert names == names[..last] + [names[last]];
    if name != names[last] {
      NamedAreInstalled(harnesses, names[..last], name, provisioner);
    }
  }

  lemma {:induction false} OfHarnessesIff(harnesses: seq<Harness>, names: seq<string>)
    ensures OfHarnesses(harnesses, names).Ok? <==> forall name | name in names :: Named(harnesses, name).Some?
    ensures OfHarnesses(harnesses, names).Ok? || OfHarnesses(harnesses, names).Err?
  {
    if names != [] {
      var earlier, last := names[..|names| - 1], names[|names| - 1];
      OfHarnessesIff(harnesses, earlier);
      assert names == earlier + [last];
      assert OfHarnesses(harnesses, names).Ok?
             <==> OfHarnesses(harnesses, earlier).Ok? && Named(harnesses, last).Some?;
      assert forall name :: name in names <==> name in earlier || name == last;
      assert last in names;
    }
  }

  lemma {:induction false} NamedIff(harnesses: seq<Harness>, name: string)
    ensures Named(harnesses, name).Some? <==> exists k | 0 <= k < |harnesses| :: harnesses[k].name == name
  {
    if harnesses != [] {
      NamedIff(harnesses[1..], name);
      if k :| 0 < k < |harnesses| && harnesses[k].name == name {
        assert harnesses[1..][k - 1] == harnesses[k];
      }
    }
  }

  /** A run is refused before it plans anything exactly when it names a harness that is not in the table. */
  lemma RefusedIffUnknown(outfit: Outfit, files: Files, names: seq<string>)
    ensures Assembled(outfit, Harnesses(outfit), files, names).Err?
            <==> exists name | name in names :: forall k | 0 <= k < |SIGNS| :: SIGNS[k].name != name
    ensures !Assembled(outfit, Harnesses(outfit), files, names).Panic?
  {
    OfHarnessesIff(Harnesses(outfit), names);
    SignsAreThoseOfTheTable(outfit);
    forall name ensures Named(Harnesses(outfit), name).Some? <==> exists k | 0 <= k < |SIGNS| :: SIGNS[k].name == name
    {
      NamedIff(Harnesses(outfit), name);
    }
  }

  /** The run installed these files: a plan for the project and the names was made, and carried out. */
  ghost predicate RunOf(outfit: Outfit, files: Files, names: seq<string>, after: Files) {
    outfit.Sound() && exists actions ::
      PlannedFor(outfit, Harnesses(outfit), files, names, actions) && after == Applied(files, actions)
  }

  /** What a provisioner of the run wants is what its file holds afterwards. */
  lemma WrittenByAction(kit: Kit, files: Files, provisioners: seq<Provisioner>, actions: seq<Action>, i: nat)
    requires Plans(kit, files, provisioners, actions) && OnePerPath(provisioners) && i < |provisioners|
    ensures ActionOf(kit, files, provisioners[i]) == Ok(actions[i])
    ensures ContentOf(Applied(files, actions), actions[i].path) == Present(actions[i].content)
  {
    PlansAreConsistent(kit, files, provisioners, actions);
    AppliedHere(files, actions, i);
  }

  lemma ActionIs(kit: Kit, files: Files, provisioner: Provisioner, action: Action)
    requires ActionOf(kit, files, provisioner) == Ok(action)
    ensures action.path == provisioner.Path()
    ensures provisioner.Desired(kit, ContentOf(files, provisioner.Path())) == Ok(action.content)
  {
  }

  lemma WantedIsWritten(outfit: Outfit, files: Files, names: seq<string>, after: Files, provisioner: Provisioner)
    requires RunOf(outfit, files, names, after)
    requires provisioner in Assembled(outfit, Harnesses(outfit), files, names).value
    ensures provisioner.Path() in after
            && provisioner.Desired(outfit.kit, ContentOf(files, provisioner.Path())) == Ok(after[provisioner.Path()])
  {
    var harnesses := Harnesses(outfit);
    var provisioners := Assembled(outfit, harnesses, files, names).value;
    var actions: seq<Action> :| PlannedFor(outfit, harnesses, files, names, actions)
                                && after == Applied(files, actions);
    var i :| 0 <= i < |provisioners| && provisioners[i] == provisioner;
    HarnessesAreApart(outfit);
    AssembledOnePerPath(outfit, harnesses, files, names);
    WrittenByAction(outfit.kit, files, provisioners, actions, i);
    ActionIs(outfit.kit, files, provisioner, actions[i]);
  }

  lemma PlaceIsInstalled(outfit: Outfit, files: Files, names: seq<string>, after: Files, i: nat)
    requires RunOf(outfit, files, names, after) && i < |PLACES| && PLACES[i].name in names
    ensures ProvisionerFor(outfit, PLACES[i]) in Assembled(outfit, Harnesses(outfit), files, names).value
  {
    var harnesses := Harnesses(outfit);
    var k := if i == 9 then 6 else i;
    HarnessesAreApart(outfit);
    PlacesAreProvisioned(outfit, i);
    NamedFinds(harnesses, k);
    NamedAreInstalled(harnesses, names, PLACES[i].name, ProvisionerFor(outfit, PLACES[i]));
  }

  // ----- The hooks

  /** What the settings in a text are; a blank text holds none. */
  ghost predicate Decodes(codec: Codec, text: string, members: Members) {
    if AllWhite(text) then members == map[] else codec.decode(text) == DecodedObject(members)
  }

  /** Settings that have not changed keep their text. */
  ghost predicate Writes(codec: Codec, text: string, written: string, before: Members, after: Members) {
    Decodes(codec, text, before) && written == if after == before then text else codec.encode(after)
  }

  /** What the file of a harness comes to, given the text it held. */
  ghost predicate Becomes(outfit: Outfit, layout: Layout, text: string, written: string) {
    var codec := outfit.kit.codec;
    match layout
    case Command(wrapper, event, command) => exists before, after ::
      Writes(codec, text, written, before, after)
      && HookAdded(before, after, wrapper, event, command, CommandItem(command))
    case OfCopilot => exists before, after ::
      Writes(codec, text, written, before, after)
      && VersionedHookAdded(before, after, "agentStop", "shallnot hook copilot-stop", CopilotItem())
    case OfCursor => exists before, after ::
      Writes(codec, text, written, before, after)
      && VersionedHookAdded(before, after, "stop", "shallnot hook cursor-stop", CursorItem())
    case OfGemini => exists before, after ::
      Writes(codec, text, written, before, after) && GeminiAdded(before, after)
    case GooseManifest => written == outfit.goosePlugin
    case OpenCodePlugin => written == outfit.opencodePlugin
  }

  lemma SettledStays(provisioner: Provisioner, members: Members)
    requires provisioner.WritesSettings()
    ensures provisioner.Settled(members) <==> provisioner.Rewritten(members) == members
  {
    if provisioner.Rewritten(members) == members {
      RewrittenIsSettled(provisioner, members);
    }
    if provisioner.GeminiHook? && GeminiSettled(members) {
      assert CONTEXT in members && members[CONTEXT].Object?;
      assert WithGeminiSettings(members)[CONTEXT] == members[CONTEXT];
    }
  }

  lemma SettingsAreWritten(outfit: Outfit, provisioner: Provisioner, text: string, written: string)
    returns (before: Members)
    requires provisioner.WritesSettings() && provisioner.DesiredSettings(outfit.kit.codec, text) == Ok(written)
    ensures Writes(outfit.kit.codec, text, written, before, provisioner.Rewritten(before))
  {
    BlankIff(text);
    NothingIsSettledInNull(provisioner);
    before := outfit.kit.codec.Decode(text).members;
    SettledStays(provisioner, before);
  }

  lemma BecomesAsDesired(outfit: Outfit, i: nat, content: Content, written: string)
    requires i < |PLACES| && ProvisionerFor(outfit, PLACES[i]).Desired(outfit.kit, content) == Ok(written)
    ensures Becomes(outfit, PLACES[i].layout, content.OrEmpty(), written)
  {
    var provisioner := ProvisionerFor(outfit, PLACES[i]);
    if provisioner.WritesSettings() {
      var before := SettingsAreWritten(outfit, provisioner, content.OrEmpty(), written);
      match PLACES[i].layout {
        case Command(wrapper, event, command) => StopHookIs(before, wrapper, event, command);
        case OfGemini => GeminiIs(before);
        case _ => CopilotAndCursorHooksAre(before);
      }
    }
  }

  /** After a run that named the harness, its file holds the hook, and everything else it held. */
  lemma HookStands(outfit: Outfit, files: Files, names: seq<string>, after: Files, i: nat)
    requires RunOf(outfit, files, names, after) && i < |PLACES| && PLACES[i].name in names
    ensures PLACES[i].file in after
    ensures Becomes(outfit, PLACES[i].layout, if PLACES[i].file in files then files[PLACES[i].file] else "",
                    after[PLACES[i].file])
  {
    PlaceIsInstalled(outfit, files, names, after, i);
    FilesAre(outfit, i);
    WantedIsWritten(outfit, files, names, after, ProvisionerFor(outfit, PLACES[i]));
    BecomesAsDesired(outfit, i, ContentOf(files, PLACES[i].file), after[PLACES[i].file]);
  }

  // ----- The files of every project

  function TextOf(files: Files, path: string): string {
    if path in files then files[path] else ""
  }

  lemma CommonIsInstalled(outfit: Outfit, files: Files, names: seq<string>)
    requires Assembled(outfit, Harnesses(outfit), files, names).Ok?
    ensures var provisioners := Assembled(outfit, Harnesses(outfit), files, names).value;
            && ConfigFile(outfit.starter(files)) in provisioners && AgentsSection in provisioners
            && ClaudeImport in provisioners && (UsesPytest(files) ==> PytestHook in provisioners)
            && forall skill | skill in outfit.skills ::
                 && Owned(".agents/skills/" + skill.name + "/SKILL.md", skill.content) in provisioners
                 && Owned(".claude/skills/" + skill.name + "/SKILL.md", skill.content) in provisioners
  {
    var common := Common(outfit, files);
    assert common[0] == ConfigFile(outfit.starter(files)) && common[1] == AgentsSection && common[2] == ClaudeImport;
    assert UsesPytest(files) ==> common[|common| - 1] == PytestHook;
    forall skill | skill in outfit.skills
      ensures Owned(".agents/skills/" + skill.name + "/SKILL.md", skill.content) in common
      ensures Owned(".claude/skills/" + skill.name + "/SKILL.md", skill.content) in common
    {
      SkillIsInstalled(".agents/skills", outfit.skills, skill);
      SkillIsInstalled(".claude/skills", outfit.skills, skill);
      assert ".agents/skills" + "/" == ".agents/skills/" && ".claude/skills" + "/" == ".claude/skills/";
    }
  }

  lemma SkillIsInstalled(root: string, skills: seq<Skill>, skill: Skill)
    requires skill in skills
    ensures Owned(root + "/" + skill.name + "/SKILL.md", skill.content) in SkillsUnder(root, skills)
  {
    var i :| 0 <= i < |skills| && skills[i] == skill;
    assert SkillsUnder(root, skills)[i] == Owned(SkillPath(root, skill), skill.content);
  }

  /** CLAUDE.md after a run: it keeps a text with the import, and else has it behind what it held. */
  ghost predicate ImportAdded(text: string, written: string) {
    if ImportsAgents(text) then written == text
    else if AllWhite(text) then written == "@AGENTS.md\n"
    else exists core :: UpToNewlines(text, core) && written == core + "\n\n@AGENTS.md\n"
  }

  /** conftest.py after a run: it keeps a text with the hook, and else has it behind what it held. */
  ghost predicate HookWritten(hook: string, text: string, written: string) {
    if HasText(text, "item.iter_markers(name=\"verifies\")") then written == text
    else if AllWhite(text) then BehindNewlines(hook, written)
    else exists core :: UpToNewlines(text, core) && written == core + "\n\n" + hook
  }

  lemma HookIsWritten(hook: string, text: string, written: string)
    requires PytestConftest(hook, text) == Ok(written)
    ensures HookWritten(hook, text, written)
  {
    UpToNewlinesIff(text, TrimNewlines(text));
    ConftestIs(hook, text, TrimNewlines(text));
  }

  lemma ImportIsAdded(text: string)
    ensures ImportAdded(text, ClaudeMemory(text))
  {
    UpToNewlinesIff(text, TrimNewlines(text));
    ClaudeMemoryIs(text, TrimNewlines(text));
  }

  lemma TextsAreInstalled(outfit: Outfit, files: Files, names: seq<string>)
    requires Assembled(outfit, Harnesses(outfit), files, names).Ok?
    ensures var provisioners := Assembled(outfit, Harnesses(outfit), files, names).value;
            ClaudeImport in provisioners && (LooksLikePytest(files) ==> PytestHook in provisioners)
  {
    UsesPytestIff(files);
    CommonIsInstalled(outfit, files, names);
  }

  lemma DesiredText(kit: Kit, files: Files, provisioner: Provisioner, path: string)
    requires provisioner.Path() == path
    ensures ContentOf(files, path).OrEmpty() == TextOf(files, path)
    ensures provisioner.PytestHook? ==>
              provisioner.Desired(kit, ContentOf(files, path)) == PytestConftest(kit.hook, TextOf(files, path))
    ensures provisioner.ClaudeImport? ==>
              provisioner.Desired(kit, ContentOf(files, path)) == Ok(ClaudeMemory(TextOf(files, path)))
  {
  }

  lemma ConftestStands(outfit: Outfit, files: Files, names: seq<string>, after: Files)
    requires RunOf(outfit, files, names, after) && LooksLikePytest(files)
    ensures "conftest.py" in after
            && HookWritten(outfit.kit.hook, TextOf(files, "conftest.py"), after["conftest.py"])
  {
    TextsAreInstalled(outfit, files, names);
    WantedIsWritten(outfit, files, names, after, PytestHook);
    DesiredText(outfit.kit, files, PytestHook, "conftest.py");
    HookIsWritten(outfit.kit.hook, TextOf(files, "conftest.py"), after["conftest.py"]);
  }

  lemma ConfigurationStands(outfit: Outfit, files: Files, names: seq<string>, after: Files)
    requires RunOf(outfit, files, names, after)
    ensures "shallnot.yaml" in after && after["shallnot.yaml"]
                                        == if "shallnot.yaml" in files then files["shallnot.yaml"]
                                        else outfit.starter(files)
  {
    CommonIsInstalled(outfit, files, names);
    WantedIsWritten(outfit, files, names, after, ConfigFile(outfit.starter(files)));
  }

  lemma SectionStands(outfit: Outfit, files: Files, names: seq<string>, after: Files)
    requires RunOf(outfit, files, names, after)
    ensures "AGENTS.md" in after && Rewritten(outfit.kit.body, TextOf(files, "AGENTS.md"), after["AGENTS.md"])
  {
    CommonIsInstalled(outfit, files, names);
    WantedIsWritten(outfit, files, names, after, AgentsSection);
    AgentsFileExactly(outfit.kit.body, TextOf(files, "AGENTS.md"), after["AGENTS.md"]);
  }

  lemma ImportStands(outfit: Outfit, files: Files, names: seq<string>, after: Files)
    requires RunOf(outfit, files, names, after)
    ensures "CLAUDE.md" in after && ImportAdded(TextOf(files, "CLAUDE.md"), after["CLAUDE.md"])
  {
    TextsAreInstalled(outfit, files, names);
    WantedIsWritten(outfit, files, names, after, ClaudeImport);
    DesiredText(outfit.kit, files, ClaudeImport, "CLAUDE.md");
    ImportIsAdded(TextOf(files, "CLAUDE.md"));
  }

  /**
   After every run there is a configuration, the one that was there or the
   starter; the section in AGENTS.md; and the import in CLAUDE.md.
   */
  lemma CommonStands(outfit: Outfit, files: Files, names: seq<string>, after: Files)
    requires RunOf(outfit, files, names, after)
    ensures "shallnot.yaml" in after && after["shallnot.yaml"]
                                        == if "shallnot.yaml" in files then files["shallnot.yaml"]
                                        else outfit.starter(files)
    ensures "AGENTS.md" in after && Rewritten(outfit.kit.body, TextOf(files, "AGENTS.md"), after["AGENTS.md"])
    ensures "CLAUDE.md" in after && ImportAdded(TextOf(files, "CLAUDE.md"), after["CLAUDE.md"])
  {
    ConfigurationStands(outfit, files, names, after);
    SectionStands(outfit, files, names, after);
    ImportStands(outfit, files, names, after);
  }

  lemma SkillsStand(outfit: Outfit, files: Files, names: seq<string>, after: Files, skill: Skill, path: string)
    requires RunOf(outfit, files, names, after) && skill in outfit.skills
    requires path == ".agents/skills/" + skill.name + "/SKILL.md"
             || path == ".claude/skills/" + skill.name + "/SKILL.md"
    ensures path in after && after[path] == skill.content
  {
    CommonIsInstalled(outfit, files, names);
    WantedIsWritten(outfit, files, names, after, Owned(path, skill.content));
  }

  // ----- Nothing else

  /** The file is one init may write: one of every project, or that of a harness that was named. */
  ghost predicate MayBeWritten(outfit: Outfit, files: Files, names: seq<string>, path: string) {
    || path == "shallnot.yaml" || path == "AGENTS.md" || path == "CLAUDE.md"
    || (path == "conftest.py" && LooksLikePytest(files))
    || (exists skill | skill in outfit.skills ::
          path == ".agents/skills/" + skill.name + "/SKILL.md" || path == ".claude/skills/" + skill.name + "/SKILL.md")
    || (exists i: nat | i < |PLACES| :: PLACES[i].name in names && PLACES[i].file == path)
  }

  lemma ProvisionedMayBeWritten(outfit: Outfit, files: Files, names: seq<string>, provisioner: Provisioner)
    requires Assembled(outfit, Harnesses(outfit), files, names).Ok?
             && provisioner in Assembled(outfit, Harnesses(outfit), files, names).value
    ensures MayBeWritten(outfit, files, names, provisioner.Path())
  {
    var harnesses := Harnesses(outfit);
    var origin := OriginOf(outfit, harnesses, files, names, provisioner);
    assert ".agents/skills" + "/" == ".agents/skills/" && ".claude/skills" + "/" == ".claude/skills/";
    match origin {
      case Hook(k) =>
        var name :| name in names && Named(harnesses, name) == Some(harnesses[k]);
        NamedIsAmong(harnesses, name);
        var i := ProvisionersHavePlaces(outfit, k, provisioner);
        FilesAre(outfit, i);
      case Conftest => UsesPytestIff(files);
      case SharedSkill(skill) => assert SkillPath(SHARED_SKILLS, skill) == ".agents/skills/" + skill.name + "/SKILL.md";
      case ClaudeSkill(skill) => assert SkillPath(CLAUDE_SKILLS, skill) == ".claude/skills/" + skill.name + "/SKILL.md";
      case _ =>
    }
  }

  lemma NoActionOn(outfit: Outfit, files: Files, names: seq<string>, actions: seq<Action>, path: string, i: nat)
    requires PlannedFor(outfit, Harnesses(outfit), files, names, actions) && i < |actions|
             && !MayBeWritten(outfit, files, names, path)
    ensures actions[i].path != path
  {
    var provisioner := Assembled(outfit, Harnesses(outfit), files, names).value[i];
    assert ActionOf(outfit.kit, files, provisioner) == Ok(actions[i]);
    ProvisionedMayBeWritten(outfit, files, names, provisioner);
  }

  /** Every other file is as it was, there or not. */
  lemma NothingElseIsWritten(outfit: Outfit, files: Files, names: seq<string>, after: Files, path: string)
    requires RunOf(outfit, files, names, after) && !MayBeWritten(outfit, files, names, path)
    ensures ContentOf(after, path) == ContentOf(files, path)
  {
    var actions: seq<Action> :|
      PlannedFor(outfit, Harnesses(outfit), files, names, actions) && after == Applied(files, actions);
    forall i | 0 <= i < |actions| ensures actions[i].path != path {
      NoActionOn(outfit, files, names, actions, path, i);
    }
    AppliedElsewhere(files, actions, path);
  }
}
