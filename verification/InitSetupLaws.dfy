/**
 Running init again. With harnesses that keep apart, what init writes is no sign of a
 harness it did not install nor of a test runner that was not used; so it finds the
 same runner and the same harnesses, plans for the same paths, and has nothing left to
 do. Those of the source keep apart: two characters of every path tell whose it is.
 */
module InitSetupLaws {
  import opened HookSettings
  import opened InitPlan
  import opened InitSetup
  import opened ProjectText
  import opened Wrappers

  // ----- Harnesses that keep apart

  const SHARED_SKILLS := ".agents/skills"
  const CLAUDE_SKILLS := ".claude/skills"

  /** The path of a file that belongs to no harness: one every project gets, or the hook of pytest. */
  ghost predicate IsCommonPath(path: string) {
    || path == "shallnot.yaml" || path == AGENTS_PATH || path == "CLAUDE.md" || path == "conftest.py"
    || exists skill :: path == SkillPath(SHARED_SKILLS, skill) || path == SkillPath(CLAUDE_SKILLS, skill)
  }

  /** A file at the path could say that the project uses pytest. */
  predicate SpeaksOfPytest(path: string) {
    || LiesUnder(path, "pytest.ini") || LiesUnder(path, "conftest.py") || LiesUnder(path, "tox.ini")
    || path == "pyproject.toml" || path == "setup.cfg" || path == "requirements.txt"
  }

  /** No file of the harness is common or speaks of pytest, and no common file is a sign of the harness. */
  ghost predicate KeepsToItself(harness: Harness) {
    && (forall provisioner | provisioner in harness.provisioners ::
          !IsCommonPath(provisioner.Path()) && !SpeaksOfPytest(provisioner.Path()))
    && (forall marker, path | marker in harness.markers && IsCommonPath(path) :: !LiesUnder(path, marker))
  }

  /** No file of one harness is a sign of the other. */
  predicate LeavesNoSign(one: Harness, other: Harness) {
    forall provisioner, marker | provisioner in one.provisioners && marker in other.markers ::
      !LiesUnder(provisioner.Path(), marker)
  }

  /** The two harnesses do not compete for a path. */
  predicate AgreeOnPaths(one: Harness, other: Harness) {
    forall p, q | p in one.provisioners && q in other.provisioners && p.Path() == q.Path() :: p == q
  }

  /** What the laws need of a table of harnesses: none has a file, a sign or the name of another. */
  ghost predicate Apart(harnesses: seq<Harness>) {
    && (forall k | 0 <= k < |harnesses| :: KeepsToItself(harnesses[k]))
    && (forall j, k | 0 <= j < |harnesses| && 0 <= k < |harnesses| :: AgreeOnPaths(harnesses[j], harnesses[k]))
    && (forall j, k | 0 <= j < |harnesses| && 0 <= k < |harnesses| && j != k ::
          LeavesNoSign(harnesses[j], harnesses[k]) && harnesses[j].name != harnesses[k].name)
  }

  // ----- Paths told apart by two characters

  /** The second and the third character of a path. */
  function Mark(path: string): (char, char) {
    if |path| < 3 then (' ', ' ') else (path[1], path[2])
  }

  lemma UnderSharesMark(path: string, entry: string)
    requires LiesUnder(path, entry) && |entry| >= 3
    ensures Mark(path) == Mark(entry)
  {
    if path != entry {
      assert path[..|entry + "/"|] == entry + "/";
      assert path[1] == (entry + "/")[1] && path[2] == (entry + "/")[2];
    }
  }

  const SHARED_MARK := ('a', 'g')
  const CLAUDE_MARK := ('c', 'l')

  /** What the marks of the common files are. */
  lemma CommonMarks()
    ensures Mark("shallnot.yaml") == ('h', 'a') && Mark(AGENTS_PATH) == ('G', 'E')
    ensures Mark("CLAUDE.md") == ('L', 'A') && Mark("conftest.py") == ('o', 'n')
  {
  }

  lemma SkillMarks(skill: Skill)
    ensures |SkillPath(SHARED_SKILLS, skill)| > 9 && |SkillPath(CLAUDE_SKILLS, skill)| > 9
    ensures Mark(SkillPath(SHARED_SKILLS, skill)) == SHARED_MARK && SkillPath(SHARED_SKILLS, skill)[8] == 's'
    ensures Mark(SkillPath(CLAUDE_SKILLS, skill)) == CLAUDE_MARK && SkillPath(CLAUDE_SKILLS, skill)[9] == 'k'
  {
  }

  lemma PytestMarks()
    ensures Mark("pytest.ini") == ('y', 't') && Mark("tox.ini") == ('o', 'x') && Mark("conftest.py") == ('o', 'n')
    ensures Mark("pyproject.toml") == ('y', 'p') && Mark("setup.cfg") == ('e', 't')
    ensures Mark("requirements.txt") == ('e', 'q')
  {
  }

  // ----- Where the provisioners come from

  /** The harness is the one some name of the selection finds. */
  predicate IsNamed(harnesses: seq<Harness>, names: seq<string>, harness: Harness) {
    exists name | name in names :: Named(harnesses, name) == Some(harness)
  }

  lemma {:induction false} NamedIsAmong(harnesses: seq<Harness>, name: string)
    ensures Named(harnesses, name).Some? ==>
              Named(harnesses, name).value in harnesses && Named(harnesses, name).value.name == name
  {
    if harnesses != [] && harnesses[0].name != name {
      NamedIsAmong(harnesses[1..], name);
    }
  }

  lemma {:induction false} OfHarnessesAre(harnesses: seq<Harness>, names: seq<string>, provisioner: Provisioner)
    requires OfHarnesses(harnesses, names).Ok? && provisioner in OfHarnesses(harnesses, names).value
    ensures exists harness | harness in harnesses ::
              IsNamed(harnesses, names, harness) && provisioner in harness.provisioners
  {
    var last := |names| - 1;
    NamedIsAmong(harnesses, names[last]);
    if provisioner in OfHarnesses(harnesses, names[..last]).value {
      OfHarnessesAre(harnesses, names[..last], provisioner);
    }
  }

  /** Why a provisioner is in the list of a project. */
  datatype Origin = Starter | Instructions | Memory | Conftest | SharedSkill(skill: Skill) | ClaudeSkill(skill: Skill)
    | Hook(k: nat)

  ghost predicate ComesFrom(outfit: Outfit, harnesses: seq<Harness>, files: Files, hooks: seq<string>,
                            provisioner: Provisioner, origin: Origin) {
    match origin
    case Starter => provisioner == ConfigFile(outfit.starter(files))
    case Instructions => provisioner == AgentsSection
    case Memory => provisioner == ClaudeImport
    case Conftest => provisioner == PytestHook && UsesPytest(files)
    case SharedSkill(skill) => skill in outfit.skills
      && provisioner == Owned(SkillPath(SHARED_SKILLS, skill), skill.content)
    case ClaudeSkill(skill) => skill in outfit.skills
      && provisioner == Owned(SkillPath(CLAUDE_SKILLS, skill), skill.content)
    case Hook(k) =>
      k < |harnesses| && IsNamed(harnesses, hooks, harnesses[k]) && provisioner in harnesses[k].provisioners
  }

  lemma CommonHasOrigin(outfit: Outfit, harnesses: seq<Harness>, files: Files, hooks: seq<string>,
                        provisioner: Provisioner)
    returns (origin: Origin)
    requires provisioner in Common(outfit, files)
    ensures ComesFrom(outfit, harnesses, files, hooks, provisioner, origin)
  {
    if provisioner in SkillsUnder(SHARED_SKILLS, outfit.skills) {
      var i :| 0 <= i < |outfit.skills| && SkillsUnder(SHARED_SKILLS, outfit.skills)[i] == provisioner;
      origin := SharedSkill(outfit.skills[i]);
    } else if provisioner in SkillsUnder(CLAUDE_SKILLS, outfit.skills) {
      var i :| 0 <= i < |outfit.skills| && SkillsUnder(CLAUDE_SKILLS, outfit.skills)[i] == provisioner;
      origin := ClaudeSkill(outfit.skills[i]);
    } else {
      origin := match provisioner
        case ConfigFile(_) => Starter
        case AgentsSection => Instructions
        case ClaudeImport => Memory
        case _ => Conftest;
    }
  }

  lemma OriginOf(outfit: Outfit, harnesses: seq<Harness>, files: Files, hooks: seq<string>, provisioner: Provisioner)
    returns (origin: Origin)
    requires Assembled(outfit, harnesses, files, hooks).Ok?
             && provisioner in Assembled(outfit, harnesses, files, hooks).value
    ensures ComesFrom(outfit, harnesses, files, hooks, provisioner, origin)
  {
    if provisioner in Common(outfit, files) {
      origin := CommonHasOrigin(outfit, harnesses, files, hooks, provisioner);
    } else {
      OfHarnessesAre(harnesses, hooks, provisioner);
      var harness :| harness in harnesses && IsNamed(harnesses, hooks, harness) && provisioner in harness.provisioners;
      var k :| 0 <= k < |harnesses| && harnesses[k] == harness;
      origin := Hook(k);
    }
  }

  function PathOfOrigin(origin: Origin): string
    requires !origin.Hook?
  {
    match origin
    case Starter => "shallnot.yaml"
    case Instructions => AGENTS_PATH
    case Memory => "CLAUDE.md"
    case Conftest => "conftest.py"
    case SharedSkill(skill) => SkillPath(SHARED_SKILLS, skill)
    case ClaudeSkill(skill) => SkillPath(CLAUDE_SKILLS, skill)
  }

  /** A provisioner of no harness has the path its origin says, which is a common one. */
  lemma CommonPath(outfit: Outfit, harnesses: seq<Harness>, files: Files, hooks: seq<string>, provisioner: Provisioner,
                   origin: Origin)
    requires ComesFrom(outfit, harnesses, files, hooks, provisioner, origin) && !origin.Hook?
    ensures provisioner.Path() == PathOfOrigin(origin) && IsCommonPath(provisioner.Path())
  {
  }

  // ----- One provisioner for each path

  lemma SkillPathsIdentify(root: string, a: Skill, b: Skill)
    requires SkillPath(root, a) == SkillPath(root, b)
    ensures a.name == b.name
  {
    var path := SkillPath(root, a);
    assert path[|root| + 1..|path| - |"/SKILL.md"|] == a.name;
    assert path[|root| + 1..|path| - |"/SKILL.md"|] == b.name;
  }

  /** Two common files with one path are one file, or skills of one name. */
  lemma SameCommonPath(one: Origin, other: Origin)
    requires !one.Hook? && !other.Hook? && PathOfOrigin(one) == PathOfOrigin(other)
    ensures one == other || (one.SharedSkill? && other.SharedSkill?) || (one.ClaudeSkill? && other.ClaudeSkill?)
    ensures one != other ==> one.skill.name == other.skill.name
  {
    CommonMarks();
    if one.SharedSkill? || one.ClaudeSkill? {
      SkillMarks(one.skill);
    }
    if other.SharedSkill? || other.ClaudeSkill? {
      SkillMarks(other.skill);
    }
    if one != other {
      SkillPathsIdentify(if one.SharedSkill? then SHARED_SKILLS else CLAUDE_SKILLS, one.skill, other.skill);
    }
  }

  lemma SamePathSameProvisioner(outfit: Outfit, harnesses: seq<Harness>, files: Files, hooks: seq<string>,
                                p: Provisioner, q: Provisioner, one: Origin, other: Origin)
    requires outfit.Sound() && Apart(harnesses) && p.Path() == q.Path()
    requires ComesFrom(outfit, harnesses, files, hooks, p, one) && ComesFrom(outfit, harnesses, files, hooks, q, other)
    ensures p == q
  {
    if one.Hook? && other.Hook? {
      assert AgreeOnPaths(harnesses[one.k], harnesses[other.k]);
    } else if one.Hook? {
      CommonPath(outfit, harnesses, files, hooks, q, other);
    } else if other.Hook? {
      CommonPath(outfit, harnesses, files, hooks, p, one);
    } else {
      CommonPath(outfit, harnesses, files, hooks, p, one);
      CommonPath(outfit, harnesses, files, hooks, q, other);
      SameCommonPath(one, other);
    }
  }

  /**
   Whatever the project holds and whichever harnesses are named, even
   twice, no two provisioners compete for a path.
   */
  lemma AssembledOnePerPath(outfit: Outfit, harnesses: seq<Harness>, files: Files, hooks: seq<string>)
    requires outfit.Sound() && Apart(harnesses) && Assembled(outfit, harnesses, files, hooks).Ok?
    ensures OnePerPath(Assembled(outfit, harnesses, files, hooks).value)
  {
    var provisioners := Assembled(outfit, harnesses, files, hooks).value;
    forall i, j | 0 <= i < j < |provisioners| && provisioners[i].Path() == provisioners[j].Path()
      ensures provisioners[i] == provisioners[j]
    {
      var one := OriginOf(outfit, harnesses, files, hooks, provisioners[i]);
      var other := OriginOf(outfit, harnesses, files, hooks, provisioners[j]);
      SamePathSameProvisioner(outfit, harnesses, files, hooks, provisioners[i], provisioners[j], one, other);
    }
  }

  // ----- What init writes is no sign to init

  lemma {:induction false} PresentStays(files: Files, actions: seq<Action>, path: string)
    requires path in files
    ensures path in Applied(files, actions)
  {
    if actions != [] {
      PresentStays(files, actions[..|actions| - 1], path);
    }
  }

  lemma ExistsStays(files: Files, actions: seq<Action>, entry: string)
    requires Exists(files, entry)
    ensures Exists(Applied(files, actions), entry)
  {
    var path :| path in files && LiesUnder(path, entry);
    PresentStays(files, actions, path);
  }

  /** The actions are those of a plan for the project with these hooks. */
  ghost predicate PlannedFor(outfit: Outfit, harnesses: seq<Harness>, files: Files, hooks: seq<string>,
                             actions: seq<Action>)
  {
    Assembled(outfit, harnesses, files, hooks).Ok?
    && Plans(outfit.kit, files, Assembled(outfit, harnesses, files, hooks).value, actions)
  }

  /** An action of the plan is about the path of one of the provisioners. */
  lemma ActionHasProvisioner(outfit: Outfit, harnesses: seq<Harness>, files: Files, hooks: seq<string>,
                             actions: seq<Action>, i: nat)
    returns (provisioner: Provisioner, origin: Origin)
    requires PlannedFor(outfit, harnesses, files, hooks, actions) && i < |actions|
    ensures ComesFrom(outfit, harnesses, files, hooks, provisioner, origin) && provisioner.Path() == actions[i].path
  {
    provisioner := Assembled(outfit, harnesses, files, hooks).value[i];
    origin := OriginOf(outfit, harnesses, files, hooks, provisioner);
    assert ActionOf(outfit.kit, files, provisioner) == Ok(actions[i]);
  }

  /** An entry that appears with the actions is the path of one of the provisioners, or leads to it. */
  lemma NewEntryIsProvisioned(outfit: Outfit, harnesses: seq<Harness>, files: Files, hooks: seq<string>,
                              actions: seq<Action>, entry: string)
    returns (provisioner: Provisioner, origin: Origin)
    requires PlannedFor(outfit, harnesses, files, hooks, actions)
    requires Exists(Applied(files, actions), entry) && !Exists(files, entry)
    ensures ComesFrom(outfit, harnesses, files, hooks, provisioner, origin) && LiesUnder(provisioner.Path(), entry)
  {
    var path :| path in Applied(files, actions) && LiesUnder(path, entry);
    if forall i | 0 <= i < |actions| :: actions[i].path != path {
      AppliedElsewhere(files, actions, path);
    }
    var i: nat :| i < |actions| && actions[i].path == path;
    provisioner, origin := ActionHasProvisioner(outfit, harnesses, files, hooks, actions, i);
  }

  /** A file of init lies under a sign of a harness only if it is one of that harness. */
  lemma SignIsOwn(outfit: Outfit, harnesses: seq<Harness>, files: Files, hooks: seq<string>, provisioner: Provisioner,
                  origin: Origin, k: nat, marker: string)
    requires Apart(harnesses) && ComesFrom(outfit, harnesses, files, hooks, provisioner, origin)
    requires k < |harnesses| && marker in harnesses[k].markers && LiesUnder(provisioner.Path(), marker)
    ensures origin == Hook(k)
  {
    if origin.Hook? {
      assert origin.k != k ==> LeavesNoSign(harnesses[origin.k], harnesses[k]);
    } else {
      CommonPath(outfit, harnesses, files, hooks, provisioner, origin);
    }
  }

  /** A sign of a harness appears only if the harness is installed. */
  lemma NewSignIsOwn(outfit: Outfit, harnesses: seq<Harness>, files: Files, hooks: seq<string>, actions: seq<Action>,
                     k: nat, marker: string)
    requires Apart(harnesses) && PlannedFor(outfit, harnesses, files, hooks, actions)
    requires k < |harnesses| && marker in harnesses[k].markers
    requires Exists(Applied(files, actions), marker) && !Exists(files, marker)
    ensures IsNamed(harnesses, hooks, harnesses[k])
  {
    var provisioner, origin := NewEntryIsProvisioned(outfit, harnesses, files, hooks, actions, marker);
    SignIsOwn(outfit, harnesses, files, hooks, provisioner, origin, k, marker);
  }

  lemma {:induction false} DetectedShowsSign(files: Files, harnesses: seq<Harness>, name: string) returns (k: nat)
    requires name in Detected(files, harnesses)
    ensures k < |harnesses| && harnesses[k].name == name && ShowsSign(files, harnesses[k])
  {
    if harnesses[0].name == name && ShowsSign(files, harnesses[0]) {
      k := 0;
    } else {
      k := DetectedShowsSign(files, harnesses[1..], name);
      k := k + 1;
    }
  }

  lemma NamedShowsSign(harnesses: seq<Harness>, files: Files, k: nat)
    requires Apart(harnesses) && k < |harnesses| && IsNamed(harnesses, Detected(files, harnesses), harnesses[k])
    ensures ShowsSign(files, harnesses[k])
  {
    var name :| name in Detected(files, harnesses) && Named(harnesses, name) == Some(harnesses[k]);
    NamedIsAmong(harnesses, name);
    var j := DetectedShowsSign(files, harnesses, name);
    assert j == k;
  }

  /** With the harnesses the project shows signs of, init leaves no sign of any other. */
  lemma {:induction false} SameSigns(outfit: Outfit, harnesses: seq<Harness>, files: Files, actions: seq<Action>,
                                     k: nat)
    requires Apart(harnesses) && PlannedFor(outfit, harnesses, files, Detected(files, harnesses), actions)
             && k < |harnesses|
    ensures ShowsSign(Applied(files, actions), harnesses[k]) <==> ShowsSign(files, harnesses[k])
  {
    var harness := harnesses[k];
    if marker :| marker in harness.markers && Exists(files, marker) {
      ExistsStays(files, actions, marker);
    } else if marker :| marker in harness.markers && Exists(Applied(files, actions), marker) {
      NewSignIsOwn(outfit, harnesses, files, Detected(files, harnesses), actions, k, marker);
      NamedShowsSign(harnesses, files, k);
    }
  }

  lemma {:induction false} DetectedAlike(files: Files, others: Files, harnesses: seq<Harness>)
    requires forall k | 0 <= k < |harnesses| :: ShowsSign(others, harnesses[k]) <==> ShowsSign(files, harnesses[k])
    ensures Detected(others, harnesses) == Detected(files, harnesses)
  {
    if harnesses != [] {
      forall k | 0 <= k < |harnesses[1..]|
        ensures ShowsSign(others, harnesses[1..][k]) <==> ShowsSign(files, harnesses[1..][k])
      {
        assert harnesses[1..][k] == harnesses[k + 1];
      }
      DetectedAlike(files, others, harnesses[1..]);
    }
  }

  /** After init has installed the harnesses it found, it finds exactly the same ones. */
  lemma DetectionIsStable(outfit: Outfit, harnesses: seq<Harness>, files: Files, actions: seq<Action>)
    requires Apart(harnesses) && PlannedFor(outfit, harnesses, files, Detected(files, harnesses), actions)
    ensures Detected(Applied(files, actions), harnesses) == Detected(files, harnesses)
  {
    forall k | 0 <= k < |harnesses|
      ensures ShowsSign(Applied(files, actions), harnesses[k]) <==> ShowsSign(files, harnesses[k])
    {
      SameSigns(outfit, harnesses, files, actions, k);
    }
    DetectedAlike(files, Applied(files, actions), harnesses);
  }

  // ----- The test runner

  /** Of the files of init, only the hook of pytest could say that pytest is used. */
  lemma OnlyConftestSpeaks(outfit: Outfit, harnesses: seq<Harness>, files: Files, hooks: seq<string>,
                           provisioner: Provisioner, origin: Origin)
    requires Apart(harnesses) && ComesFrom(outfit, harnesses, files, hooks, provisioner, origin)
    requires SpeaksOfPytest(provisioner.Path())
    ensures UsesPytest(files) && provisioner.Path() == "conftest.py"
  {
    if !origin.Hook? {
      CommonPath(outfit, harnesses, files, hooks, provisioner, origin);
      PytestMarks();
      CommonMarks();
      if origin.SharedSkill? || origin.ClaudeSkill? {
        SkillMarks(origin.skill);
      }
      forall entry | entry == "pytest.ini" || entry == "conftest.py" || entry == "tox.ini"
        ensures LiesUnder(provisioner.Path(), entry) ==> Mark(provisioner.Path()) == Mark(entry)
      {
        if LiesUnder(provisioner.Path(), entry) {
          UnderSharesMark(provisioner.Path(), entry);
        }
      }
    }
  }

  /** Where pytest is not used, no entry that would say so appears. */
  lemma SameEntry(outfit: Outfit, harnesses: seq<Harness>, files: Files, hooks: seq<string>, actions: seq<Action>,
                  entry: string)
    requires Apart(harnesses) && PlannedFor(outfit, harnesses, files, hooks, actions) && !UsesPytest(files)
    requires entry == "pytest.ini" || entry == "conftest.py" || entry == "tox.ini"
    ensures Exists(Applied(files, actions), entry) ==> Exists(files, entry)
  {
    if Exists(Applied(files, actions), entry) && !Exists(files, entry) {
      var provisioner, origin := NewEntryIsProvisioned(outfit, harnesses, files, hooks, actions, entry);
      OnlyConftestSpeaks(outfit, harnesses, files, hooks, provisioner, origin);
    }
  }

  /** A file that could name pytest is written by no action. */
  lemma SameContents(outfit: Outfit, harnesses: seq<Harness>, files: Files, hooks: seq<string>, actions: seq<Action>,
                     path: string, text: string)
    requires Apart(harnesses) && PlannedFor(outfit, harnesses, files, hooks, actions)
    requires path == "pyproject.toml" || path == "setup.cfg" || path == "requirements.txt"
    ensures FileContains(Applied(files, actions), path, text) <==> FileContains(files, path, text)
  {
    PytestMarks();
    forall i | 0 <= i < |actions| ensures actions[i].path != path {
      var provisioner, origin := ActionHasProvisioner(outfit, harnesses, files, hooks, actions, i);
      if actions[i].path == path {
        OnlyConftestSpeaks(outfit, harnesses, files, hooks, provisioner, origin);
      }
    }
    AppliedElsewhere(files, actions, path);
  }

  lemma SamePytest(outfit: Outfit, harnesses: seq<Harness>, files: Files, hooks: seq<string>, actions: seq<Action>)
    requires Apart(harnesses) && PlannedFor(outfit, harnesses, files, hooks, actions)
    ensures UsesPytest(Applied(files, actions)) <==> UsesPytest(files)
  {
    SameContents(outfit, harnesses, files, hooks, actions, "pyproject.toml", "pytest");
    SameContents(outfit, harnesses, files, hooks, actions, "setup.cfg", "pytest");
    SameContents(outfit, harnesses, files, hooks, actions, "requirements.txt", "pytest");
    if Exists(files, "pytest.ini") {
      ExistsStays(files, actions, "pytest.ini");
    } else if Exists(files, "conftest.py") {
      ExistsStays(files, actions, "conftest.py");
    } else if Exists(files, "tox.ini") {
      ExistsStays(files, actions, "tox.ini");
    } else if !UsesPytest(files) {
      SameEntry(outfit, harnesses, files, hooks, actions, "pytest.ini");
      SameEntry(outfit, harnesses, files, hooks, actions, "conftest.py");
      SameEntry(outfit, harnesses, files, hooks, actions, "tox.ini");
    }
  }

  // ----- Init twice

  lemma CommonIsAlike(outfit: Outfit, files: Files, others: Files, more: seq<Provisioner>)
    requires UsesPytest(files) <==> UsesPytest(others)
    ensures |Common(outfit, others) + more| == |Common(outfit, files) + more| > 0
    ensures (Common(outfit, files) + more)[0].ConfigFile? && (Common(outfit, others) + more)[0].ConfigFile?
    ensures forall i | 1 <= i < |Common(outfit, files) + more| ::
              (Common(outfit, others) + more)[i] == (Common(outfit, files) + more)[i]
  {
  }

  /** A configuration that is there is left alone, whatever the starter would be. */
  lemma StarterIsIdle(kit: Kit, files: Files, provisioners: seq<Provisioner>, first: seq<Action>, again: Provisioner)
    requires Plans(kit, files, provisioners, first) && OnePerPath(provisioners) && provisioners != []
    requires provisioners[0].ConfigFile? && again.ConfigFile?
    ensures ActionOf(kit, Applied(files, first), again) == Ok(Action(first[0].path, ChangeNone, first[0].content))
  {
    PlansAreConsistent(kit, files, provisioners, first);
    AppliedHere(files, first, 0);
    assert ActionOf(kit, files, provisioners[0]) == Ok(first[0]);
  }

  /** Init run again with the same hooks builds a plan, and the plan has nothing to do. */
  lemma {:induction false} SecondInitIsIdle(outfit: Outfit, harnesses: seq<Harness>, files: Files, hooks: seq<string>,
                                            first: seq<Action>)
    requires outfit.Sound() && Apart(harnesses) && PlannedFor(outfit, harnesses, files, hooks, first)
    ensures Assembled(outfit, harnesses, Applied(files, first), hooks).Ok?
    ensures |Assembled(outfit, harnesses, Applied(files, first), hooks).value| == |first|
    ensures forall i | 0 <= i < |first| ::
              ActionOf(outfit.kit, Applied(files, first),
                       Assembled(outfit, harnesses, Applied(files, first), hooks).value[i])
              == Ok(Action(first[i].path, ChangeNone, first[i].content))
  {
    var after, provisioners := Applied(files, first), Assembled(outfit, harnesses, files, hooks).value;
    SamePytest(outfit, harnesses, files, hooks, first);
    CommonIsAlike(outfit, files, after, OfHarnesses(harnesses, hooks).value);
    AssembledOnePerPath(outfit, harnesses, files, hooks);
    SecondRunIsIdle(outfit.kit, files, provisioners, first, []);
    StarterIsIdle(outfit.kit, files, provisioners, first, Assembled(outfit, harnesses, after, hooks).value[0]);
  }

  /** The same of a run that picks the hooks itself: it picks the same ones, and writes nothing. */
  lemma SecondAutomaticInitIsIdle(outfit: Outfit, harnesses: seq<Harness>, files: Files, first: seq<Action>,
                                  second: seq<Action>)
    requires outfit.Sound() && Apart(harnesses)
             && PlannedFor(outfit, harnesses, files, Detected(files, harnesses), first)
    requires var after :=
             Applied(files, first); PlannedFor(outfit, harnesses, after, Detected(after, harnesses), second)
    ensures !Pending(second) && Applied(Applied(files, first), second) == Applied(files, first)
  {
    var after := Applied(files, first);
    DetectionIsStable(outfit, harnesses, files, first);
    SecondInitIsIdle(outfit, harnesses, files, Detected(files, harnesses), first);
    var provisioners := Assembled(outfit, harnesses, after, Detected(after, harnesses)).value;
    forall i | 0 <= i < |second| ensures second[i].change == ChangeNone {
      assert ActionOf(outfit.kit, after, provisioners[i]) == Ok(second[i]);
    }
    IdleKeeps(after, second);
  }

  // ----- The table of init

  /** The marks of the files that install the hooks of the harnesses, in the order of the table. */
  const MARKS :=
    [CLAUDE_MARK, ('c', 'o'), ('g', 'i'), ('c', 'u'), ('f', 'a'), ('g', 'e'), SHARED_MARK, ('o', 'p'), ('q', 'w')]

  /** Marks no file of init has: those of GEMINI.md, .goose and .goosehints, opencode.json, and QWEN.md. */
  predicate ForeignMark(mark: (char, char)) {
    mark == ('E', 'M') || mark == ('g', 'o') || mark == ('p', 'e') || mark == ('W', 'E')
  }

  predicate MarkedPaths(provisioners: seq<Provisioner>, mark: (char, char)) {
    forall i | 0 <= i < |provisioners| :: Mark(provisioners[i].Path()) == mark
  }

  predicate MarkedSigns(markers: seq<string>, mark: (char, char)) {
    forall i | 0 <= i < |markers| :: |markers[i]| >= 3 && (Mark(markers[i]) == mark || ForeignMark(Mark(markers[i])))
  }

  /** A harness that keeps its files beside the skills shares neither a path nor a sign with them. */
  predicate ClearOfSkills(harness: Harness, mark: (char, char)) {
    && (forall i | 0 <= i < |harness.provisioners| :: ClearPath(harness.provisioners[i].Path(), mark))
    && (forall i | 0 <= i < |harness.markers| && Mark(harness.markers[i]) == mark ::
          mark != CLAUDE_MARK && (mark == SHARED_MARK ==> |harness.markers[i]| > 8 && harness.markers[i][8] == 'p'))
  }

  predicate ClearPath(path: string, mark: (char, char)) {
    && (mark == SHARED_MARK ==> |path| > 9 && path[8] == 'p')
    && (mark == CLAUDE_MARK ==> |path| > 9 && path[9] == 'e')
  }

  predicate DistinctPaths(provisioners: seq<Provisioner>) {
    forall i, j | 0 <= i < j < |provisioners| :: provisioners[i].Path() != provisioners[j].Path()
  }

  /** Every file of the harness has the mark, and so has every sign of it that a file of init could be. */
  predicate WellMarked(harness: Harness, mark: (char, char)) {
    && MarkedPaths(harness.provisioners, mark) && MarkedSigns(harness.markers, mark)
    && ClearOfSkills(harness, mark) && DistinctPaths(harness.provisioners)
  }

  /** Names and marks that tell the harnesses of the table apart. */
  ghost predicate Table(harnesses: seq<Harness>) {
    && |harnesses| == |MARKS|
    && (forall k | 0 <= k < |harnesses| :: WellMarked(harnesses[k], MARKS[k]))
    && (forall j, k | 0 <= j < k < |harnesses| :: harnesses[j].name != harnesses[k].name)
  }

  lemma FirstHarnessesAreWellMarked()
    ensures WellMarked(CLAUDE, CLAUDE_MARK) && WellMarked(CODEX, ('c', 'o')) && WellMarked(CURSOR, ('c', 'u'))
  {
  }

  lemma CopilotIsWellMarked()
    ensures WellMarked(COPILOT, ('g', 'i'))
  {
  }

  lemma FactoryAndGeminiAreWellMarked()
    ensures WellMarked(FACTORY, ('f', 'a')) && WellMarked(GEMINI, ('g', 'e'))
  {
  }

  lemma QwenIsWellMarked()
    ensures WellMarked(QWEN, ('q', 'w'))
  {
  }

  lemma GooseFiles()
    ensures Mark(GOOSE_PLUGIN) == Mark(GOOSE_HOOKS) == SHARED_MARK && GOOSE_PLUGIN != GOOSE_HOOKS
    ensures |GOOSE_PLUGIN| > 9 && |GOOSE_HOOKS| > 9 && GOOSE_PLUGIN[8] == GOOSE_HOOKS[8] == 'p'
  {
    assert |GOOSE_PLUGIN| != |GOOSE_HOOKS|;
  }

  lemma GooseSigns(manifest: string)
    ensures MarkedSigns(Goose(manifest).markers, SHARED_MARK)
    ensures forall i | 0 <= i < 3 && Mark(Goose(manifest).markers[i]) == SHARED_MARK ::
              |Goose(manifest).markers[i]| > 8 && Goose(manifest).markers[i][8] == 'p'
  {
  }

  lemma TwoPaths(provisioners: seq<Provisioner>, a: string, b: string)
    requires |provisioners| == 2 && provisioners[0].Path() == a && provisioners[1].Path() == b && a != b
    requires Mark(a) == Mark(b) == SHARED_MARK && ClearPath(a, SHARED_MARK) && ClearPath(b, SHARED_MARK)
    ensures MarkedPaths(provisioners, SHARED_MARK) && DistinctPaths(provisioners)
    ensures forall i | 0 <= i < |provisioners| :: ClearPath(provisioners[i].Path(), SHARED_MARK)
  {
  }

  lemma GooseIsWellMarked(manifest: string)
    ensures WellMarked(Goose(manifest), SHARED_MARK)
  {
    GooseSigns(manifest);
    GooseFiles();
    TwoPaths(Goose(manifest).provisioners, GOOSE_PLUGIN, GOOSE_HOOKS);
  }

  lemma OpenCodeIsWellMarked(plugin: string)
    ensures WellMarked(OpenCode(plugin), ('o', 'p'))
  {
  }

  /** The marks of the names of the harnesses. */
  const NAME_MARKS :=
    [('l', 'a'), ('o', 'd'), ('o', 'p'), ('u', 'r'), ('a', 'c'), ('e', 'm'), ('o', 'o'), ('p', 'e'), ('w', 'e')]

  lemma NamesAreMarked(outfit: Outfit)
    ensures |NAME_MARKS| == |Harnesses(outfit)|
    ensures forall k | 0 <= k < |Harnesses(outfit)| :: Mark(Harnesses(outfit)[k].name) == NAME_MARKS[k]
  {
  }

  lemma HarnessesAreATable(outfit: Outfit)
    ensures Table(Harnesses(outfit))
  {
    FirstHarnessesAreWellMarked();
    CopilotIsWellMarked();
    FactoryAndGeminiAreWellMarked();
    QwenIsWellMarked();
    GooseIsWellMarked(outfit.goosePlugin);
    OpenCodeIsWellMarked(outfit.opencodePlugin);
    NamesAreMarked(outfit);
  }

  lemma SharedSkillIsNoSign(skill: Skill, marker: string)
    requires |marker| > 8 && marker[8] == 'p'
    ensures !LiesUnder(SkillPath(SHARED_SKILLS, skill), marker)
  {
    SkillMarks(skill);
  }

  /** A marked path is that of no common file, and does not lie under a sign of pytest. */
  lemma MarkedIsOwn(path: string, k: nat)
    requires k < |MARKS| && Mark(path) == MARKS[k] && ClearPath(path, MARKS[k])
    ensures !IsCommonPath(path) && !SpeaksOfPytest(path)
  {
    CommonMarks();
    PytestMarks();
    forall skill ensures path != SkillPath(SHARED_SKILLS, skill) && path != SkillPath(CLAUDE_SKILLS, skill) {
      SkillMarks(skill);
    }
    forall entry | entry == "pytest.ini" || entry == "conftest.py" || entry == "tox.ini"
      ensures !LiesUnder(path, entry)
    {
      if LiesUnder(path, entry) {
        UnderSharesMark(path, entry);
      }
    }
  }

  /** A sign that is marked, or has a foreign mark, leads to no common file. */
  lemma MarkedSignIsOwn(marker: string, path: string, k: nat)
    requires k < |MARKS| && |marker| >= 3 && (Mark(marker) == MARKS[k] || ForeignMark(Mark(marker)))
    requires Mark(marker) == MARKS[k] ==> MARKS[k] != CLAUDE_MARK
    requires Mark(marker) == MARKS[k] == SHARED_MARK ==> |marker| > 8 && marker[8] == 'p'
    requires IsCommonPath(path)
    ensures !LiesUnder(path, marker)
  {
    if LiesUnder(path, marker) {
      UnderSharesMark(path, marker);
      CommonMarks();
      if skill :| path == SkillPath(SHARED_SKILLS, skill) || path == SkillPath(CLAUDE_SKILLS, skill) {
        SkillMarks(skill);
        if path == SkillPath(SHARED_SKILLS, skill) {
          SharedSkillIsNoSign(skill, marker);
        }
      }
    }
  }

  lemma MarkedKeepsToItself(harness: Harness, k: nat)
    requires k < |MARKS| && WellMarked(harness, MARKS[k])
    ensures KeepsToItself(harness)
  {
    forall provisioner | provisioner in harness.provisioners
      ensures !IsCommonPath(provisioner.Path()) && !SpeaksOfPytest(provisioner.Path())
    {
      MarkedIsOwn(provisioner.Path(), k);
    }
    forall marker, path | marker in harness.markers && IsCommonPath(path) ensures !LiesUnder(path, marker) {
      MarkedSignIsOwn(marker, path, k);
    }
  }

  lemma MarkedLeavesNoSign(one: Harness, other: Harness, j: nat, k: nat)
    requires j < |MARKS| && k < |MARKS| && j != k && WellMarked(one, MARKS[j]) && WellMarked(other, MARKS[k])
    ensures LeavesNoSign(one, other)
  {
    forall provisioner, marker | provisioner in one.provisioners && marker in other.markers
      ensures !LiesUnder(provisioner.Path(), marker)
    {
      if LiesUnder(provisioner.Path(), marker) {
        UnderSharesMark(provisioner.Path(), marker);
      }
    }
  }

  lemma MarkedAgreeOnPaths(one: Harness, other: Harness, j: nat, k: nat)
    requires j < |MARKS| && k < |MARKS| && j != k && WellMarked(one, MARKS[j]) && WellMarked(other, MARKS[k])
    ensures AgreeOnPaths(one, other)
  {
    forall p, q | p in one.provisioners && q in other.provisioners ensures p.Path() != q.Path() {
      assert Mark(p.Path()) == MARKS[j] && Mark(q.Path()) == MARKS[k];
    }
  }

  lemma MarkedAgreesWithItself(harness: Harness, mark: (char, char))
    requires WellMarked(harness, mark)
    ensures AgreeOnPaths(harness, harness)
  {
  }

  lemma MarkedAreApart(harnesses: seq<Harness>)
    requires Table(harnesses)
    ensures Apart(harnesses)
  {
    forall k | 0 <= k < |harnesses| ensures KeepsToItself(harnesses[k]) {
      MarkedKeepsToItself(harnesses[k], k);
    }
    forall j, k | 0 <= j < |harnesses| && 0 <= k < |harnesses| ensures AgreeOnPaths(harnesses[j], harnesses[k]) {
      if j == k {
        MarkedAgreesWithItself(harnesses[k], MARKS[k]);
      } else {
        MarkedAgreeOnPaths(harnesses[j], harnesses[k], j, k);
      }
    }
    forall j, k | 0 <= j < |harnesses| && 0 <= k < |harnesses| && j != k
      ensures LeavesNoSign(harnesses[j], harnesses[k])
    {
      MarkedLeavesNoSign(harnesses[j], harnesses[k], j, k);
    }
  }

  /** The table of the source keeps its harnesses apart. */
  lemma HarnessesAreApart(outfit: Outfit)
    ensures Apart(Harnesses(outfit))
  {
    HarnessesAreATable(outfit);
    MarkedAreApart(Harnesses(outfit));
  }
}
