/**
 The JSON settings of agent harnesses into which init adds its end-of-turn hook: in
 the list of an event under a wrapper or at the top level, beside a version, or with
 the context files of Gemini CLI. What else they hold is kept where the layout fits.
 */
module HookSettings {

  datatype Value =
    | Null
    | Bool(flag: bool)
    | Number(number: int)
    | Text(text: string)
    | List(items: seq<Value>)
    | Object(members: map<string, Value>)

  type Members = map<string, Value>

  const AGENTS_PATH := "AGENTS.md"
  const GATE_TIMEOUT_SECONDS := 600
  const GATE_TIMEOUT_MILLISECONDS := 600_000
  const STOP_COMMAND := "shallnot hook stop"
  const COPILOT_STOP_COMMAND := "shallnot hook copilot-stop"
  const CURSOR_STOP_COMMAND := "shallnot hook cursor-stop"
  const HOOKS := "hooks"
  const VERSION := "version"
  const CONTEXT := "context"
  const FILE_NAME := "fileName"
  const GEMINI_OWN_CONTEXT_FILE := "GEMINI.md"
  const GEMINI_EXTRA: Members := map["name" := Text("shallnot")]

  // ----- Reading

  /** The value contains the string anywhere but as a key. */
  predicate Mentions(value: Value, command: string) {
    match value
    case Text(text) => text == command
    case List(items) => exists i | 0 <= i < |items| :: Mentions(items[i], command)
    case Object(members) => exists key | key in members :: Mentions(members[key], command)
    case _ => false
  }

  predicate MentionedAt(members: Members, key: string, command: string) {
    key in members && Mentions(members[key], command)
  }

  function ObjectAt(members: Members, key: string): Members {
    if key in members && members[key].Object? then members[key].members else map[]
  }

  function ListAt(members: Members, key: string): seq<Value> {
    if key in members && members[key].List? then members[key].items else []
  }

  // ----- Adding a hook

  function Appended(members: Members, event: string, entry: Value): Members {
    members[event := List(ListAt(members, event) + [entry])]
  }

  /**
   The entry is in the list of the event, which sits under the wrapper
   key or, when that is empty, at the top level.
   */
  function WithEntry(members: Members, wrapper: string, event: string, entry: Value): Members {
    if wrapper == "" then Appended(members, event, entry)
    else members[wrapper := Object(Appended(ObjectAt(members, wrapper), event, entry))]
  }

  /** The key under which the command is looked for. */
  function Place(wrapper: string, event: string): string {
    if wrapper == "" then event else wrapper
  }

  function CommandEntry(command: string, timeout: int, extra: Members): Value {
    Object(map[HOOKS :=
               List([Object(map["type" := Text("command"), "command" := Text(command), "timeout" := Number(timeout)]
                            + extra)])])
  }

  function WithStopHook(members: Members, wrapper: string, event: string, command: string, timeout: int,
                        extra: Members): Members
  {
    if MentionedAt(members, Place(wrapper, event), command) then members
    else WithEntry(members, wrapper, event, CommandEntry(command, timeout, extra))
  }

  function Versioned(members: Members): Members {
    if VERSION in members then members else members[VERSION := Number(1)]
  }

  function CopilotEntry(): Value {
    Object(map["type" := Text("command"), "bash" := Text(COPILOT_STOP_COMMAND),
               "powershell" := Text(COPILOT_STOP_COMMAND), "timeoutSec" := Number(GATE_TIMEOUT_SECONDS)])
  }

  function CursorEntry(): Value {
    Object(map["command" := Text(CURSOR_STOP_COMMAND)])
  }

  /** The layout of Copilot and Cursor: a version beside the hooks, and the bare entry in the list of its event. */
  function WithVersionedHook(members: Members, event: string, command: string, entry: Value): Members {
    if MentionedAt(members, HOOKS, command) then members else WithEntry(Versioned(members), HOOKS, event, entry)
  }

  // ----- The context files of Gemini CLI

  function ContextNames(context: Members): seq<Value> {
    if FILE_NAME !in context || context[FILE_NAME].Null? then [Text(GEMINI_OWN_CONTEXT_FILE)]
    else if context[FILE_NAME].Text? then [context[FILE_NAME]]
    else if context[FILE_NAME].List? then context[FILE_NAME].items
    else []
  }

  function WithContextFile(context: Members): Members {
    if Text(AGENTS_PATH) in ContextNames(context) then context
    else context[FILE_NAME := List([Text(AGENTS_PATH)] + ContextNames(context))]
  }

  function WithGeminiSettings(members: Members): Members {
    var hooked := WithStopHook(members, HOOKS, "AfterAgent", STOP_COMMAND, GATE_TIMEOUT_MILLISECONDS, GEMINI_EXTRA);
    hooked[CONTEXT := Object(WithContextFile(ObjectAt(hooked, CONTEXT)))]
  }

  /** Neither the hook nor the context file is missing. */
  predicate GeminiSettled(members: Members) {
    MentionedAt(members, HOOKS, STOP_COMMAND) && Text(AGENTS_PATH) in ContextNames(ObjectAt(members, CONTEXT))
  }

  // ----- The writers

  /** What became of the settings; a panic ends the program at the first write into a map that was never made. */
  datatype Write = Kept | Changed | Panicked

  /** The decoded settings of a harness, changed in place. Reading a map that was never made is reading an empty one. */
  class Settings {
    const made: bool
    var members: Members

    predicate Valid()
      reads this
    {
      !made ==> members == map[]
    }

    constructor (made: bool, members: Members)
      requires !made ==> members == map[]
      ensures Valid() && this.made == made && this.members == members
    {
      this.made, this.members := made, members;
    }

    method Put(key: string, value: Value) returns (panicked: bool)
      modifies this
      ensures panicked == !made
      ensures members == if made then old(members)[key := value] else old(members)
    {
      panicked := !made;
      if !panicked {
        members := members[key := value];
      }
    }

    /** The object under the key, put there empty where there is none. */
    method ObjectUnder(key: string) returns (child: Members, panicked: bool)
      requires Valid()
      modifies this
      ensures Valid() && panicked == !made
      ensures !panicked ==> child == ObjectAt(old(members), key) && members == old(members)[key := Object(child)]
    {
      child, panicked := ObjectAt(members, key), false;
      if key !in members || !members[key].Object? {
        panicked := Put(key, Object(child));
      } else {
        assert members == members[key := Object(child)];
      }
    }

    /** Appends the entry to the list of the event, under the wrapper if there is one. */
    method Append(wrapper: string, event: string, entry: Value) returns (write: Write)
      requires Valid()
      modifies this
      ensures Valid() && write == if made then Changed else Panicked
      ensures made ==> members == WithEntry(old(members), wrapper, event, entry)
    {
      var panicked;
      if wrapper != "" {
        var events;
        events, panicked := ObjectUnder(wrapper);
        if panicked {
          return Panicked;
        }
        events := events[event := List(ListAt(events, event) + [entry])];
        panicked := Put(wrapper, Object(events));
      } else {
        panicked := Put(event, List(ListAt(members, event) + [entry]));
      }
      write := if panicked then Panicked else Changed;
    }

    method AddStopHook(wrapper: string, event: string, command: string, timeout: int, extra: Members)
      returns (write: Write)
      requires Valid()
      modifies this
      ensures Valid() && (write.Panicked? <==> !made && !MentionedAt(old(members), Place(wrapper, event), command))
      ensures !write.Panicked? ==> members == WithStopHook(old(members), wrapper, event, command, timeout, extra)
      ensures write.Kept? <==> MentionedAt(old(members), Place(wrapper, event), command)
    {
      if MentionedAt(members, Place(wrapper, event), command) {
        return Kept;
      }
      write := Append(wrapper, event, CommandEntry(command, timeout, extra));
    }

    method AddVersionedHook(event: string, command: string, entry: Value) returns (write: Write)
      requires Valid()
      modifies this
      ensures Valid() && (write.Panicked? <==> !made && !MentionedAt(old(members), HOOKS, command))
      ensures !write.Panicked? ==> members == WithVersionedHook(old(members), event, command, entry)
      ensures write.Kept? <==> MentionedAt(old(members), HOOKS, command)
    {
      if MentionedAt(members, HOOKS, command) {
        return Kept;
      }
      if VERSION !in members {
        var panicked := Put(VERSION, Number(1));
        if panicked {
          return Panicked;
        }
      }
      write := Append(HOOKS, event, entry);
    }

    method AddContextFile() returns (write: Write)
      requires Valid()
      modifies this
      ensures Valid() && (write.Panicked? <==> !made)
      ensures made ==> members == old(members)[CONTEXT := Object(WithContextFile(ObjectAt(old(members), CONTEXT)))]
      ensures made ==> (write.Kept? <==> Text(AGENTS_PATH) in ContextNames(ObjectAt(old(members), CONTEXT)))
    {
      var context, panicked := ObjectUnder(CONTEXT);
      if panicked {
        return Panicked;
      }
      var names := ContextNames(context);
      for i := 0 to |names|
        invariant Text(AGENTS_PATH) !in names[..i]
      {
        if names[i] == Text(AGENTS_PATH) {
          return Kept;
        }
      }
      context := context[FILE_NAME := List([Text(AGENTS_PATH)] + names)];
      panicked := Put(CONTEXT, Object(context));
      write := Changed;
    }

    method AddGeminiSettings() returns (write: Write)
      requires Valid()
      modifies this
      ensures Valid() && (write.Panicked? <==> !made)
      ensures made ==> members == WithGeminiSettings(old(members)) && (write.Kept? <==> GeminiSettled(old(members)))
    {
      var hooked := AddStopHook(HOOKS, "AfterAgent", STOP_COMMAND, GATE_TIMEOUT_MILLISECONDS, GEMINI_EXTRA);
      if hooked.Panicked? {
        return Panicked;
      }
      assert ObjectAt(members, CONTEXT) == ObjectAt(old(members), CONTEXT);
      var named := AddContextFile();
      write := if named.Panicked? then Panicked else if hooked.Kept? && named.Kept? then Kept else Changed;
    }
  }

  // ----- Once is enough

  lemma ListMentions(items: seq<Value>, i: nat, command: string)
    requires i < |items| && Mentions(items[i], command)
    ensures Mentions(List(items), command)
  {
  }

  lemma ObjectMentions(members: Members, key: string, command: string)
    requires key in members && Mentions(members[key], command)
    ensures Mentions(Object(members), command)
  {
  }

  lemma EntryMentions(command: string, timeout: int, extra: Members)
    requires "command" !in extra
    ensures Mentions(CommandEntry(command, timeout, extra), command)
  {
    var hook := map["type" := Text("command"), "command" := Text(command), "timeout" := Number(timeout)] + extra;
    ObjectMentions(hook, "command", command);
    ListMentions([Object(hook)], 0, command);
    ObjectMentions(map[HOOKS := List([Object(hook)])], HOOKS, command);
  }

  lemma {:induction false} AddedIsMentioned(members: Members, wrapper: string, event: string, entry: Value,
                                            command: string)
    requires Mentions(entry, command)
    ensures MentionedAt(WithEntry(members, wrapper, event, entry), Place(wrapper, event), command)
  {
    var events := if wrapper == "" then members else ObjectAt(members, wrapper);
    ListMentions(ListAt(events, event) + [entry], |ListAt(events, event)|, command);
    if wrapper != "" {
      ObjectMentions(Appended(events, event, entry), event, command);
    }
  }

  /** The hook is found afterwards, so that it is added once. */
  lemma StopHookIsAddedOnce(members: Members, wrapper: string, event: string, command: string, timeout: int,
                            extra: Members)
    requires "command" !in extra
    ensures var written := WithStopHook(members, wrapper, event, command, timeout, extra);
            MentionedAt(written, Place(wrapper, event), command)
            && WithStopHook(written, wrapper, event, command, timeout, extra) == written
  {
    EntryMentions(command, timeout, extra);
    AddedIsMentioned(members, wrapper, event, CommandEntry(command, timeout, extra), command);
  }

  lemma VersionedHookIsAddedOnce(members: Members, event: string, command: string, entry: Value)
    requires Mentions(entry, command)
    ensures var written := WithVersionedHook(members, event, command, entry);
            MentionedAt(written, HOOKS, command) && WithVersionedHook(written, event, command, entry) == written
  {
    AddedIsMentioned(Versioned(members), HOOKS, event, entry, command);
  }

  lemma OwnEntriesMention()
    ensures Mentions(CopilotEntry(), COPILOT_STOP_COMMAND) && Mentions(CursorEntry(), CURSOR_STOP_COMMAND)
  {
    assert CopilotEntry().members["bash"] == Text(COPILOT_STOP_COMMAND);
    ObjectMentions(CopilotEntry().members, "bash", COPILOT_STOP_COMMAND);
    ObjectMentions(CursorEntry().members, "command", CURSOR_STOP_COMMAND);
  }

  /** The Gemini settings are settled after one run, and read every context file they read before. */
  lemma GeminiIsSettledOnce(members: Members)
    ensures GeminiSettled(WithGeminiSettings(members))
    ensures forall name | name in ContextNames(ObjectAt(members, CONTEXT)) ::
              name in ContextNames(ObjectAt(WithGeminiSettings(members), CONTEXT))
  {
    StopHookIsAddedOnce(members, HOOKS, "AfterAgent", STOP_COMMAND, GATE_TIMEOUT_MILLISECONDS, GEMINI_EXTRA);
    var hooked := WithStopHook(members, HOOKS, "AfterAgent", STOP_COMMAND, GATE_TIMEOUT_MILLISECONDS, GEMINI_EXTRA);
    assert ObjectAt(hooked, CONTEXT) == ObjectAt(members, CONTEXT);
  }

  // ----- What is kept

  /** Nothing of before is lost: objects keep their keys, lists are only extended, other values stay. */
  predicate Keeps(before: Value, after: Value) {
    match before
    case Object(members) => after.Object? && forall key | key in members ::
        key in after.members && Keeps(members[key], after.members[key])
    case List(items) => after.List? && |items| <= |after.items| && forall i | 0 <= i < |items| ::
        Keeps(items[i], after.items[i])
    case _ => after == before
  }

  lemma {:induction false} KeepsItself(value: Value)
    ensures Keeps(value, value)
  {
    match value
    case Object(members) =>
      forall key | key in members ensures Keeps(members[key], members[key]) {
        KeepsItself(members[key]);
      }
    case List(items) =>
      forall i | 0 <= i < |items| ensures Keeps(items[i], items[i]) {
        KeepsItself(items[i]);
      }
    case _ =>
  }

  /** The value under the key is absent or a list. */
  predicate ListOrAbsent(members: Members, key: string) {
    key !in members || members[key].List?
  }

  /** The settings have the layout of the harness. */
  predicate Fits(members: Members, wrapper: string, event: string) {
    if wrapper == "" then ListOrAbsent(members, event)
    else wrapper !in members || (members[wrapper].Object? && ListOrAbsent(members[wrapper].members, event))
  }

  lemma AppendedKeeps(members: Members, event: string, entry: Value)
    ensures Keeps(Object(members), Object(Appended(members, event, entry))) <==> ListOrAbsent(members, event)
  {
    var after := Appended(members, event, entry);
    forall key | key in members ensures Keeps(members[key], after[key]) <==> key != event || members[event].List? {
      KeepsItself(members[key]);
      if key == event && members[event].List? {
        var items := members[event].items;
        forall i | 0 <= i < |items| ensures Keeps(items[i], (items + [entry])[i]) {
          KeepsItself(items[i]);
        }
      }
    }
  }

  /** Adding an entry keeps every other setting exactly when the settings have the layout of the harness. */
  lemma EntryKeepsIffFits(members: Members, wrapper: string, event: string, entry: Value)
    ensures Keeps(Object(members), Object(WithEntry(members, wrapper, event, entry))) <==> Fits(members, wrapper, event)
    ensures forall key | key in members && key != Place(wrapper, event) ::
              WithEntry(members, wrapper, event, entry)[key] == members[key]
  {
    if wrapper == "" {
      AppendedKeeps(members, event, entry);
    } else {
      var after := WithEntry(members, wrapper, event, entry);
      AppendedKeeps(ObjectAt(members, wrapper), event, entry);
      forall key | key in members
        ensures Keeps(members[key], after[key]) <==> key != wrapper || Fits(members, wrapper, event)
      {
        KeepsItself(members[key]);
      }
    }
  }

  /**
   A stop hook that is missing is added without loss exactly where the
   layout fits; one that is there changes nothing.
   */
  lemma StopHookKeepsIff(members: Members, wrapper: string, event: string, command: string, timeout: int,
                         extra: Members)
    ensures Keeps(Object(members), Object(WithStopHook(members, wrapper, event, command, timeout, extra)))
            <==> MentionedAt(members, Place(wrapper, event), command) || Fits(members, wrapper, event)
  {
    KeepsItself(Object(members));
    EntryKeepsIffFits(members, wrapper, event, CommandEntry(command, timeout, extra));
  }

  lemma VersionedHookKeepsIff(members: Members, event: string, command: string, entry: Value)
    ensures Keeps(Object(members), Object(WithVersionedHook(members, event, command, entry)))
            <==> MentionedAt(members, HOOKS, command) || Fits(members, HOOKS, event)
  {
    KeepsItself(Object(members));
    EntryKeepsIffFits(members, HOOKS, event, entry);
    assert WithEntry(Versioned(members), HOOKS, event, entry)[HOOKS] == WithEntry(members, HOOKS, event, entry)[HOOKS];
    var after := WithEntry(Versioned(members), HOOKS, event, entry);
    forall key | key in members ensures after[key] == WithEntry(members, HOOKS, event, entry)[key] {
    }
  }

  /**
   Gemini's other settings are kept, and so is its context but for the file
   names; the hooks are kept as those of any harness.
   */
  lemma GeminiKeepsTheRest(members: Members)
    ensures var written := WithGeminiSettings(members);
            && (forall key | key in members && key != HOOKS && key != CONTEXT ::
                  key in written && written[key] == members[key])
            && (forall key | key in ObjectAt(members, CONTEXT) && key != FILE_NAME ::
                  key in ObjectAt(written, CONTEXT)
                  && ObjectAt(written, CONTEXT)[key] == ObjectAt(members, CONTEXT)[key])
            && HOOKS in written
            && (HOOKS in members ==>
                  (Keeps(members[HOOKS], written[HOOKS])
                   <==> MentionedAt(members, HOOKS, STOP_COMMAND) || Fits(members, HOOKS, "AfterAgent")))
  {
    StopHookIsAddedOnce(members, HOOKS, "AfterAgent", STOP_COMMAND, GATE_TIMEOUT_MILLISECONDS, GEMINI_EXTRA);
    var hooked := WithStopHook(members, HOOKS, "AfterAgent", STOP_COMMAND, GATE_TIMEOUT_MILLISECONDS, GEMINI_EXTRA);
    StopHookKeepsIff(members, HOOKS, "AfterAgent", STOP_COMMAND, GATE_TIMEOUT_MILLISECONDS, GEMINI_EXTRA);
    forall key | key in members && key != HOOKS
      ensures key in hooked && hooked[key] == members[key] && Keeps(members[key], hooked[key])
    {
      KeepsItself(members[key]);
    }
    assert ObjectAt(hooked, CONTEXT) == ObjectAt(members, CONTEXT);
  }

  /** The file names stand at the end of the new list, in their order; a name that is null stood for none. */
  predicate NamesKept(before: Value, after: Value) {
    match before
    case Null => true
    case Text(_) => after == before || (after.List? && before in after.items)
    case List(items) => after.List? && |items| <= |after.items| && after.items[|after.items| - |items|..] == items
    case _ => after == before
  }

  /** Nothing of the context is lost, where more file names may be read than before. */
  predicate KeepsContext(before: Value, after: Value) {
    match before
    case Object(context) =>
      after.Object? && forall key | key in context ::
        && key in after.members
        && if key == FILE_NAME then NamesKept(context[key], after.members[key])
           else Keeps(context[key], after.members[key])
    case _ => Keeps(before, after)
  }

  predicate KeepsSettings(before: Members, after: Members) {
    forall key | key in before ::
      key in after && if key == CONTEXT then KeepsContext(before[key], after[key]) else Keeps(before[key], after[key])
  }

  /** The context is an object whose file name, if it has one, is null, a name or a list. */
  predicate ContextFits(members: Members) {
    CONTEXT in members ==>
      && members[CONTEXT].Object?
      && var context := members[CONTEXT].members;
      FILE_NAME in context ==> context[FILE_NAME].Null? || context[FILE_NAME].Text? || context[FILE_NAME].List?
  }

  lemma ContextKeepsIff(context: Members)
    ensures KeepsContext(Object(context), Object(WithContextFile(context)))
            <==> (FILE_NAME in context
                  ==> context[FILE_NAME].Null? || context[FILE_NAME].Text? || context[FILE_NAME].List?)
  {
    var after := WithContextFile(context);
    forall key | key in context && key != FILE_NAME ensures key in after && Keeps(context[key], after[key]) {
      KeepsItself(context[key]);
    }
    if FILE_NAME in context && context[FILE_NAME].List? {
      assert ([Text(AGENTS_PATH)] + context[FILE_NAME].items)[1..] == context[FILE_NAME].items;
    }
  }

  /** Gemini's settings are kept exactly where its hooks and its context have the layout the writer expects. */
  lemma GeminiKeepsIff(members: Members)
    ensures KeepsSettings(members, WithGeminiSettings(members))
            <==> (MentionedAt(members, HOOKS, STOP_COMMAND) || Fits(members, HOOKS, "AfterAgent"))
                 && ContextFits(members)
  {
    var written := WithGeminiSettings(members);
    GeminiKeepsTheRest(members);
    forall key | key in members && key != HOOKS && key != CONTEXT ensures Keeps(members[key], written[key]) {
      KeepsItself(members[key]);
    }
    var hooked := WithStopHook(members, HOOKS, "AfterAgent", STOP_COMMAND, GATE_TIMEOUT_MILLISECONDS, GEMINI_EXTRA);
    assert ObjectAt(hooked, CONTEXT) == ObjectAt(members, CONTEXT);
    ContextKeepsIff(ObjectAt(members, CONTEXT));
  }
}
