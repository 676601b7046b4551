/** What becomes of the settings of a harness: the entry that is added, in full, and everything that stays. */
module SettingsLaws {
  import opened HookSettings

  // ----- Finding a command

  datatype Step = At(index: nat) | Under(key: string)

  /** The steps lead from the value to the string. */
  predicate LeadsTo(value: Value, steps: seq<Step>, command: string)
    decreases |steps|
  {
    if steps == [] then value == Text(command)
    else
      match steps[0]
      case At(index) => value.List? && index < |value.items| && LeadsTo(value.items[index], steps[1..], command)
      case Under(key) => value.Object? && key in value.members && LeadsTo(value.members[key], steps[1..], command)
  }

  /** The string is the value, or is found in it by steps into lists and under keys. */
  ghost predicate HasCommand(value: Value, command: string) {
    exists steps :: LeadsTo(value, steps, command)
  }

  lemma {:induction false} HasCommandIff(value: Value, command: string)
    ensures Mentions(value, command) <==> HasCommand(value, command)
    decreases value
  {
    forall i | value.List? && 0 <= i < |value.items|
      ensures Mentions(value.items[i], command) <==> HasCommand(value.items[i], command)
    {
      HasCommandIff(value.items[i], command);
    }
    forall key | value.Object? && key in value.members
      ensures Mentions(value.members[key], command) <==> HasCommand(value.members[key], command)
    {
      HasCommandIff(value.members[key], command);
    }
    if Mentions(value, command) {
      MentionedIsThere(value, command);
    }
    if steps :| LeadsTo(value, steps, command) {
      StepsFind(value, steps, command);
    }
  }

  lemma MentionedIsThere(value: Value, command: string)
    requires Mentions(value, command)
    requires value.List? ==> forall i | 0 <= i < |value.items| ::
               Mentions(value.items[i], command) ==> HasCommand(value.items[i], command)
    requires value.Object? ==> forall key | key in value.members ::
               Mentions(value.members[key], command) ==> HasCommand(value.members[key], command)
    ensures HasCommand(value, command)
  {
    match value
    case List(items) =>
      var i :| 0 <= i < |items| && Mentions(items[i], command);
      var steps :| LeadsTo(items[i], steps, command);
      assert ([At(i)] + steps)[1..] == steps;
      assert LeadsTo(value, [At(i)] + steps, command);
    case Object(members) =>
      var key :| key in members && Mentions(members[key], command);
      var steps :| LeadsTo(members[key], steps, command);
      assert ([Under(key)] + steps)[1..] == steps;
      assert LeadsTo(value, [Under(key)] + steps, command);
    case Text(_) =>
      assert LeadsTo(value, [], command);
    case _ =>
  }

  lemma StepsFind(value: Value, steps: seq<Step>, command: string)
    requires LeadsTo(value, steps, command)
    requires value.List? ==> forall i | 0 <= i < |value.items| ::
               HasCommand(value.items[i], command) ==> Mentions(value.items[i], command)
    requires value.Object? ==> forall key | key in value.members ::
               HasCommand(value.members[key], command) ==> Mentions(value.members[key], command)
    ensures Mentions(value, command)
  {
    if steps != [] {
      match steps[0]
      case At(index) => assert HasCommand(value.items[index], command);
      case Under(key) => assert HasCommand(value.members[key], command);
    }
  }

  ghost predicate HasCommandAt(members: Members, key: string, command: string) {
    key in members && HasCommand(members[key], command)
  }

  lemma HasCommandAtIff(members: Members, key: string, command: string)
    ensures MentionedAt(members, key, command) <==> HasCommandAt(members, key, command)
  {
    if key in members {
      HasCommandIff(members[key], command);
    }
  }

  // ----- Adding an entry

  predicate SameAt(before: Members, after: Members, key: string) {
    (key in before <==> key in after) && (key in before ==> after[key] == before[key])
  }

  function ItemsAt(members: Members, key: string): seq<Value> {
    if key in members then match members[key] case List(items) => items case _ => [] else []
  }

  function MembersAt(members: Members, key: string): Members {
    if key in members then match members[key] case Object(inner) => inner case _ => map[] else map[]
  }

  /** The entry is the last of the list of the event, behind the items that were there; nothing else changed. */
  ghost predicate Grown(before: Members, after: Members, event: string, entry: Value) {
    && event in after && after[event] == List(ItemsAt(before, event) + [entry])
    && forall key | key != event :: SameAt(before, after, key)
  }

  /** So it is with the object under the wrapper, or with the settings themselves where there is no wrapper. */
  ghost predicate Added(before: Members, after: Members, wrapper: string, event: string, entry: Value) {
    if wrapper == "" then Grown(before, after, event, entry)
    else
      && wrapper in after && after[wrapper].Object?
      && Grown(MembersAt(before, wrapper), after[wrapper].members, event, entry)
      && forall key | key != wrapper :: SameAt(before, after, key)
  }

  lemma EntryIsAdded(before: Members, wrapper: string, event: string, entry: Value)
    ensures Added(before, WithEntry(before, wrapper, event, entry), wrapper, event, entry)
  {
    var after := WithEntry(before, wrapper, event, entry);
    if wrapper == "" {
      assert forall key | key != event :: SameAt(before, after, key);
    } else {
      var inner := MembersAt(before, wrapper);
      assert inner == ObjectAt(before, wrapper) && ItemsAt(inner, event) == ListAt(inner, event);
      assert forall key | key != event :: SameAt(inner, after[wrapper].members, key);
      assert forall key | key != wrapper :: SameAt(before, after, key);
    }
  }

  // ----- The entries

  function CommandItem(command: string): Value {
    Object(map["hooks" := List([Object(map["type" := Text("command"), "command" := Text(command),
                                           "timeout" := Number(600)])])])
  }

  function GeminiItem(): Value {
    Object(map["hooks" := List([Object(map["type" := Text("command"), "command" := Text("shallnot hook stop"),
                                           "timeout" := Number(600_000), "name" := Text("shallnot")])])])
  }

  function CopilotItem(): Value {
    Object(map["type" := Text("command"), "bash" := Text("shallnot hook copilot-stop"),
               "powershell" := Text("shallnot hook copilot-stop"), "timeoutSec" := Number(600)])
  }

  function CursorItem(): Value {
    Object(map["command" := Text("shallnot hook cursor-stop")])
  }

  /** The settings after: the same where the command is there already, else with the entry. */
  ghost predicate HookAdded(before: Members, after: Members, wrapper: string, event: string, command: string,
                            entry: Value)
  {
    if HasCommandAt(before, if wrapper == "" then event else wrapper, command) then after == before
    else Added(before, after, wrapper, event, entry)
  }

  lemma StopHookIs(before: Members, wrapper: string, event: string, command: string)
    ensures HookAdded(before, WithStopHook(before, wrapper, event, command, GATE_TIMEOUT_SECONDS, map[]), wrapper,
                      event, command, CommandItem(command))
  {
    HasCommandAtIff(before, Place(wrapper, event), command);
    var hook := map["type" := Text("command"), "command" := Text(command), "timeout" := Number(600)];
    assert hook + map[] == hook;
    assert CommandEntry(command, GATE_TIMEOUT_SECONDS, map[]) == CommandItem(command);
    EntryIsAdded(before, wrapper, event, CommandItem(command));
  }

  /** The settings with version 1, where they have none. */
  ghost predicate HasVersion(before: Members, versioned: Members) {
    && "version" in versioned && ("version" !in before ==> versioned["version"] == Number(1))
    && (forall key | key != "version" :: SameAt(before, versioned, key))
    && ("version" in before ==> versioned == before)
  }

  /** The layout of Copilot and Cursor: where the command is missing, a version and the entry under the hooks. */
  ghost predicate VersionedHookAdded(before: Members, after: Members, event: string, command: string, entry: Value) {
    if HasCommandAt(before, "hooks", command) then after == before
    else exists versioned :: HasVersion(before, versioned) && Added(versioned, after, "hooks", event, entry)
  }

  lemma VersionedHookIs(before: Members, event: string, command: string, entry: Value)
    ensures VersionedHookAdded(before, WithVersionedHook(before, event, command, entry), event, command, entry)
  {
    HasCommandAtIff(before, "hooks", command);
    EntryIsAdded(Versioned(before), "hooks", event, entry);
    assert HasVersion(before, Versioned(before));
  }

  lemma CopilotAndCursorHooksAre(before: Members)
    ensures VersionedHookAdded(before, WithVersionedHook(before, "agentStop", COPILOT_STOP_COMMAND, CopilotEntry()),
                               "agentStop", "shallnot hook copilot-stop", CopilotItem())
    ensures VersionedHookAdded(before, WithVersionedHook(before, "stop", CURSOR_STOP_COMMAND, CursorEntry()), "stop",
                               "shallnot hook cursor-stop", CursorItem())
  {
    VersionedHookIs(before, "agentStop", COPILOT_STOP_COMMAND, CopilotEntry());
    VersionedHookIs(before, "stop", CURSOR_STOP_COMMAND, CursorEntry());
  }

  // ----- Gemini CLI

  /** The context files that are read: GEMINI.md where none is named, else the one name or those of the list. */
  function NamesRead(context: Members): seq<Value> {
    if "fileName" !in context then [Text("GEMINI.md")]
    else
      match context["fileName"]
      case Null => [Text("GEMINI.md")]
      case Text(name) => [Text(name)]
      case List(names) => names
      case _ => []
  }

  /** AGENTS.md is among the names that are read, or is put in front of them; nothing else changed in the context. */
  ghost predicate ContextNamed(before: Members, after: Members) {
    if Text("AGENTS.md") in NamesRead(before) then after == before
    else
      && "fileName" in after && after["fileName"] == List([Text("AGENTS.md")] + NamesRead(before))
      && forall key | key != "fileName" :: SameAt(before, after, key)
  }

  /** The hook is added as for any harness, and the context names AGENTS.md. */
  ghost predicate GeminiAdded(before: Members, after: Members) {
    exists hooked ::
      && HookAdded(before, hooked, "hooks", "AfterAgent", "shallnot hook stop", GeminiItem())
      && "context" in after && after["context"].Object?
      && ContextNamed(MembersAt(hooked, "context"), after["context"].members)
      && forall key | key != "context" :: SameAt(hooked, after, key)
  }

  lemma ContextIsNamed(context: Members)
    ensures ContextNamed(context, WithContextFile(context))
  {
    assert ContextNames(context) == NamesRead(context);
    assert forall key | key != "fileName" :: SameAt(context, WithContextFile(context), key);
  }

  lemma GeminiIs(before: Members)
    ensures GeminiAdded(before, WithGeminiSettings(before))
  {
    var hooked := WithStopHook(before, HOOKS, "AfterAgent", STOP_COMMAND, GATE_TIMEOUT_MILLISECONDS, GEMINI_EXTRA);
    HasCommandAtIff(before, HOOKS, STOP_COMMAND);
    assert map["type" := Text("command"), "command" := Text(STOP_COMMAND), "timeout" := Number(600_000)] + GEMINI_EXTRA
           == map["type" := Text("command"), "command" := Text("shallnot hook stop"), "timeout" := Number(600_000),
                  "name" := Text("shallnot")];
    EntryIsAdded(before, HOOKS, "AfterAgent", GeminiItem());
    assert HookAdded(before, hooked, "hooks", "AfterAgent", "shallnot hook stop", GeminiItem());
    ContextIsNamed(MembersAt(hooked, "context"));
    assert forall key | key != "context" :: SameAt(hooked, WithGeminiSettings(before), key);
  }
}
