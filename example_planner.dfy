/**
 * The rule-based fallback planner: the first case-insensitive trigger phrase
 * found in the request selects a fixed list of tool-call steps.
 */
module ExamplePlanner {
  import opened Text
  import RiskEvaluator

  /** The JSON argument values the fixed plans use. */
  datatype Json = JString(s: string) | JBool(b: bool)

  /** `PlanStep(Tool, Arguments)`; the arguments object as a map from member name to value. */
  datatype PlanStep = PlanStep(tool: string, arguments: map<string, Json>)

  const NotepadTrigger: string := "Open Notepad"
  const ZipTrigger: string := "Zip"
  const UninstallTrigger: string := "Uninstall"

  const OpenExplorerOnDesktop: PlanStep :=
    PlanStep("open_app", map["path" := JString("explorer.exe"), "args" := JString("Desktop")])

  const NotepadPlan: seq<PlanStep> := [
    PlanStep("open_app", map["path" := JString("notepad.exe")]),
    PlanStep("type_text", map["text" := JString("hello")]),
    PlanStep("file_write", map["path" := JString("Desktop/hello.txt"),
                               "content_base64" := JString("aGVsbG8="),
                               "overwrite" := JBool(true)]),
    OpenExplorerOnDesktop
  ]

  const ZipPlan: seq<PlanStep> := [
    PlanStep("run_powershell",
             map["command" := JString("Compress-Archive -Path Desktop/Logs -DestinationPath Desktop/logs.zip -Force")]),
    OpenExplorerOnDesktop
  ]

  const UninstallPlan: seq<PlanStep> := [
    PlanStep("run_powershell", map["command" := JString("winget uninstall FooApp")])
  ]

  /**
   * `ExamplePlanner.Plan`: the plan of the first trigger the request holds,
   * in any case, checked in the order Notepad, Zip, Uninstall; no trigger
   * gives no steps.
   */
  function Plan(request: string): (plan: seq<PlanStep>)
    ensures plan == [] <==> !ContainsIgnoreCase(request, NotepadTrigger) && !ContainsIgnoreCase(request, ZipTrigger)
                            && !ContainsIgnoreCase(request, UninstallTrigger)
    ensures |plan| <= 4
  {
    if ContainsIgnoreCase(request, NotepadTrigger) then NotepadPlan
    else if ContainsIgnoreCase(request, ZipTrigger) then ZipPlan
    else if ContainsIgnoreCase(request, UninstallTrigger) then UninstallPlan
    else []
  }

  function Tools(steps: seq<PlanStep>): (names: seq<string>)
    ensures |names| == |steps| && forall i :: 0 <= i < |steps| ==> names[i] == steps[i].tool
  {
    seq(|steps|, i requires 0 <= i < |steps| => steps[i].tool)
  }

  /** "Open Notepad" wins over every later trigger, whatever else the request holds. */
  lemma NotepadRequest(request: string)
    requires ContainsIgnoreCase(request, NotepadTrigger)
    ensures Tools(Plan(request)) == ["open_app", "type_text", "file_write", "open_app"]
    ensures Plan(request)[2].arguments["path"] == JString("Desktop/hello.txt")
    ensures Plan(request)[2].arguments["overwrite"] == JBool(true)
  {
  }

  lemma ZipRequest(request: string)
    requires !ContainsIgnoreCase(request, NotepadTrigger) && ContainsIgnoreCase(request, ZipTrigger)
    ensures Tools(Plan(request)) == ["run_powershell", "open_app"]
  {
  }

  /** An uninstall request plans a single shell command, and that command is high risk. */
  lemma UninstallRequest(request: string)
    requires !ContainsIgnoreCase(request, NotepadTrigger) && !ContainsIgnoreCase(request, ZipTrigger)
    requires ContainsIgnoreCase(request, UninstallTrigger)
    ensures Tools(Plan(request)) == ["run_powershell"]
    ensures Plan(request)[0].arguments["command"].JString?
    ensures RiskEvaluator.IsHighRisk(Plan(request)[0].arguments["command"].s)
  {
    var command := "winget uninstall FooApp";
    assert Lower(command)[7..16] == "uninstall";
    assert OccursAt(Lower(command), "uninstall", 7);
  }

  /** A request with none of the triggers gets the empty plan. */
  lemma UnknownRequest(request: string)
    requires !ContainsIgnoreCase(request, NotepadTrigger) && !ContainsIgnoreCase(request, ZipTrigger)
    requires !ContainsIgnoreCase(request, UninstallTrigger)
    ensures Plan(request) == []
  {
  }

  /** The trigger is found anywhere in the request, in any letter case. */
  lemma TriggerAnywhere(before: string, trigger: string, after: string)
    ensures ContainsIgnoreCase(before + trigger + after, trigger)
  {
    LowerAppend(before + trigger, after);
    LowerAppend(before, trigger);
    assert Lower(before + trigger + after)[|before|..|before| + |trigger|] == Lower(trigger);
    assert OccursAt(Lower(before + trigger + after), Lower(trigger), |before|);
    ContainsIff(Lower(before + trigger + after), Lower(trigger));
  }

  /**
   * The notepad request used as the planner's acceptance example, written as
   * its trigger followed by the rest of the sentence.
   */
  lemma NotepadScenario()
    ensures var plan := Plan("Open Notepad" + ", type 'hello', save to Desktop\\hello.txt, and show me the file.");
            |plan| == 4 && plan[0].tool == "open_app" && plan[1].tool == "type_text"
  {
    var rest := ", type 'hello', save to Desktop\\hello.txt, and show me the file.";
    TriggerAnywhere("", NotepadTrigger, rest);
    assert "" + NotepadTrigger + rest == "Open Notepad" + rest;
  }

  /** The uninstall request used as the planner's acceptance example. */
  lemma UninstallScenario()
    ensures var plan := Plan("Uninstall FooApp (winget)");
            |plan| == 1 && plan[0].tool == "run_powershell"
            && RiskEvaluator.IsHighRisk(plan[0].arguments["command"].s)
  {
    UninstallScenarioLacksOtherTriggers();
    UninstallScenarioHasTrigger();
    UninstallRequest("Uninstall FooApp (winget)");
  }

  lemma UninstallScenarioHasTrigger()
    ensures ContainsIgnoreCase("Uninstall FooApp (winget)", UninstallTrigger)
  {
    var request := "Uninstall FooApp (winget)";
    TriggerAnywhere("", UninstallTrigger, request[9..]);
    assert "" + UninstallTrigger + request[9..] == request;
  }

  lemma UninstallScenarioLacksOtherTriggers()
    ensures !ContainsIgnoreCase("Uninstall FooApp (winget)", NotepadTrigger)
    ensures !ContainsIgnoreCase("Uninstall FooApp (winget)", ZipTrigger)
  {
    var lower := Lower("Uninstall FooApp (winget)");
    LowerOfUninstallScenario();
    LacksDAndZ(lower);
    assert Lower(NotepadTrigger)[11] == 'd';
    AbsentChar(lower, Lower(NotepadTrigger), 11);
    assert Lower(ZipTrigger)[0] == 'z';
    AbsentChar(lower, Lower(ZipTrigger), 0);
  }

  lemma LowerOfUninstallScenario()
    ensures Lower("Uninstall FooApp (winget)") == "uninstall fooapp (winget)"
  {
  }

  lemma LacksDAndZ(lower: string)
    requires lower == "uninstall fooapp (winget)"
    ensures forall i :: 0 <= i < |lower| ==> lower[i] != 'd' && lower[i] != 'z'
  {
  }

  /** A pattern with a character the text lacks is not in the text. */
  lemma AbsentChar(s: string, p: string, k: int)
    requires 0 <= k < |p| && forall i :: 0 <= i < |s| ==> s[i] != p[k]
    ensures !Contains(s, p)
  {
    ContainsIff(s, p);
  }
}
