/** The help module (src/help.rs): it gathers every trigger command of the
    registry when the modules are offered to it, and answers "/help" with
    the list. */
module Help {
  import opened Common
  import opened Bot

  const NAME: string := "help"

  /** One variation, which does nothing. */
  const VARIATION_DURATIONS: seq<nat> := [100]

  /** Only the "/help" trigger. */
  const CAPABILITIES: Capabilities := TriggersOnly(["/help"])

  const HEADER: string := "Available commands are:\n"

  /** The trigger commands a module declares. */
  function TriggersOf(m: ModuleData): set<string>
  {
    if m.capabilities.triggers.Some? then set t | t in m.capabilities.triggers.value else {}
  }

  /** The trigger commands of a registry, module by module. */
  function TriggerSet(modules: seq<ModuleData>): set<string>
    decreases |modules|
  {
    if |modules| == 0 then {}
    else TriggerSet(modules[..|modules| - 1]) + TriggersOf(modules[|modules| - 1])
  }

  /** `TriggerSet` holds exactly the strings some module of the registry
      lists among its triggers. */
  lemma {:induction false} TriggerSetExactly(modules: seq<ModuleData>, t: string)
    ensures t in TriggerSet(modules) <==>
      exists i :: 0 <= i < |modules| && modules[i].capabilities.triggers.Some? && t in modules[i].capabilities.triggers.value
    decreases |modules|
  {
    if |modules| > 0 {
      var init := modules[..|modules| - 1];
      TriggerSetExactly(init, t);
      if t in TriggerSet(init) {
        var i :| 0 <= i < |init| && init[i].capabilities.triggers.Some? && t in init[i].capabilities.triggers.value;
        assert modules[i] == init[i];
      }
      if exists i :: 0 <= i < |modules| && modules[i].capabilities.triggers.Some? && t in modules[i].capabilities.triggers.value {
        var i :| 0 <= i < |modules| && modules[i].capabilities.triggers.Some? && t in modules[i].capabilities.triggers.value;
        if i < |init| {
          assert init[i] == modules[i];
        }
      }
    }
  }

  /** One "- {cmd}\n" line per command of `order`, in that order. */
  function CommandLines(order: seq<string>): string
    decreases |order|
  {
    if |order| == 0 then "" else CommandLines(order[..|order| - 1]) + "- " + order[|order| - 1] + "\n"
  }

  /** Every command of the order has its line in the listing. */
  lemma {:induction false} CommandLinesListEach(order: seq<string>)
    ensures forall i :: 0 <= i < |order| ==> Contains(CommandLines(order), "- " + order[i] + "\n")
    decreases |order|
  {
    if |order| > 0 {
      var init := order[..|order| - 1];
      var last := order[|order| - 1];
      CommandLinesListEach(init);
      var line := "- " + last + "\n";
      assert CommandLines(order) == CommandLines(init) + line;
      forall i | 0 <= i < |order|
        ensures Contains(CommandLines(order), "- " + order[i] + "\n")
      {
        if i < |init| {
          assert order[i] == init[i];
          ContainsAppendRight(CommandLines(init), line, "- " + init[i] + "\n");
        } else {
          assert line <= line;
          ContainsAppendLeft(CommandLines(init), line, line);
        }
      }
    }
  }

  class Help {
    var commands: set<string>

    constructor ()
      ensures commands == {}
    {
      commands := {};
    }

    /** `module_offering`: every trigger of every offered module is added;
        nothing is removed. */
    method ModuleOffering(modules: seq<ModuleData>)
      modifies this
      ensures commands == old(commands) + TriggerSet(modules)
    {
      for i := 0 to |modules|
        invariant commands == old(commands) + TriggerSet(modules[..i])
      {
        assert modules[..i + 1][..i] == modules[..i];
        var m := modules[i];
        if m.capabilities.triggers.Some? {
          var ts := m.capabilities.triggers.value;
          ghost var before := commands;
          for j := 0 to |ts|
            invariant commands == before + set t | t in ts[..j]
          {
            assert ts[..j + 1] == ts[..j] + [ts[j]];
            commands := commands + {ts[j]};
          }
          assert ts[..|ts|] == ts;
        }
      }
      assert modules[..|modules|] == modules;
    }

    /** `trigger`: whatever the message, one answer listing every command
        once, in the set's iteration order `order`. */
    method Trigger(message: string) returns (r: Option<seq<string>>, ghost order: seq<string>)
      ensures IsEnumeration(order, commands)
      ensures r == Some([HEADER + CommandLines(order)])
    {
      var listing := "";
      var todo := commands;
      order := [];
      while todo != {}
        invariant todo <= commands
        invariant NoDuplicates(order)
        invariant forall i :: 0 <= i < |order| ==> order[i] in commands && order[i] !in todo
        invariant forall c :: c in commands ==> c in todo || c in order
        invariant listing == CommandLines(order)
        decreases todo
      {
        var c :| c in todo;
        assert (order + [c])[..|order|] == order;
        listing := listing + "- " + c + "\n";
        order := order + [c];
        todo := todo - {c};
      }
      r := Some([HEADER + listing]);
    }

    /** `run` never says anything. */
    method Run(variation: nat) returns (r: Option<seq<string>>)
      ensures r.None?
    {
      r := None;
    }
  }

  /** After the registry is offered to it, the answer lists every trigger of
      every registered module, its own "/help" among them once help is
      registered. */
  lemma AnswerListsEveryTrigger(modules: seq<ModuleData>, order: seq<string>, i: nat, t: string)
    requires IsEnumeration(order, TriggerSet(modules))
    requires i < |modules| && modules[i].capabilities.triggers.Some? && t in modules[i].capabilities.triggers.value
    ensures Contains(HEADER + CommandLines(order), "- " + t + "\n")
  {
    TriggerSetExactly(modules, t);
    CommandLinesListEach(order);
    var k :| 0 <= k < |order| && order[k] == t;
    ContainsAppendLeft(HEADER, CommandLines(order), "- " + t + "\n");
  }
}
