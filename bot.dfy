/** The module contract, the registry and the scheduler's structure
    (src/bot.rs). Modules are described by the data the registry keeps about
    them; the module instance behind the shared lock is named by its
    `handle`, which is its position in the registry. */
module Bot {
  import opened Common
  import opened Config

  type Message = string
  type MessageResponse = string

  /** An incoming chat message and the opaque id its reply must carry. */
  datatype MessageCtx = MessageCtx(content: Message, id: string)

  datatype ModuleParam = ModuleParam(name: string, description: string, mandatory: bool)

  /** How a module takes part in routing. */
  datatype Capabilities = Capabilities(
    triggers: Option<seq<string>>,
    catchNonTriggered: bool,
    catchAll: bool,
    sendMessage: bool,
    readMessage: bool,
    respMessage: bool)

  /** `ModuleCapabilities::default()`: no triggers, every flag off. */
  const DefaultCapabilities: Capabilities := Capabilities(None, false, false, false, false, false)

  /** `ModuleCapabilities { triggers: Some(ts), ..ModuleCapabilities::default() }`. */
  function TriggersOnly(ts: seq<string>): Capabilities
  {
    DefaultCapabilities.(triggers := Some(ts))
  }

  /** `std::env::VarError`: why a module constructor gave up. */
  datatype VarError = NotPresent | NotUnicode

  /** What a module reports about itself when it is wrapped for the registry:
      `name()`, `variation_durations()` (in seconds), `params()` and
      `capabilities()`. */
  datatype ModuleInfo = ModuleInfo(
    name: string,
    variationDurations: seq<nat>,
    params: seq<ModuleParam>,
    capabilities: Capabilities)

  /** A registry entry (`ModuleData`). */
  datatype ModuleData = ModuleData(
    handle: nat,
    name: string,
    variationDurations: seq<nat>,
    params: seq<ModuleParam>,
    capabilities: Capabilities)

  /** `ModuleData::new`: the module is asked once, at registration, for its
      name, durations, parameters and capabilities; the entry keeps those
      answers and the handle of the shared instance. */
  function NewModuleData(handle: nat, info: ModuleInfo): (d: ModuleData)
    ensures d.handle == handle
    ensures ModuleInfo(d.name, d.variationDurations, d.params, d.capabilities) == info
  {
    ModuleData(handle, info.name, info.variationDurations, info.params, info.capabilities)
  }

  /** `BOT_MODULE_<NAME>_ENABLED`, the module name upper-cased. */
  function EnableVar(moduleName: string): string
  {
    "BOT_MODULE_" + ToUpper(moduleName) + "_ENABLED"
  }

  /** `Bot::is_module_enabled`: the variable is set to exactly "1" or "true". */
  function IsModuleEnabled(env: Env, moduleName: string): (enabled: bool)
    ensures enabled <==> EnableVar(moduleName) in env && env[EnableVar(moduleName)] in {"1", "true"}
    ensures EnableVar(moduleName) !in env ==> !enabled
  {
    var key := EnableVar(moduleName);
    if key in env then
      match env[key]
      case "1" => true
      case "true" => true
      case _ => false
    else false
  }

  /** The enable switch does not depend on the case of the module name:
      "ping" and "PING" read the same variable. */
  lemma EnabledIgnoresCase(env: Env, moduleName: string)
    ensures IsModuleEnabled(env, moduleName) == IsModuleEnabled(env, ToUpper(moduleName))
  {
    ToUpperIdempotent(moduleName);
  }

  /** The `fold` of a module's parameters into a `HashMap` keyed by name:
      of several parameters with one name, the last one is kept. */
  function ParamMap(params: seq<ModuleParam>): (m: map<string, ModuleParam>)
    ensures forall i :: 0 <= i < |params| ==> params[i].name in m
    ensures forall n :: n in m ==> exists k :: 0 <= k < |params| && params[k].name == n
    decreases |params|
  {
    if |params| == 0 then map[]
    else
      var last := params[|params| - 1];
      ParamMap(params[..|params| - 1])[last.name := last]
  }

  /** The parameter the map keeps for a name is the last one declared with it. */
  lemma {:induction false} ParamMapLastWins(params: seq<ModuleParam>, k: nat)
    requires k < |params|
    requires forall j :: k < j < |params| ==> params[j].name != params[k].name
    ensures ParamMap(params)[params[k].name] == params[k]
    decreases |params|
  {
    var init := params[..|params| - 1];
    if k < |params| - 1 {
      assert init[k] == params[k];
      ParamMapLastWins(init, k);
    }
  }

  function HelpHeader(name: string): string
  {
    "# '" + name + "' module parameters\n"
  }

  function HelpEnableLine(name: string): string
  {
    "- " + EnableVar(name) + ": enable module " + name + " (optional: false)\n"
  }

  function ParamLine(name: string, p: ModuleParam): string
  {
    "- " + name + ": " + p.description + " (mandatory: " + BoolToString(p.mandatory) + ")\n"
  }

  /** `names` lists every key of `keys` exactly once. */
  ghost predicate IsEnumeration(names: seq<string>, keys: set<string>)
  {
    && NoDuplicates(names)
    && (forall i :: 0 <= i < |names| ==> names[i] in keys)
    && (forall k :: k in keys ==> k in names)
  }

  /** The parameter lines of one module, in the iteration order `names`. */
  function ParamLines(pm: map<string, ModuleParam>, names: seq<string>): string
    requires forall i :: 0 <= i < |names| ==> names[i] in pm
    decreases |names|
  {
    if |names| == 0 then ""
    else ParamLines(pm, names[..|names| - 1]) + ParamLine(names[|names| - 1], pm[names[|names| - 1]])
  }

  function ModuleHelp(m: ModuleData, names: seq<string>): string
    requires forall i :: 0 <= i < |names| ==> names[i] in ParamMap(m.params)
  {
    HelpHeader(m.name) + HelpEnableLine(m.name) + ParamLines(ParamMap(m.params), names) + "\n"
  }

  /** `orders` holds one iteration order per module, each enumerating that
      module's parameter names (stated module by module, from the last). */
  ghost predicate HelpOrders(modules: seq<ModuleData>, orders: seq<seq<string>>)
    decreases |modules|
  {
    && |orders| == |modules|
    && (|modules| > 0 ==>
          var n := |modules| - 1;
          HelpOrders(modules[..n], orders[..n]) && IsEnumeration(orders[n], ParamMap(modules[n].params).Keys))
  }

  /** Read module by module: the `i`-th order enumerates the `i`-th module's parameters. */
  lemma {:induction false} HelpOrdersEach(modules: seq<ModuleData>, orders: seq<seq<string>>, i: nat)
    requires HelpOrders(modules, orders) && i < |modules|
    ensures IsEnumeration(orders[i], ParamMap(modules[i].params).Keys)
    decreases |modules|
  {
    var n := |modules| - 1;
    if i < n {
      HelpOrdersEach(modules[..n], orders[..n], i);
    }
  }

  /** The documentation `help` prints, for a given iteration order of each
      module's parameter map (a `HashMap` has no fixed order). */
  ghost function HelpDoc(modules: seq<ModuleData>, orders: seq<seq<string>>): string
    requires HelpOrders(modules, orders)
    decreases |modules|
  {
    if |modules| == 0 then ""
    else
      var n := |modules| - 1;
      HelpDoc(modules[..n], orders[..n]) + ModuleHelp(modules[n], orders[n])
  }

  lemma HelpDocStep(modules: seq<ModuleData>, orders: seq<seq<string>>, i: nat, names: seq<string>)
    requires i < |modules| && HelpOrders(modules[..i], orders)
    requires IsEnumeration(names, ParamMap(modules[i].params).Keys)
    ensures HelpOrders(modules[..i + 1], orders + [names])
    ensures HelpDoc(modules[..i + 1], orders + [names]) == HelpDoc(modules[..i], orders) + ModuleHelp(modules[i], names)
  {
    var ms, os := modules[..i + 1], orders + [names];
    assert ms[..i] == modules[..i] && os[..i] == orders;
    assert ms[i] == modules[i] && os[i] == names;
  }

  /** A variable number of workers, each a loop forever around one call. */
  datatype Worker =
    | VariationWorker(handle: nat, variation: nat, cooldown: nat)
    | BroadcastWorker

  /** One worker per variation of one module, in variation order. */
  function ModuleWorkers(m: ModuleData): (ws: seq<Worker>)
    ensures |ws| == |m.variationDurations|
    ensures forall v :: 0 <= v < |ws| ==> ws[v] == VariationWorker(m.handle, v, m.variationDurations[v])
  {
    seq(|m.variationDurations|, v requires 0 <= v < |m.variationDurations| =>
      VariationWorker(m.handle, v, m.variationDurations[v]))
  }

  function VariationWorkers(modules: seq<ModuleData>): seq<Worker>
    decreases |modules|
  {
    if |modules| == 0 then []
    else VariationWorkers(modules[..|modules| - 1]) + ModuleWorkers(modules[|modules| - 1])
  }

  function TotalVariations(modules: seq<ModuleData>): nat
    decreases |modules|
  {
    if |modules| == 0 then 0
    else TotalVariations(modules[..|modules| - 1]) + |modules[|modules| - 1].variationDurations|
  }

  /** The variation workers are exactly the (module, variation index) pairs,
      each with that variation's cooldown, and there is no broadcaster among them. */
  lemma {:induction false} VariationWorkersExactly(modules: seq<ModuleData>, w: Worker)
    ensures |VariationWorkers(modules)| == TotalVariations(modules)
    ensures BroadcastWorker !in VariationWorkers(modules)
    ensures w in VariationWorkers(modules) <==>
      (w.VariationWorker? &&
       exists i :: 0 <= i < |modules| && modules[i].handle == w.handle
         && w.variation < |modules[i].variationDurations|
         && modules[i].variationDurations[w.variation] == w.cooldown)
    decreases |modules|
  {
    if |modules| > 0 {
      var n := |modules| - 1;
      var init := modules[..n];
      VariationWorkersExactly(init, w);
      if w in VariationWorkers(modules) && w !in VariationWorkers(init) {
        assert w in ModuleWorkers(modules[n]);
        var v :| 0 <= v < |ModuleWorkers(modules[n])| && ModuleWorkers(modules[n])[v] == w;
        assert modules[n].handle == w.handle && modules[n].variationDurations[w.variation] == w.cooldown;
      }
      if w.VariationWorker? {
        if i :| (0 <= i < |modules| && modules[i].handle == w.handle
            && w.variation < |modules[i].variationDurations|
            && modules[i].variationDurations[w.variation] == w.cooldown) {
          if i < n {
            assert init[i] == modules[i];
          } else {
            assert ModuleWorkers(modules[n])[w.variation] == w;
          }
        }
      }
    }
  }

  /** Modules a broadcast batch is delivered to, in registry order. */
  function SendCapable(modules: seq<ModuleData>): seq<ModuleData>
    decreases |modules|
  {
    if |modules| == 0 then []
    else
      var last := modules[|modules| - 1];
      SendCapable(modules[..|modules| - 1]) + (if last.capabilities.sendMessage then [last] else [])
  }

  /** One `send_message(&batch)` call on the module named by `handle`. */
  datatype Delivery = Delivery(handle: nat, batch: seq<Message>)

  /** Capacity of the mailbox between the variation workers and the broadcaster. */
  const MAILBOX_CAPACITY: nat := 100

  /** A variation worker hands its result to the mailbox: nothing to send
      leaves it as is; a batch is queued, unless the mailbox is full, in which
      case the sender is blocked (`None`). */
  function Post(mailbox: seq<seq<Message>>, result: Option<seq<Message>>): (r: Option<seq<seq<Message>>>)
    ensures result.None? ==> r == Some(mailbox)
    ensures result.Some? ==> (r.Some? <==> |mailbox| < MAILBOX_CAPACITY)
    ensures result.Some? && r.Some? ==> r.value == mailbox + [result.value]
  {
    match result
    case None => Some(mailbox)
    case Some(batch) => if |mailbox| < MAILBOX_CAPACITY then Some(mailbox + [batch]) else None
  }

  /** What happens at the mailbox: a variation worker's run ends with its
      result, or the broadcaster polls with `try_recv`. */
  datatype MailboxEvent = RunEnded(result: Option<seq<Message>>) | Polled

  /** The mailbox together with what went through it: the batches queued
      so far (`posted`) and those the broadcaster took (`taken`). */
  datatype Channel = Channel(queued: seq<seq<Message>>, posted: seq<seq<Message>>, taken: seq<seq<Message>>)

  /** One event. A send into a full mailbox waits, so it has not happened
      yet and changes nothing; a poll of an empty mailbox finds nothing; a
      poll otherwise takes the oldest batch, the one `Broadcast` delivers. */
  function ChannelStep(c: Channel, e: MailboxEvent): Channel
  {
    match e
    case RunEnded(result) =>
      (match Post(c.queued, result)
       case None => c
       case Some(q) =>
         c.(queued := q, posted := c.posted + (if result.Some? then [result.value] else [])))
    case Polled =>
      if c.queued == [] then c else c.(queued := c.queued[1..], taken := c.taken + [c.queued[0]])
  }

  function ChannelRun(events: seq<MailboxEvent>): Channel
  {
    if events == [] then Channel([], [], [])
    else ChannelStep(ChannelRun(events[..|events| - 1]), events[|events| - 1])
  }

  /** Whatever the interleaving of runs and polls, the mailbox never holds
      more than its capacity, and the broadcaster takes the batches in the
      order they were queued: what it took, followed by what is still
      queued, is exactly what was posted. */
  lemma {:induction false} MailboxIsFifo(events: seq<MailboxEvent>)
    ensures |ChannelRun(events).queued| <= MAILBOX_CAPACITY
    ensures ChannelRun(events).taken + ChannelRun(events).queued == ChannelRun(events).posted
  {
    if events != [] {
      var c := ChannelRun(events[..|events| - 1]);
      MailboxIsFifo(events[..|events| - 1]);
      var e := events[|events| - 1];
      if e.Polled? && c.queued != [] {
        assert c.taken + [c.queued[0]] + c.queued[1..] == c.taken + c.queued;
      } else if e.RunEnded? && e.result.Some? && |c.queued| < MAILBOX_CAPACITY {
        assert c.taken + (c.queued + [e.result.value]) == (c.taken + c.queued) + [e.result.value];
      }
    }
  }

  class Bot {
    var modules: seq<ModuleData>

    /** Every entry's handle is its position. */
    ghost predicate Valid()
      reads this
    {
      forall i :: 0 <= i < |modules| ==> modules[i].handle == i
    }

    constructor ()
      ensures Valid() && modules == []
    {
      modules := [];
    }

    /** `Bot::register`: a disabled module or a failed constructor leaves the
        registry as it is; otherwise exactly one entry is appended. The
        enable switch is read under the registration name, the entry takes
        the name the module reports. */
    method Register(env: Env, moduleName: string, built: Result<ModuleInfo, VarError>)
      requires Valid()
      modifies this
      ensures Valid()
      ensures modules ==
        if IsModuleEnabled(env, moduleName) && built.Ok?
        then old(modules) + [NewModuleData(|old(modules)|, built.value)]
        else old(modules)
    {
      if !IsModuleEnabled(env, moduleName) {
        return;
      }
      match built {
        case Err(_) =>
          return;
        case Ok(m) =>
          modules := modules + [NewModuleData(|modules|, m)];
      }
    }

    /** `Bot::help`: per module a header line, the enable line, one line per
        distinct parameter name (in the map's iteration order, which is
        returned as `orders`), then an empty line. */
    method Help() returns (output: string, ghost orders: seq<seq<string>>)
      ensures HelpOrders(modules, orders)
      ensures output == HelpDoc(modules, orders)
    {
      output := "";
      orders := [];
      for i := 0 to |modules|
        invariant HelpOrders(modules[..i], orders)
        invariant output == HelpDoc(modules[..i], orders)
      {
        var m := modules[i];
        var lines, names := ParamLinesOf(ParamMap(m.params));
        HelpDocStep(modules, orders, i, names);
        output := output + (HelpHeader(m.name) + HelpEnableLine(m.name) + lines + "\n");
        orders := orders + [names];
      }
      assert modules[..|modules|] == modules;
    }

    /** The parameter lines of one module's map, in whatever order the map
        yields its keys. */
    static method ParamLinesOf(pm: map<string, ModuleParam>) returns (lines: string, ghost names: seq<string>)
      ensures IsEnumeration(names, pm.Keys)
      ensures forall k :: 0 <= k < |names| ==> names[k] in pm
      ensures lines == ParamLines(pm, names)
    {
      var remaining := pm.Keys;
      names := [];
      lines := "";
      while remaining != {}
        invariant forall k :: 0 <= k < |names| ==> names[k] in pm && names[k] !in remaining
        invariant NoDuplicates(names)
        invariant remaining <= pm.Keys
        invariant forall k :: k in pm.Keys ==> k in remaining || k in names
        invariant lines == ParamLines(pm, names)
        decreases remaining
      {
        var n :| n in remaining;
        lines := lines + ParamLine(n, pm[n]);
        names := names + [n];
        remaining := remaining - {n};
      }
    }

    /** The workers `run` starts: none at all for an empty registry; otherwise
        one per (module, variation) and exactly one broadcaster, last. */
    method SpawnWorkers() returns (workers: seq<Worker>)
      ensures |modules| == 0 ==> workers == []
      ensures |modules| > 0 ==> workers == VariationWorkers(modules) + [BroadcastWorker]
    {
      if |modules| == 0 {
        return [];
      }
      workers := [];
      for i := 0 to |modules|
        invariant workers == VariationWorkers(modules[..i])
      {
        var m := modules[i];
        for v := 0 to |m.variationDurations|
          invariant workers == VariationWorkers(modules[..i]) + ModuleWorkers(m)[..v]
        {
          workers := workers + [VariationWorker(m.handle, v, m.variationDurations[v])];
        }
        assert modules[..i + 1][..i] == modules[..i];
      }
      assert modules[..|modules|] == modules;
      workers := workers + [BroadcastWorker];
    }

    /** One pass of the broadcast worker: an empty mailbox delivers nothing;
        otherwise the oldest batch goes to every module whose
        `send_message` capability is set, in registry order. */
    method Broadcast(mailbox: seq<seq<Message>>) returns (deliveries: seq<Delivery>, remaining: seq<seq<Message>>)
      ensures mailbox == [] ==> deliveries == [] && remaining == []
      ensures mailbox != [] ==> remaining == mailbox[1..]
      ensures mailbox != [] ==> |deliveries| == |SendCapable(modules)|
      ensures mailbox != [] ==> forall k :: 0 <= k < |deliveries| ==>
        deliveries[k] == Delivery(SendCapable(modules)[k].handle, mailbox[0])
    {
      if mailbox == [] {
        return [], [];
      }
      var batch := mailbox[0];
      remaining := mailbox[1..];
      deliveries := [];
      ghost var sent: seq<ModuleData> := [];
      for i := 0 to |modules|
        invariant sent == SendCapable(modules[..i])
        invariant |deliveries| == |sent|
        invariant forall k :: 0 <= k < |sent| ==> deliveries[k] == Delivery(sent[k].handle, batch)
      {
        assert modules[..i + 1][..i] == modules[..i];
        if modules[i].capabilities.sendMessage {
          deliveries := deliveries + [Delivery(modules[i].handle, batch)];
          sent := sent + [modules[i]];
        }
      }
      assert modules[..|modules|] == modules;
    }
  }

  /** A batch reaches a module exactly when that module can send. */
  lemma {:induction false} BroadcastReachesExactlySenders(modules: seq<ModuleData>, m: ModuleData)
    requires m in modules
    ensures m in SendCapable(modules) <==> m.capabilities.sendMessage
    decreases |modules|
  {
    var init := modules[..|modules| - 1];
    if m in init {
      BroadcastReachesExactlySenders(init, m);
    } else {
      SendersAreModules(init);
    }
  }

  /** Every module a batch goes to is a registered one. */
  lemma {:induction false} SendersAreModules(modules: seq<ModuleData>)
    ensures forall k :: 0 <= k < |SendCapable(modules)| ==> SendCapable(modules)[k] in modules
    decreases |modules|
  {
    if |modules| > 0 {
      SendersAreModules(modules[..|modules| - 1]);
    }
  }
}
