/** The message router (src/triggers.rs): it reads new messages from every
    chat-capable module, asks the trigger-capable modules for responses and
    hands every response back to the chat module as a reply. */
module Triggers {
  import opened Common
  import opened Bot

  const NAME: string := "triggers"

  /** What the router reports about itself: one variation every 10 s, no
      parameters, default capabilities. */
  const Info: ModuleInfo := ModuleInfo(NAME, [10], [], DefaultCapabilities)

  /** Kept for routing: not the router itself, and it has triggers (even an
      empty list), catches non-triggered messages, or catches everything. */
  predicate IsTriggerModule(m: ModuleData)
  {
    m.name != NAME &&
    (m.capabilities.triggers.Some? || m.capabilities.catchNonTriggered || m.capabilities.catchAll)
  }

  /** Polled for messages: not the router itself, and it reads or answers messages. */
  predicate IsChatModule(m: ModuleData)
  {
    m.name != NAME && (m.capabilities.readMessage || m.capabilities.respMessage)
  }

  /** A module with default capabilities is never routed to or polled. */
  lemma DefaultModulesAreIgnored(modules: seq<ModuleData>, m: ModuleData)
    requires m.capabilities == DefaultCapabilities
    ensures m !in Filter(modules, IsTriggerModule)
    ensures m !in Filter(modules, IsChatModule)
  {
    FilterContents(modules, IsTriggerModule);
    FilterContents(modules, IsChatModule);
  }

  /** The triggers of one module that the message contains, one entry per
      matching trigger (a trigger listed twice fires twice). */
  function MatchingTriggers(triggers: seq<string>, content: string): seq<string>
  {
    Filter(triggers, ContainedIn(content))
  }

  /** Whether a trigger occurs in the message text. */
  function ContainedIn(content: string): string -> bool
  {
    (t: string) => Contains(content, t)
  }

  function MatchCount(m: ModuleData, content: string): nat
  {
    match m.capabilities.triggers
    case None => 0
    case Some(ts) => |MatchingTriggers(ts, content)|
  }

  /** One more trigger adds one match exactly when the message contains it. */
  lemma MatchingSnoc(ts: seq<string>, j: nat, content: string)
    requires j < |ts|
    ensures |MatchingTriggers(ts[..j + 1], content)| ==
      |MatchingTriggers(ts[..j], content)| + (if Contains(content, ts[j]) then 1 else 0)
  {
    assert ts[..j + 1] == ts[..j] + [ts[j]];
    FilterAppend(ts[..j], [ts[j]], ContainedIn(content));
  }

  /** `n` copies of `h`. */
  function Repeat(h: nat, n: nat): (r: seq<nat>)
    ensures |r| == n
    ensures forall i :: 0 <= i < n ==> r[i] == h
    decreases n
  {
    if n == 0 then [] else Repeat(h, n - 1) + [h]
  }

  lemma RepeatSnoc(xs: seq<nat>, h: nat, n: nat)
    ensures xs + Repeat(h, n) + [h] == xs + Repeat(h, n + 1)
  {
    assert Repeat(h, n + 1) == Repeat(h, n) + [h];
  }

  lemma {:induction false} RepeatCount(h: nat, n: nat, x: nat)
    ensures multiset(Repeat(h, n))[x] == if x == h then n else 0
    decreases n
  {
    if n > 0 {
      RepeatCount(h, n - 1, x);
    }
  }

  /** The `trigger` calls of the first pass for one module: once if it catches
      everything, then once per contained trigger. */
  function FirstPassCalls(m: ModuleData, content: string): seq<nat>
  {
    (if m.capabilities.catchAll then [m.handle] else []) + Repeat(m.handle, MatchCount(m, content))
  }

  function FirstPass(modules: seq<ModuleData>, content: string): seq<nat>
    decreases |modules|
  {
    if |modules| == 0 then []
    else FirstPass(modules[..|modules| - 1], content) + FirstPassCalls(modules[|modules| - 1], content)
  }

  /** The `triggered` flag after the first pass over `modules`. */
  predicate Triggered(modules: seq<ModuleData>, content: string)
    decreases |modules|
  {
    |modules| > 0 &&
    (Triggered(modules[..|modules| - 1], content) || MatchCount(modules[|modules| - 1], content) > 0)
  }

  /** The flag is set exactly when some module has a trigger the message contains. */
  lemma {:induction false} TriggeredIff(modules: seq<ModuleData>, content: string)
    ensures Triggered(modules, content) <==>
      exists i :: 0 <= i < |modules| && MatchCount(modules[i], content) > 0
    decreases |modules|
  {
    if |modules| > 0 {
      var init := modules[..|modules| - 1];
      TriggeredIff(init, content);
      if i :| 0 <= i < |modules| - 1 && MatchCount(modules[i], content) > 0 {
        assert init[i] == modules[i];
      }
    }
  }

  /** The second pass, run only when nothing was triggered: once per module
      that catches non-triggered messages. */
  function Fallback(modules: seq<ModuleData>): seq<nat>
    decreases |modules|
  {
    if |modules| == 0 then []
    else
      var m := modules[|modules| - 1];
      Fallback(modules[..|modules| - 1]) + (if m.capabilities.catchNonTriggered then [m.handle] else [])
  }

  /** Every `trigger` call made for one message, in order, named by module handle. */
  function Calls(modules: seq<ModuleData>, content: string): seq<nat>
  {
    FirstPass(modules, content) + (if Triggered(modules, content) then [] else Fallback(modules))
  }

  /** What a module's `trigger` answers for a message content. */
  type Answer = (nat, string) -> Option<seq<MessageResponse>>

  function AnswerOf(answer: Answer, h: nat, content: string): seq<MessageResponse>
  {
    match answer(h, content)
    case None => []
    case Some(rs) => rs
  }

  /** The responses collected from the calls, in call order; a `None`
      answer contributes nothing. */
  function Responses(calls: seq<nat>, content: string, answer: Answer): seq<MessageResponse>
    decreases |calls|
  {
    if |calls| == 0 then []
    else Responses(calls[..|calls| - 1], content, answer) + AnswerOf(answer, calls[|calls| - 1], content)
  }

  lemma ResponsesSnoc(calls: seq<nat>, h: nat, content: string, answer: Answer)
    ensures Responses(calls + [h], content, answer) == Responses(calls, content, answer) + AnswerOf(answer, h, content)
  {
    assert (calls + [h])[..|calls|] == calls;
  }

  predicate DistinctHandles(modules: seq<ModuleData>)
  {
    forall a, b :: 0 <= a < b < |modules| ==> modules[a].handle != modules[b].handle
  }

  lemma {:induction false} UnknownHandleNotCalled(modules: seq<ModuleData>, content: string, h: nat)
    requires forall k :: 0 <= k < |modules| ==> modules[k].handle != h
    ensures multiset(FirstPass(modules, content))[h] == 0
    ensures multiset(Fallback(modules))[h] == 0
    decreases |modules|
  {
    if |modules| > 0 {
      var m := modules[|modules| - 1];
      UnknownHandleNotCalled(modules[..|modules| - 1], content, h);
      RepeatCount(m.handle, MatchCount(m, content), h);
    }
  }

  lemma FirstPassCallsCount(m: ModuleData, content: string, h: nat)
    ensures multiset(FirstPassCalls(m, content))[h] ==
      if m.handle == h then (if m.capabilities.catchAll then 1 else 0) + MatchCount(m, content) else 0
  {
    RepeatCount(m.handle, MatchCount(m, content), h);
  }

  /** No module has handle `h`. */
  ghost predicate NoneWith(modules: seq<ModuleData>, h: nat)
  {
    forall k :: 0 <= k < |modules| ==> modules[k].handle != h
  }

  /** Module `i` is the only one with handle `h`. */
  ghost predicate OnlyAt(modules: seq<ModuleData>, i: nat, h: nat)
  {
    && i < |modules| && modules[i].handle == h
    && forall k :: 0 <= k < |modules| && k != i ==> modules[k].handle != h
  }

  /** Its handle being unique, module `i` is the only one with it. */
  lemma DistinctOnlyAt(modules: seq<ModuleData>, i: nat)
    requires DistinctHandles(modules) && i < |modules|
    ensures OnlyAt(modules, i, modules[i].handle)
  {
    forall k | 0 <= k < |modules| && k != i ensures modules[k].handle != modules[i].handle {
      if k < i {
        assert modules[k].handle != modules[i].handle;
      } else {
        assert modules[i].handle != modules[k].handle;
      }
    }
  }

  /** Dropping the last module keeps module `i` the only one with `h`, or
      leaves none with it when `i` was the last. */
  lemma OnlyAtInit(modules: seq<ModuleData>, i: nat, h: nat)
    requires OnlyAt(modules, i, h) && |modules| > 0
    ensures i < |modules| - 1 ==> OnlyAt(modules[..|modules| - 1], i, h) && modules[|modules| - 1].handle != h
    ensures i == |modules| - 1 ==> NoneWith(modules[..|modules| - 1], h)
  {
  }

  lemma {:induction false} FirstPassCountAt(modules: seq<ModuleData>, content: string, i: nat, h: nat)
    requires OnlyAt(modules, i, h)
    ensures multiset(FirstPass(modules, content))[h] ==
      (if modules[i].capabilities.catchAll then 1 else 0) + MatchCount(modules[i], content)
    decreases |modules|
  {
    var n := |modules| - 1;
    var init := modules[..n];
    var calls := FirstPassCalls(modules[n], content);
    assert FirstPass(modules, content) == FirstPass(init, content) + calls;
    assert multiset(FirstPass(modules, content)) == multiset(FirstPass(init, content)) + multiset(calls);
    FirstPassCallsCount(modules[n], content, h);
    OnlyAtInit(modules, i, h);
    if i == n {
      UnknownHandleNotCalled(init, content, h);
    } else {
      assert init[i] == modules[i];
      FirstPassCountAt(init, content, i, h);
    }
  }

  lemma {:induction false} FallbackCountAt(modules: seq<ModuleData>, i: nat, h: nat)
    requires OnlyAt(modules, i, h)
    ensures multiset(Fallback(modules))[h] == if modules[i].capabilities.catchNonTriggered then 1 else 0
    decreases |modules|
  {
    var n := |modules| - 1;
    var init := modules[..n];
    var last := modules[n];
    var tail := if last.capabilities.catchNonTriggered then [last.handle] else [];
    assert Fallback(modules) == Fallback(init) + tail;
    assert multiset(Fallback(modules)) == multiset(Fallback(init)) + multiset(tail);
    OnlyAtInit(modules, i, h);
    if i == n {
      UnknownHandleNotCalled(init, "", h);
    } else {
      assert multiset(tail)[h] == 0;
      assert init[i] == modules[i];
      FallbackCountAt(init, i, h);
    }
  }

  /** How often one routed module's `trigger` runs for a message: once if it
      catches everything, once per trigger of its own the message contains,
      and once more if it catches non-triggered messages and no module at all
      was triggered. */
  lemma CallCount(modules: seq<ModuleData>, content: string, i: nat)
    requires DistinctHandles(modules) && i < |modules|
    ensures multiset(Calls(modules, content))[modules[i].handle] ==
      (if modules[i].capabilities.catchAll then 1 else 0)
      + MatchCount(modules[i], content)
      + (if modules[i].capabilities.catchNonTriggered && !Triggered(modules, content) then 1 else 0)
  {
    DistinctOnlyAt(modules, i);
    FirstPassCountAt(modules, content, i, modules[i].handle);
    FallbackCountAt(modules, i, modules[i].handle);
  }

  /** A module that is not routed is never called. */
  lemma UnroutedNotCalled(modules: seq<ModuleData>, content: string, h: nat)
    requires forall k :: 0 <= k < |modules| ==> modules[k].handle != h
    ensures h !in Calls(modules, content)
  {
    UnknownHandleNotCalled(modules, content, h);
  }

  /** A reply handed back to the chat module `chat`: `resp_message(parent, message)`. */
  datatype Reply = Reply(chat: nat, parent: MessageCtx, message: MessageResponse)

  /** One reply per response, in response order, all to `msg`. */
  function ToReplies(chat: nat, msg: MessageCtx, responses: seq<MessageResponse>): (rs: seq<Reply>)
    ensures |rs| == |responses|
    ensures forall k :: 0 <= k < |rs| ==> rs[k] == Reply(chat, msg, responses[k])
  {
    seq(|responses|, k requires 0 <= k < |responses| => Reply(chat, msg, responses[k]))
  }

  /** The replies for one message. */
  function MessageReplies(modules: seq<ModuleData>, chat: nat, msg: MessageCtx, answer: Answer): seq<Reply>
  {
    ToReplies(chat, msg, Responses(Calls(modules, msg.content), msg.content, answer))
  }

  /** The replies for a batch of read messages, message by message. */
  function ChatReplies(modules: seq<ModuleData>, chat: nat, msgs: seq<MessageCtx>, answer: Answer): seq<Reply>
    decreases |msgs|
  {
    if |msgs| == 0 then []
    else ChatReplies(modules, chat, msgs[..|msgs| - 1], answer) + MessageReplies(modules, chat, msgs[|msgs| - 1], answer)
  }

  /** The replies for what one chat module had to read: none when the read failed. */
  function PolledReplies(modules: seq<ModuleData>, chat: nat, unread: Option<seq<MessageCtx>>, answer: Answer): seq<Reply>
  {
    match unread
    case None => []
    case Some(msgs) => ChatReplies(modules, chat, msgs, answer)
  }

  /** Every reply goes back to the chat module it came from and answers one
      of the messages read from it. */
  lemma {:induction false} RepliesAnswerReadMessages(modules: seq<ModuleData>, chat: nat, msgs: seq<MessageCtx>, answer: Answer)
    ensures forall r :: r in ChatReplies(modules, chat, msgs, answer) ==> r.chat == chat && r.parent in msgs
    decreases |msgs|
  {
    if |msgs| > 0 {
      var init := msgs[..|msgs| - 1];
      RepliesAnswerReadMessages(modules, chat, init, answer);
      forall r | r in ChatReplies(modules, chat, msgs, answer)
        ensures r.chat == chat && r.parent in msgs
      {
        if r !in ChatReplies(modules, chat, init, answer) {
          assert r in MessageReplies(modules, chat, msgs[|msgs| - 1], answer);
        }
      }
    }
  }

  /** The replies of each polled module of `chats`, in order. */
  function RoundReplies(modules: seq<ModuleData>, chats: seq<ModuleData>, read: nat -> Option<seq<MessageCtx>>, answer: Answer)
    : seq<seq<Reply>>
    decreases |chats|
  {
    if |chats| == 0 then []
    else
      var last := chats[|chats| - 1];
      RoundReplies(modules, chats[..|chats| - 1], read, answer) + [PolledReplies(modules, last.handle, read(last.handle), answer)]
  }

  /** One answer list per polled module, holding exactly the replies to what
      that module had to read. */
  lemma {:induction false} RoundRepliesEach(modules: seq<ModuleData>, chats: seq<ModuleData>, read: nat -> Option<seq<MessageCtx>>, answer: Answer)
    ensures |RoundReplies(modules, chats, read, answer)| == |chats|
    ensures forall k :: 0 <= k < |chats| ==>
      RoundReplies(modules, chats, read, answer)[k] == PolledReplies(modules, chats[k].handle, read(chats[k].handle), answer)
    decreases |chats|
  {
    if |chats| > 0 {
      var init := chats[..|chats| - 1];
      RoundRepliesEach(modules, init, read, answer);
      assert forall k :: 0 <= k < |init| ==> init[k] == chats[k];
    }
  }

  class Triggers {
    var triggerModules: seq<ModuleData>
    var chatModules: seq<ModuleData>

    constructor ()
      ensures triggerModules == [] && chatModules == []
    {
      triggerModules := [];
      chatModules := [];
    }

    /** `module_offering`: keep, in registry order, the modules to route to
        and the modules to poll. */
    method ModuleOffering(modules: seq<ModuleData>)
      modifies this
      ensures triggerModules == Filter(modules, IsTriggerModule)
      ensures chatModules == Filter(modules, IsChatModule)
    {
      var routed: seq<ModuleData> := [];
      var polled: seq<ModuleData> := [];
      for i := 0 to |modules|
        invariant routed == Filter(modules[..i], IsTriggerModule)
        invariant polled == Filter(modules[..i], IsChatModule)
      {
        assert modules[..i + 1] == modules[..i] + [modules[i]];
        FilterAppend(modules[..i], [modules[i]], IsTriggerModule);
        FilterAppend(modules[..i], [modules[i]], IsChatModule);
        if IsTriggerModule(modules[i]) {
          routed := routed + [modules[i]];
        }
        if IsChatModule(modules[i]) {
          polled := polled + [modules[i]];
        }
      }
      assert modules[..|modules|] == modules;
      triggerModules := routed;
      chatModules := polled;
    }

    /** The inner loop over one module's triggers. */
    static method TriggerLoop(m: ModuleData, ts: seq<string>, content: string, answer: Answer,
                              calls0: seq<nat>, responses0: seq<MessageResponse>)
      returns (calls: seq<nat>, responses: seq<MessageResponse>, hit: bool)
      requires responses0 == Responses(calls0, content, answer)
      ensures calls == calls0 + Repeat(m.handle, |MatchingTriggers(ts, content)|)
      ensures responses == Responses(calls, content, answer)
      ensures hit <==> |MatchingTriggers(ts, content)| > 0
    {
      calls, responses, hit := calls0, responses0, false;
      ghost var n := 0;
      for j := 0 to |ts|
        invariant n == |MatchingTriggers(ts[..j], content)|
        invariant calls == calls0 + Repeat(m.handle, n)
        invariant responses == Responses(calls, content, answer)
        invariant hit <==> n > 0
      {
        MatchingSnoc(ts, j, content);
        if Contains(content, ts[j]) {
          hit := true;
          ResponsesSnoc(calls, m.handle, content, answer);
          RepeatSnoc(calls0, m.handle, n);
          calls := calls + [m.handle];
          responses := responses + AnswerOf(answer, m.handle, content);
          n := n + 1;
        }
      }
      assert ts[..|ts|] == ts;
    }

    /** The first-pass body for one routed module. */
    static method ModuleStep(m: ModuleData, content: string, answer: Answer,
                             calls0: seq<nat>, responses0: seq<MessageResponse>)
      returns (calls: seq<nat>, responses: seq<MessageResponse>, hit: bool)
      requires responses0 == Responses(calls0, content, answer)
      ensures calls == calls0 + FirstPassCalls(m, content)
      ensures responses == Responses(calls, content, answer)
      ensures hit <==> MatchCount(m, content) > 0
    {
      calls, responses, hit := calls0, responses0, false;
      ghost var head: seq<nat> := [];
      if m.capabilities.catchAll {
        ResponsesSnoc(calls, m.handle, content, answer);
        calls := calls + [m.handle];
        responses := responses + AnswerOf(answer, m.handle, content);
        head := [m.handle];
      }
      assert calls == calls0 + head;
      assert FirstPassCalls(m, content) == head + Repeat(m.handle, MatchCount(m, content));
      match m.capabilities.triggers {
        case None =>
          assert calls == calls0 + (head + Repeat(m.handle, 0));
        case Some(ts) =>
          calls, responses, hit := TriggerLoop(m, ts, content, answer, calls, responses);
          assert calls == calls0 + (head + Repeat(m.handle, |MatchingTriggers(ts, content)|));
      }
    }

    /** The handling of one message in `run_chat_module`: the first pass over
        the routed modules, then the fallback pass when nothing was triggered.
        Returns the calls made and the responses collected. */
    method RunMessage(content: string, answer: Answer) returns (calls: seq<nat>, responses: seq<MessageResponse>)
      ensures calls == Calls(triggerModules, content)
      ensures responses == Responses(calls, content, answer)
    {
      var mods := triggerModules;
      calls, responses := [], [];
      var triggered := false;
      for i := 0 to |mods|
        invariant calls == FirstPass(mods[..i], content)
        invariant responses == Responses(calls, content, answer)
        invariant triggered == Triggered(mods[..i], content)
      {
        assert mods[..i + 1][..i] == mods[..i];
        var hit;
        calls, responses, hit := ModuleStep(mods[i], content, answer, calls, responses);
        triggered := triggered || hit;
      }
      assert mods[..|mods|] == mods;
      if !triggered {
        calls, responses := FallbackLoop(mods, content, answer, calls, responses);
      }
    }

    /** The second pass: every module that catches non-triggered messages. */
    static method FallbackLoop(mods: seq<ModuleData>, content: string, answer: Answer,
                               calls0: seq<nat>, responses0: seq<MessageResponse>)
      returns (calls: seq<nat>, responses: seq<MessageResponse>)
      requires responses0 == Responses(calls0, content, answer)
      ensures calls == calls0 + Fallback(mods)
      ensures responses == Responses(calls, content, answer)
    {
      calls, responses := calls0, responses0;
      for i := 0 to |mods|
        invariant calls == calls0 + Fallback(mods[..i])
        invariant responses == Responses(calls, content, answer)
      {
        var m := mods[i];
        assert mods[..i + 1][..i] == mods[..i];
        if m.capabilities.catchNonTriggered {
          ResponsesSnoc(calls, m.handle, content, answer);
          calls := calls + [m.handle];
          responses := responses + AnswerOf(answer, m.handle, content);
        }
      }
      assert mods[..|mods|] == mods;
    }

    /** `run_chat_module`: a chat module that has nothing to read
        (`read_message` gives `None`) gets no replies; otherwise each read
        message is routed, and every response becomes a reply that carries
        the original message as its parent. */
    method RunChatModule(chat: nat, unread: Option<seq<MessageCtx>>, answer: Answer) returns (replies: seq<Reply>)
      ensures unread.None? ==> replies == []
      ensures replies == PolledReplies(triggerModules, chat, unread, answer)
    {
      if unread.None? {
        return [];
      }
      var msgs := unread.value;
      replies := [];
      for i := 0 to |msgs|
        invariant replies == ChatReplies(triggerModules, chat, msgs[..i], answer)
      {
        var msg := msgs[i];
        var _, responses := RunMessage(msg.content, answer);
        var rs := RespondAll(chat, msg, responses);
        assert msgs[..i + 1][..i] == msgs[..i];
        replies := replies + rs;
      }
      assert msgs[..|msgs|] == msgs;
    }

    /** The `resp_message` loop for one message. */
    static method RespondAll(chat: nat, msg: MessageCtx, responses: seq<MessageResponse>) returns (rs: seq<Reply>)
      ensures rs == ToReplies(chat, msg, responses)
    {
      rs := [];
      for k := 0 to |responses|
        invariant |rs| == k
        invariant forall j :: 0 <= j < k ==> rs[j] == Reply(chat, msg, responses[j])
      {
        rs := rs + [Reply(chat, msg, responses[k])];
      }
    }

    /** `run`: every polled module in turn, with `read(h)` standing for what
        the chat module with handle `h` has to read; the router itself never
        posts messages. */
    method Run(read: nat -> Option<seq<MessageCtx>>, answer: Answer)
      returns (posted: Option<seq<Message>>, replies: seq<seq<Reply>>)
      ensures posted.None?
      ensures replies == RoundReplies(triggerModules, chatModules, read, answer)
    {
      var chats := chatModules;
      replies := [];
      for i := 0 to |chats|
        invariant replies == RoundReplies(triggerModules, chats[..i], read, answer)
      {
        var r := RunChatModule(chats[i].handle, read(chats[i].handle), answer);
        assert chats[..i + 1][..i] == chats[..i];
        replies := replies + [r];
      }
      assert chats[..|chats|] == chats;
      posted := None;
    }
  }

  /** A module with the single trigger `t` matches exactly the messages containing `t`. */
  lemma SingleTrigger(t: string, content: string)
    ensures MatchingTriggers([t], content) == if Contains(content, t) then [t] else []
  {
    assert [t][..0] == [];
  }

  /** Sample modules for the routing examples below: ping answers "/ping", a
      conversational module catches non-triggered messages, a spy catches
      everything. */
  function PingModule(): ModuleData { ModuleData(0, "ping", [100], [], TriggersOnly(["/ping"])) }
  function ChatModule(): ModuleData { ModuleData(1, "chat", [], [], DefaultCapabilities.(catchNonTriggered := true)) }
  function SpyModule(): ModuleData { ModuleData(2, "spy", [], [], DefaultCapabilities.(catchAll := true)) }

  lemma TwoModuleCalls(a: ModuleData, b: ModuleData, content: string)
    ensures FirstPass([a, b], content) == FirstPassCalls(a, content) + FirstPassCalls(b, content)
    ensures Fallback([a, b]) == (if a.capabilities.catchNonTriggered then [a.handle] else [])
      + (if b.capabilities.catchNonTriggered then [b.handle] else [])
    ensures Triggered([a, b], content) <==> MatchCount(a, content) > 0 || MatchCount(b, content) > 0
  {
    assert [a, b][..1] == [a];
    assert [a][..0] == [];
    assert FirstPass([a], content) == FirstPassCalls(a, content);
    assert FirstPass([a, b], content) == FirstPass([a], content) + FirstPassCalls(b, content);
    assert Fallback([a]) == (if a.capabilities.catchNonTriggered then [a.handle] else []);
    assert Triggered([a], content) <==> MatchCount(a, content) > 0;
  }

  /** A message with "/ping" in it reaches ping and not the fallback. */
  lemma PingIsTriggered()
    ensures Calls([PingModule(), ChatModule()], "/ping now") == [0]
  {
    var ping, chat, content := PingModule(), ChatModule(), "/ping now";
    assert "/ping" <= content;
    assert Contains(content, "/ping");
    SingleTrigger("/ping", content);
    assert MatchCount(ping, content) == 1;
    assert Repeat(0, 1) == [] + [0];
    assert FirstPassCalls(ping, content) == [0];
    assert FirstPassCalls(chat, content) == [];
    TwoModuleCalls(ping, chat, content);
  }

  /** Any other message reaches only the fallback. */
  lemma OtherMessagesFallBack()
    ensures Calls([PingModule(), ChatModule()], "hello") == [1]
  {
    NotContainsWithoutFirst("hello", "/ping");
    SingleTrigger("/ping", "hello");
    TwoModuleCalls(PingModule(), ChatModule(), "hello");
  }

  /** A catch-all module does not count as triggered: the fallback still runs after it. */
  lemma CatchAllIsNotTriggering()
    ensures Calls([SpyModule(), ChatModule()], "hello") == [2, 1]
  {
    TwoModuleCalls(SpyModule(), ChatModule(), "hello");
  }
}
