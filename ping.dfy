/** The ping module (src/ping.rs): "/ping" is answered with "pong". */
module Ping {
  import opened Common
  import opened Bot

  const NAME: string := "ping"

  /** One variation, which does nothing. */
  const VARIATION_DURATIONS: seq<nat> := [100]

  /** Only the "/ping" trigger. */
  const CAPABILITIES: Capabilities := TriggersOnly(["/ping"])

  /** `trigger`: whatever the message, the single answer "pong". */
  function Trigger(message: string): (r: Option<seq<string>>)
    ensures r.Some? && r.value == ["pong"]
  {
    Some(["pong"])
  }

  /** `run` never says anything. */
  function Run(variation: nat): (r: Option<seq<string>>)
    ensures r.None?
  {
    None
  }

  /** `read_message`: ping reads no chat. */
  function ReadMessage(): (r: Option<seq<MessageCtx>>)
    ensures r.None?
  {
    None
  }

  /** Ping declares its one trigger and takes no other part in routing. */
  lemma CapabilitiesExactly()
    ensures CAPABILITIES.triggers == Some(["/ping"])
    ensures !CAPABILITIES.catchNonTriggered && !CAPABILITIES.catchAll
    ensures !CAPABILITIES.sendMessage && !CAPABILITIES.readMessage && !CAPABILITIES.respMessage
  {
  }
}
