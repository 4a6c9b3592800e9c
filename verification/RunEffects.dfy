/** Effect attempts and the keys they present (crates/runtime/src/effect.rs). */
module RunEffects {
  import opened Wrappers
  import opened Identifiers
  import opened Definition
  import opened RunEvents
  import opened RunStates
  import Text

  datatype KeySource = PerRun | PerNode | PerAttempt

  function ParseKeySource(declared: string): Option<KeySource> {
    var source := Text.Trim(declared);
    if source == "run_id" then Some(PerRun)
    else if source == "run_id+node_id" then Some(PerNode)
    else if source == "run_id+node_id+attempt" then Some(PerAttempt)
    else None
  }

  function KeyFor(source: KeySource, run: string, node: Identifier, effect: Identifier, attempt: nat): string {
    match source
    case PerRun => "capsulet:" + run + ":" + effect
    case PerNode => "capsulet:" + run + ":" + node + ":" + effect
    case PerAttempt => "capsulet:" + run + ":" + node + ":" + effect + ":" + Text.Decimal(attempt)
  }

  datatype EffectAttempt = EffectAttempt(
    node: Identifier, effect: Identifier, attempt: nat, key: Option<string>)
  {
    function Claimed(): RunEvent {
      EffectClaimed(node, effect, attempt, key)
    }

    function Finalized(receipt: Digest): RunEvent {
      EffectFinalized(node, effect, attempt, receipt)
    }

    function Abandoned(refusal: string): RunEvent {
      EffectAbandoned(node, effect, attempt, refusal)
    }
  }

  /** A fresh attempt with the key its effect asks for; `None` when the declared source is not one of the three. */
  function Claim(declared: Effect, run: string, node: Identifier, attempt: nat): Option<EffectAttempt> {
    match declared.idempotency
    case Idempotent => Some(EffectAttempt(node, declared.id, attempt, None))
    case NonIdempotent => Some(EffectAttempt(node, declared.id, attempt, None))
    case Keyed(keySource) =>
      match ParseKeySource(keySource)
      case None => None
      case Some(source) =>
        Some(EffectAttempt(node, declared.id, attempt, Some(KeyFor(source, run, node, declared.id, attempt))))
  }

  /** The attempt a dead worker made, rebuilt from its claim. */
  function Recovered(claim: OutstandingEffect, attempt: nat): EffectAttempt {
    EffectAttempt(claim.node, claim.effect, attempt, claim.key)
  }
}
