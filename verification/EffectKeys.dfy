/**
 When two effects of one run present the same key (`key_for` in crates/runtime/src/effect.rs). Keys join
 names with ':', which names may contain, and a run-scoped key does not name its node.
 */
module EffectKeys {
  import opened Wrappers
  import opened Identifiers
  import opened IR = Definition
  import opened RunEffects
  import opened RunProtocol
  import Text

  /** Where an effect's key comes from; `None` for an effect without one. */
  function SourceOf(config: Config, node: Identifier, effect: Identifier): Option<KeySource> {
    if !HasKey(config, node, effect) then None
    else ParseKeySource(RunProtocol.EffectOf(config, node, effect).value.idempotency.keySource)
  }

  /** The part of a key after the run's name. */
  function Tail(source: KeySource, node: Identifier, effect: Identifier): string {
    match source
    case PerRun => effect
    case PerNode => node + ":" + effect
    case PerAttempt => node + ":" + effect + ":0"
  }

  lemma KeyIsTail(config: Config, node: Identifier, effect: Identifier)
    requires SourceOf(config, node, effect).Some?
    ensures TheKey(config, node, effect) ==
      Some("capsulet:" + config.run + ":" + Tail(SourceOf(config, node, effect).value, node, effect))
  {
    var source := SourceOf(config, node, effect).value;
    var prefix := "capsulet:" + config.run + ":";
    assert Text.Decimal(0) == "0";
    assert KeyFor(source, config.run, node, effect, 0) == prefix + Tail(source, node, effect);
  }

  /** One name pair reads as the other once the separator inside a name is moved. */
  predicate Shifts(node: string, effect: string, other: string, otherEffect: string) {
    && |node| < |other|
    && var x := other[|node| + 1..];
       other == node + ":" + x && effect == x + ":" + otherEffect
  }

  predicate ReadsAs(node: string, effect: string, other: string, otherEffect: string) {
    || (node == other && effect == otherEffect)
    || Shifts(node, effect, other, otherEffect)
    || Shifts(other, otherEffect, node, effect)
  }

  lemma SplitAtSeparator(a: string, b: string, c: string, d: string)
    requires a + ":" + b == c + ":" + d && |a| <= |c|
    ensures (a == c && b == d) || Shifts(a, b, c, d)
  {
    var whole := a + ":" + b;
    assert whole[..|a|] == a && whole[..|c|] == c;
    assert whole[|a|] == ':' && whole[|c|] == ':' && whole[|a| + 1..] == b && whole[|c| + 1..] == d;
    if |a| < |c| {
      var x := c[|a| + 1..];
      assert c == a + ":" + x;
      assert b == x + ":" + d;
    }
  }

  lemma JoinedExactlyWhen(a: string, b: string, c: string, d: string)
    ensures a + ":" + b == c + ":" + d <==> ReadsAs(a, b, c, d)
  {
    if a + ":" + b == c + ":" + d {
      if |a| <= |c| {
        SplitAtSeparator(a, b, c, d);
      } else {
        SplitAtSeparator(c, d, a, b);
      }
    }
  }

  /** When two effects share a key, in terms of their declared sources and names alone. */
  predicate Collide(
    source: KeySource, node: Identifier, effect: Identifier,
    other: KeySource, otherNode: Identifier, otherEffect: Identifier)
  {
    match (source, other)
    case (PerRun, PerRun) => effect == otherEffect
    case (PerRun, PerNode) => effect == otherNode + ":" + otherEffect
    case (PerRun, PerAttempt) => effect == otherNode + ":" + otherEffect + ":0"
    case (PerNode, PerRun) => otherEffect == node + ":" + effect
    case (PerAttempt, PerRun) => otherEffect == node + ":" + effect + ":0"
    case (PerNode, PerNode) => ReadsAs(node, effect, otherNode, otherEffect)
    case (PerAttempt, PerAttempt) => ReadsAs(node, effect, otherNode, otherEffect)
    case (PerNode, PerAttempt) => ReadsAs(node, effect, otherNode, otherEffect + ":0")
    case (PerAttempt, PerNode) => ReadsAs(node, effect + ":0", otherNode, otherEffect)
  }

  lemma TailsCollideExactlyWhen(
    source: KeySource, node: Identifier, effect: Identifier,
    other: KeySource, otherNode: Identifier, otherEffect: Identifier)
    ensures Tail(source, node, effect) == Tail(other, otherNode, otherEffect) <==>
      Collide(source, node, effect, other, otherNode, otherEffect)
  {
    hide ReadsAs;
    JoinedExactlyWhen(node, effect, otherNode, otherEffect);
    JoinedExactlyWhen(node, effect, otherNode, otherEffect + ":0");
    JoinedExactlyWhen(node, effect + ":0", otherNode, otherEffect);
    assert node + ":" + effect + ":0" == node + ":" + (effect + ":0");
    assert otherNode + ":" + otherEffect + ":0" == otherNode + ":" + (otherEffect + ":0");
    SameEnding(node + ":" + effect, otherNode + ":" + otherEffect, ":0");
  }

  lemma SameEnding(a: string, b: string, end: string)
    ensures a + end == b + end <==> a == b
  {
    if a + end == b + end {
      assert (a + end)[..|a|] == a && (b + end)[..|b|] == b;
    }
  }

  /** Two keyed effects of a run share their key exactly when their sources and names collide. */
  lemma KeysCollideExactlyWhen(
    config: Config, node: Identifier, effect: Identifier, otherNode: Identifier, otherEffect: Identifier)
    requires SourceOf(config, node, effect).Some? && SourceOf(config, otherNode, otherEffect).Some?
    ensures TheKey(config, node, effect) == TheKey(config, otherNode, otherEffect) <==>
      Collide(SourceOf(config, node, effect).value, node, effect,
              SourceOf(config, otherNode, otherEffect).value, otherNode, otherEffect)
  {
    hide Collide, Tail;
    KeyIsTail(config, node, effect);
    KeyIsTail(config, otherNode, otherEffect);
    var prefix := "capsulet:" + config.run + ":";
    var mine := Tail(SourceOf(config, node, effect).value, node, effect);
    var theirs := Tail(SourceOf(config, otherNode, otherEffect).value, otherNode, otherEffect);
    assert (prefix + mine)[|prefix|..] == mine && (prefix + theirs)[|prefix|..] == theirs;
    TailsCollideExactlyWhen(SourceOf(config, node, effect).value, node, effect,
                            SourceOf(config, otherNode, otherEffect).value, otherNode, otherEffect);
  }

  lemma NotReadAs(node: string, effect: string, other: string, otherEffect: string)
    requires ':' !in node && ':' !in other
    ensures ReadsAs(node, effect, other, otherEffect) <==> node == other && effect == otherEffect
  {
    ShiftNeedsSeparator(node, effect, other, otherEffect);
    ShiftNeedsSeparator(other, otherEffect, node, effect);
  }

  lemma ShiftNeedsSeparator(node: string, effect: string, other: string, otherEffect: string)
    ensures Shifts(node, effect, other, otherEffect) ==> ':' in other
  {
    if Shifts(node, effect, other, otherEffect) {
      assert (node + ":" + other[|node| + 1..])[|node|] == ':';
    }
  }

  lemma JoinedHasSeparator(node: string, effect: string)
    ensures ':' in node + ":" + effect && ':' in node + ":" + effect + ":0" && ':' in effect + ":0"
  {
    assert (node + ":" + effect)[|node|] == ':' && (node + ":" + effect + ":0")[|node|] == ':';
    assert (effect + ":0")[|effect|] == ':';
  }

  /** With no ':' in any name, keys are shared exactly by the same effect, or by equal names of run-scoped ones. */
  lemma PlainNamesCollideExactlyWhen(
    config: Config, node: Identifier, effect: Identifier, otherNode: Identifier, otherEffect: Identifier)
    requires SourceOf(config, node, effect).Some? && SourceOf(config, otherNode, otherEffect).Some?
    requires ':' !in node && ':' !in effect && ':' !in otherNode && ':' !in otherEffect
    ensures TheKey(config, node, effect) == TheKey(config, otherNode, otherEffect) <==>
      && SourceOf(config, node, effect) == SourceOf(config, otherNode, otherEffect)
      && effect == otherEffect
      && (SourceOf(config, node, effect) == Some(PerRun) || node == otherNode)
  {
    KeysCollideExactlyWhen(config, node, effect, otherNode, otherEffect);
    hide ReadsAs, SourceOf, TheKey;
    NotReadAs(node, effect, otherNode, otherEffect);
    NotReadAs(node, effect, otherNode, otherEffect + ":0");
    NotReadAs(node, effect + ":0", otherNode, otherEffect);
    JoinedHasSeparator(node, effect);
    JoinedHasSeparator(otherNode, otherEffect);
  }

  // ---- Effects that share a key. ----

  function Publishing(node: Identifier, effect: Identifier, keySource: string): Node {
    Node(node, EffectNode, [IR.Effect(effect, Keyed(keySource), Irreversible)], 0)
  }

  function Two(first: Node, second: Node): Config {
    Config("r", IR.Definition(Graph([first, second], [], []), 0))
  }

  lemma SourcesOfTwo(
    node: Identifier, effect: Identifier, keySource: string, other: Identifier, otherEffect: Identifier, otherSource: string)
    requires node != other
    ensures var config := Two(Publishing(node, effect, keySource), Publishing(other, otherEffect, otherSource));
            SourceOf(config, node, effect) == ParseKeySource(keySource)
            && SourceOf(config, other, otherEffect) == ParseKeySource(otherSource)
  {
    var nodes := [Publishing(node, effect, keySource), Publishing(other, otherEffect, otherSource)];
    assert nodes[1..] == [nodes[1]];
  }

  /**
   Three pairs of different effects that share a key: a run-scoped effect on two nodes, a run-scoped
   effect named like a node-scoped one, and two node-scoped effects whose names split differently.
   */
  lemma DifferentEffectsShareKeys()
    ensures var config := Two(Publishing("a", "e", "run_id"), Publishing("b", "e", "run_id"));
            TheKey(config, "a", "e").Some? && TheKey(config, "a", "e") == TheKey(config, "b", "e")
    ensures var config := Two(Publishing("m", "n:e", "run_id"), Publishing("n", "e", "run_id+node_id"));
            TheKey(config, "m", "n:e").Some? && TheKey(config, "m", "n:e") == TheKey(config, "n", "e")
    ensures var config := Two(Publishing("a", "b:c", "run_id+node_id"), Publishing("a:b", "c", "run_id+node_id"));
            TheKey(config, "a", "b:c").Some? && TheKey(config, "a", "b:c") == TheKey(config, "a:b", "c")
  {
    assert ParseKeySource("run_id") == Some(PerRun) && ParseKeySource("run_id+node_id") == Some(PerNode);
    hide ParseKeySource;
    SourcesOfTwo("a", "e", "run_id", "b", "e", "run_id");
    SourcesOfTwo("m", "n:e", "run_id", "n", "e", "run_id+node_id");
    SourcesOfTwo("a", "b:c", "run_id+node_id", "a:b", "c", "run_id+node_id");
    assert "n" + ":" + "e" == "n:e" && "a:b"[1 + 1..] == "b" && "b" + ":" + "c" == "b:c";
    hide TheKey, SourceOf;
    var one := Two(Publishing("a", "e", "run_id"), Publishing("b", "e", "run_id"));
    KeysCollideExactlyWhen(one, "a", "e", "b", "e");
    KeyIsTail(one, "a", "e");
    var two := Two(Publishing("m", "n:e", "run_id"), Publishing("n", "e", "run_id+node_id"));
    KeysCollideExactlyWhen(two, "m", "n:e", "n", "e");
    KeyIsTail(two, "m", "n:e");
    var three := Two(Publishing("a", "b:c", "run_id+node_id"), Publishing("a:b", "c", "run_id+node_id"));
    assert Shifts("a", "b:c", "a:b", "c");
    KeysCollideExactlyWhen(three, "a", "b:c", "a:b", "c");
    KeyIsTail(three, "a", "b:c");
  }
}
