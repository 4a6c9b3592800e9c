/**
 What a completed run reports (`outputs` in crates/runtime/src/state.rs): every node's outputs in one map,
 each under its node's name, a dot and its port. Both names may contain dots; where two outputs get the
 same key, the node that comes last in order keeps it.
 */
module RunResults {
  import opened Identifiers
  import opened RunEvents

  type Finished = map<Identifier, Outputs>

  function Key(node: Identifier, port: string): string {
    node + "." + port
  }

  predicate IsOutput(finished: Finished, node: Identifier, port: string) {
    node in finished && port in finished[node]
  }

  function Keys(finished: Finished): set<string> {
    set node, port | node in finished && port in finished[node] :: Key(node, port)
  }

  /** The node's output under a key, read back from the key. */
  predicate Produces(finished: Finished, node: Identifier, key: string) {
    && |node| < |key| && key[..|node|] == node && key[|node|] == '.'
    && IsOutput(finished, node, key[|node| + 1..])
  }

  function Producers(finished: Finished, key: string): set<Identifier> {
    set node | node in finished && Produces(finished, node, key)
  }

  lemma KeyReadsBack(finished: Finished, node: Identifier, port: string)
    requires IsOutput(finished, node, port)
    ensures var key := Key(node, port); key[|node| + 1..] == port && Produces(finished, node, key)
  {
  }

  lemma ProducerHasKey(finished: Finished, node: Identifier, key: string)
    requires Produces(finished, node, key)
    ensures key == Key(node, key[|node| + 1..])
  {
    assert key == key[..|node|] + [key[|node|]] + key[|node| + 1..];
  }

  lemma SomebodyProduces(finished: Finished, key: string)
    requires key in Keys(finished)
    ensures Producers(finished, key) != {}
  {
    var node, port :| IsOutput(finished, node, port) && key == Key(node, port);
    KeyReadsBack(finished, node, port);
    assert node in Producers(finished, key);
  }

  /** The output reported under a key: that of the last node in order that produces it. */
  function Reported(finished: Finished, key: string): Digest
    requires key in Keys(finished)
  {
    SomebodyProduces(finished, key);
    var node := Last(Producers(finished, key));
    finished[node][key[|node| + 1..]]
  }

  function Flattened(finished: Finished): map<string, Digest> {
    map key | key in Keys(finished) :: Reported(finished, key)
  }

  // ---- When everything is reported. ----

  ghost predicate AllReported(finished: Finished, results: map<string, Digest>) {
    forall node, port :: IsOutput(finished, node, port) ==>
      Key(node, port) in results && results[Key(node, port)] == finished[node][port]
  }

  /** Two different outputs whose names read alike once joined: the dots fall differently. */
  predicate Clash(finished: Finished, node: Identifier, port: string, other: Identifier, otherPort: string) {
    && IsOutput(finished, node, port) && IsOutput(finished, other, otherPort)
    && |node| < |other|
    && (var x := other[|node| + 1..]; other == node + "." + x && port == x + "." + otherPort)
    && finished[node][port] != finished[other][otherPort]
  }

  lemma JoinedAlike(node: Identifier, port: string, other: Identifier, otherPort: string)
    requires Key(node, port) == Key(other, otherPort) && |node| < |other|
    ensures var x := other[|node| + 1..]; other == node + "." + x && port == x + "." + otherPort
  {
    var whole := Key(node, port);
    var x := other[|node| + 1..];
    assert whole[..|node|] == node && whole[..|other|] == other && whole[|node|] == '.' && whole[|other|] == '.';
    assert whole[|node| + 1..] == port && whole[|other| + 1..] == otherPort;
    assert other == node + "." + x;
    assert port == x + "." + otherPort;
  }

  lemma JoinedSame(node: Identifier, port: string, other: Identifier, otherPort: string)
    requires Key(node, port) == Key(other, otherPort) && |node| == |other|
    ensures node == other && port == otherPort
  {
    var whole := Key(node, port);
    assert whole[..|node|] == node && whole[..|other|] == other;
    assert whole[|node| + 1..] == port && whole[|other| + 1..] == otherPort;
  }

  /** What is reported under a key is the output of some node with that key. */
  lemma ReportedIsAnOutput(finished: Finished, key: string) returns (node: Identifier, port: string)
    requires key in Keys(finished)
    ensures IsOutput(finished, node, port) && Key(node, port) == key
    ensures Flattened(finished)[key] == finished[node][port]
  {
    SomebodyProduces(finished, key);
    node := Last(Producers(finished, key));
    port := key[|node| + 1..];
    ProducerHasKey(finished, node, key);
  }

  lemma ClashLoses(finished: Finished, node: Identifier, port: string, other: Identifier, otherPort: string)
    requires Clash(finished, node, port, other, otherPort)
    ensures !AllReported(finished, Flattened(finished))
  {
    assert Key(node, port) == Key(other, otherPort);
  }

  /** A completed run reports every output of every node exactly when no two different outputs clash. */
  lemma EverythingReportedExactlyWhen(finished: Finished)
    ensures AllReported(finished, Flattened(finished)) <==>
      forall node, port, other, otherPort :: !Clash(finished, node, port, other, otherPort)
    ensures Flattened(finished).Keys == Keys(finished)
  {
    var results := Flattened(finished);
    if node, port, other, otherPort :| Clash(finished, node, port, other, otherPort) {
      ClashLoses(finished, node, port, other, otherPort);
    }
    if forall node, port, other, otherPort :: !Clash(finished, node, port, other, otherPort) {
      forall node, port | IsOutput(finished, node, port)
        ensures Key(node, port) in results && results[Key(node, port)] == finished[node][port]
      {
        var key := Key(node, port);
        assert key in Keys(finished);
        var other, otherPort := ReportedIsAnOutput(finished, key);
        if |node| < |other| {
          JoinedAlike(node, port, other, otherPort);
          assert !Clash(finished, node, port, other, otherPort);
        } else if |other| < |node| {
          JoinedAlike(other, otherPort, node, port);
          assert !Clash(finished, other, otherPort, node, port);
        } else {
          JoinedSame(node, port, other, otherPort);
        }
      }
    }
  }

  /** Two nodes whose outputs get one key: the second in order is reported, the first is lost. */
  lemma OneOutputIsLost()
    ensures var finished := map["a" := map["b.c" := "1"], "a.b" := map["c" := "2"]];
            Flattened(finished) == map["a.b.c" := "2"] && !AllReported(finished, Flattened(finished))
  {
    var finished: Finished := map["a" := map["b.c" := "1"], "a.b" := map["c" := "2"]];
    assert Key("a", "b.c") == "a.b.c" && Key("a.b", "c") == "a.b.c";
    assert IsOutput(finished, "a", "b.c") && IsOutput(finished, "a.b", "c");
    assert Keys(finished) == {"a.b.c"};
    KeyReadsBack(finished, "a", "b.c");
    KeyReadsBack(finished, "a.b", "c");
    assert Producers(finished, "a.b.c") == {"a", "a.b"};
    assert Precedes("a", "a.b") && !Precedes("a.b", "a");
    assert Last({"a", "a.b"}) == "a.b";
    assert "a.b.c"[4..] == "c";
    assert Flattened(finished)["a.b.c"] == "2";
    assert IsOutput(finished, "a", "b.c") && finished["a"]["b.c"] == "1";
  }
}
