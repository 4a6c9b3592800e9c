/**
 Storing what a job produced (`persist_report_artifacts` and `persist_logs` in
 crates/application/src/execution.rs). The stores accept some number of writes and then fail.
 */
module JobOutputs {
  import opened Wrappers
  import opened Utf8
  import Text

  datatype Artifact = Artifact(name: string, contentType: string, bytes: seq<Byte>)

  datatype Metadata = Metadata(id: string, run: string, name: string, key: string, contentType: string, size: nat)

  datatype Object = Object(key: string, bytes: seq<Byte>)

  datatype Reason =
    | BlankKey | AbsoluteKey | BadSegment
    | BlankName | NotASingleName | BlankContentType

  const INLINE_LOG_LIMIT: nat := 64 * 1024

  // ---- Which artifacts a job may produce. ----

  /** The text between slashes; a text without one is its own only segment. */
  function Segments(text: string): (segments: seq<string>)
    ensures segments != []
    ensures |segments| == 1 <==> '/' !in text
    ensures '/' !in text ==> segments == [text]
  {
    if text == "" then [""]
    else
      var rest := Segments(text[1..]);
      assert text == [text[0]] + text[1..];
      if text[0] == '/' then [""] + rest else [[text[0]] + rest[0]] + rest[1..]
  }

  function CheckKey(key: string): Option<Reason> {
    if Text.Trim(key) == "" then Some(BlankKey)
    else if key[0] == '/' || key[|key| - 1] == '/' then Some(AbsoluteKey)
    else if exists segment :: segment in Segments(key) && (segment == "" || segment == "." || segment == "..")
      then Some(BadSegment)
    else None
  }

  function CheckMetadata(name: string, contentType: string): Option<Reason> {
    if Text.Trim(name) == "" then Some(BlankName)
    else if '/' in name || '\\' in name || name == "." || name == ".." then Some(NotASingleName)
    else if Text.Trim(contentType) == "" then Some(BlankContentType)
    else None
  }

  /** Why an artifact is refused: its object key is checked first, then its metadata. */
  function Rejection(artifact: Artifact): Option<Reason> {
    var badKey := CheckKey(artifact.name);
    if badKey.Some? then badKey else CheckMetadata(artifact.name, artifact.contentType)
  }

  /** An artifact is stored exactly when its name is one plain, non-blank file name and its type is not blank. */
  lemma AcceptedExactlyWhen(artifact: Artifact)
    ensures Rejection(artifact).None? <==>
      && Text.Trim(artifact.name) != "" && Text.Trim(artifact.contentType) != ""
      && '/' !in artifact.name && '\\' !in artifact.name && artifact.name != "." && artifact.name != ".."
  {
    var name := artifact.name;
    if '/' !in name {
      assert Segments(name) == [name];
    }
  }

  /** Which reason is given: the first that applies. */
  lemma RefusedExactlyWhen(artifact: Artifact)
    ensures var reason, name := Rejection(artifact), artifact.name;
            var blank, plain := Text.Trim(name) == "", '/' !in name && '\\' !in name && name != "." && name != "..";
            var absolute := name != "" && (name[0] == '/' || name[|name| - 1] == '/');
            var bad := exists segment :: segment in Segments(name) && (segment == "" || segment == "." || segment == "..");
            && (reason == Some(BlankKey) <==> blank)
            && (reason == Some(AbsoluteKey) <==> !blank && absolute)
            && (reason == Some(BadSegment) <==> !blank && !absolute && bad)
            && (reason == Some(NotASingleName) <==> !blank && !absolute && !bad && !plain)
            && (reason == Some(BlankContentType) <==> !blank && plain && Text.Trim(artifact.contentType) == "")
            && reason != Some(BlankName)
  {
    var name := artifact.name;
    if '/' !in name {
      assert Segments(name) == [name];
    }
    if name != "" {
      assert name[0] in name && name[|name| - 1] in name;
    }
  }

  function KeyOf(run: string, artifact: Artifact): string {
    "artifacts/" + run + "/" + artifact.name
  }

  function MetadataOf(run: string, artifact: Artifact): Metadata {
    Metadata("artifact_" + run + "_" + artifact.name, run, artifact.name, KeyOf(run, artifact),
             artifact.contentType, |artifact.bytes|)
  }

  lemma SplitsAtLast(a: string, x: string, b: string, y: string, separator: char)
    requires separator !in x && separator !in y && a + [separator] + x == b + [separator] + y
    ensures a == b && x == y
  {
    var left, right := a + [separator] + x, b + [separator] + y;
    assert left[|a|] == separator && right[|b|] == separator;
    assert forall i :: |a| < i < |left| ==> left[i] == x[i - |a| - 1];
    assert forall i :: |b| < i < |right| ==> right[i] == y[i - |b| - 1];
    assert |a| == |b|;
    assert left[..|a|] == a && right[..|b|] == b && left[|a| + 1..] == x && right[|b| + 1..] == y;
  }

  /** Accepted artifacts of different runs or names never share an object. */
  lemma KeysAreDistinct(run: string, artifact: Artifact, other: string, otherArtifact: Artifact)
    requires Rejection(artifact).None? && Rejection(otherArtifact).None?
    ensures KeyOf(run, artifact) == KeyOf(other, otherArtifact) <==> run == other && artifact.name == otherArtifact.name
  {
    AcceptedExactlyWhen(artifact);
    AcceptedExactlyWhen(otherArtifact);
    var prefix := "artifacts/";
    var mine, theirs := run + "/" + artifact.name, other + "/" + otherArtifact.name;
    assert KeyOf(run, artifact) == prefix + mine && KeyOf(other, otherArtifact) == prefix + theirs;
    assert (prefix + mine)[|prefix|..] == mine && (prefix + theirs)[|prefix|..] == theirs;
    if mine == theirs {
      SplitsAtLast(run, artifact.name, other, otherArtifact.name, '/');
    }
  }

  /** The same id read two ways: one run's name goes on past an '_' that the other's artifact name gives back. */
  predicate Shifts(run: string, name: string, other: string, otherName: string) {
    && |run| < |other|
    && var x := other[|run| + 1..];
       other == run + "_" + x && name == x + "_" + otherName
  }

  lemma SplitShifts(run: string, name: string, other: string, otherName: string)
    requires run + "_" + name == other + "_" + otherName && |run| <= |other|
    ensures (run == other && name == otherName) || Shifts(run, name, other, otherName)
  {
    var whole := run + "_" + name;
    assert whole[..|run|] == run && whole[..|other|] == other && whole[|run|] == '_' && whole[|other|] == '_';
    assert whole[|run| + 1..] == name && whole[|other| + 1..] == otherName;
    if |run| < |other| {
      var x := other[|run| + 1..];
      assert other == run + "_" + x && name == x + "_" + otherName;
    }
  }

  /** Ids are joined with '_', which both parts may contain: two artifacts share one exactly when they are the same or their names shift. */
  lemma IdsCollideExactlyWhen(run: string, artifact: Artifact, other: string, otherArtifact: Artifact)
    ensures MetadataOf(run, artifact).id == MetadataOf(other, otherArtifact).id <==>
      || (run == other && artifact.name == otherArtifact.name)
      || Shifts(run, artifact.name, other, otherArtifact.name)
      || Shifts(other, otherArtifact.name, run, artifact.name)
  {
    var prefix := "artifact_";
    var mine, theirs := run + "_" + artifact.name, other + "_" + otherArtifact.name;
    assert MetadataOf(run, artifact).id == prefix + mine && MetadataOf(other, otherArtifact).id == prefix + theirs;
    assert (prefix + mine)[|prefix|..] == mine && (prefix + theirs)[|prefix|..] == theirs;
    if mine == theirs {
      if |run| <= |other| {
        SplitShifts(run, artifact.name, other, otherArtifact.name);
      } else {
        SplitShifts(other, otherArtifact.name, run, artifact.name);
      }
    }
  }

  /** Two runs whose accepted artifacts get one id. */
  lemma TwoRunsShareAnId(bytes: seq<Byte>)
    ensures var one, two := Artifact("b_c", "t", bytes), Artifact("c", "t", bytes);
            && Rejection(one).None? && Rejection(two).None?
            && MetadataOf("a", one).id == MetadataOf("a_b", two).id
  {
    var one, two := Artifact("b_c", "t", bytes), Artifact("c", "t", bytes);
    assert Text.Trim("b_c") == "b_c" && Text.Trim("c") == "c" && Text.Trim("t") == "t";
    AcceptedExactlyWhen(one);
    AcceptedExactlyWhen(two);
    assert "a_b"[1 + 1..] == "b" && "a" + "_" + "b" == "a_b" && "b" + "_" + "c" == "b_c";
    IdsCollideExactlyWhen("a", one, "a_b", two);
  }

  /** An artifact's metadata: its run, name, type and size, and where its bytes are. */
  lemma MetadataSays(run: string, artifact: Artifact)
    ensures var m := MetadataOf(run, artifact);
            && m.run == run && m.name == artifact.name && m.contentType == artifact.contentType
            && m.size == |artifact.bytes| && m.key == KeyOf(run, artifact)
  {
  }

  function ObjectsOf(run: string, artifacts: seq<Artifact>): (objects: seq<Object>)
    ensures |objects| == |artifacts|
  {
    seq(|artifacts|, i requires 0 <= i < |artifacts| => Object(KeyOf(run, artifacts[i]), artifacts[i].bytes))
  }

  function MetadataFor(run: string, artifacts: seq<Artifact>): (metadata: seq<Metadata>)
    ensures |metadata| == |artifacts|
  {
    seq(|artifacts|, i requires 0 <= i < |artifacts| => MetadataOf(run, artifacts[i]))
  }

  lemma OneMore(run: string, artifacts: seq<Artifact>, i: nat)
    requires i < |artifacts|
    ensures ObjectsOf(run, artifacts[..i + 1]) ==
      ObjectsOf(run, artifacts[..i]) + [Object(KeyOf(run, artifacts[i]), artifacts[i].bytes)]
    ensures MetadataFor(run, artifacts[..i + 1]) == MetadataFor(run, artifacts[..i]) + [MetadataOf(run, artifacts[i])]
    ensures MetadataOf(run, artifacts[i]).key == KeyOf(run, artifacts[i])
  {
  }

  lemma NothingYet(run: string, artifacts: seq<Artifact>)
    ensures ObjectsOf(run, artifacts[..0]) == [] && MetadataFor(run, artifacts[..0]) == []
  {
  }

  /** The first artifact that is refused, or the end. */
  function FirstRejected(artifacts: seq<Artifact>): (r: nat)
    ensures r <= |artifacts|
    ensures forall i :: 0 <= i < r ==> Rejection(artifacts[i]).None?
    ensures r < |artifacts| ==> Rejection(artifacts[r]).Some?
  {
    if artifacts == [] || Rejection(artifacts[0]).Some? then 0
    else
      assert forall i :: 0 <= i < |artifacts| - 1 ==> artifacts[1..][i] == artifacts[i + 1];
      1 + FirstRejected(artifacts[1..])
  }

  datatype Failure = ObjectStoreFailed | StoreFailed | EmptyLog

  class Stores {
    /** Objects and metadata in the order they were written. */
    var objects: seq<Object>
    var metadata: seq<Metadata>
    var inlineLog: Option<seq<Byte>>
    var patience: nat

    constructor (patience: nat)
      ensures objects == [] && metadata == [] && inlineLog.None? && this.patience == patience
    {
      objects, metadata, inlineLog, this.patience := [], [], None, patience;
    }

    method PutObject(key: string, bytes: seq<Byte>) returns (ok: bool)
      modifies this`objects, this`patience
      ensures objects == if ok then old(objects) + [Object(key, bytes)] else old(objects)
      ensures ok <==> old(patience) > 0
      ensures patience == if ok then old(patience) - 1 else 0
    {
      ok := patience > 0;
      if ok {
        objects, patience := objects + [Object(key, bytes)], patience - 1;
      }
    }

    method SaveMetadata(saved: Metadata) returns (ok: bool)
      modifies this`metadata, this`patience
      ensures metadata == if ok then old(metadata) + [saved] else old(metadata)
      ensures ok <==> old(patience) > 0
      ensures patience == if ok then old(patience) - 1 else 0
    {
      ok := patience > 0;
      if ok {
        metadata, patience := metadata + [saved], patience - 1;
      }
    }

    method SaveLog(text: seq<Byte>) returns (ok: bool)
      modifies this`inlineLog, this`patience
      ensures inlineLog == if ok then Some(text) else old(inlineLog)
      ensures ok <==> old(patience) > 0
      ensures patience == if ok then old(patience) - 1 else 0
    {
      ok := patience > 0;
      if ok {
        inlineLog, patience := Some(text), patience - 1;
      }
    }

    /** Exactly these artifacts were stored since: so many objects, so many rows of metadata, in order. */
    ghost predicate Stored(
      run: string, artifacts: seq<Artifact>, written: nat, rows: nat, objectsBefore: seq<Object>,
      metadataBefore: seq<Metadata>)
      requires written <= |artifacts| && rows <= |artifacts|
      reads this
    {
      && objects == objectsBefore + ObjectsOf(run, artifacts[..written])
      && metadata == metadataBefore + MetadataFor(run, artifacts[..rows])
    }

    /**
     Stores artifacts up to the first one the domain refuses, each object before its metadata. It fails
     exactly when the stores accept fewer writes than that takes, with the error of the store that refused,
     and what was written until then stays.
     */
    method PersistArtifacts(run: string, artifacts: seq<Artifact>) returns (rejected: Result<Option<Reason>, Failure>)
      modifies this`objects, this`metadata, this`patience
      ensures var r, n := FirstRejected(artifacts), old(patience);
              if n >= 2 * r then
                && rejected == Ok(if r < |artifacts| then Rejection(artifacts[r]) else None)
                && Stored(run, artifacts, r, r, old(objects), old(metadata))
              else
                && rejected == Err(if n % 2 == 0 then ObjectStoreFailed else StoreFailed)
                && Stored(run, artifacts, (n + 1) / 2, n / 2, old(objects), old(metadata))
    {
      hide Rejection, KeyOf, MetadataOf, ObjectsOf, MetadataFor;
      NothingYet(run, artifacts);
      for i := 0 to |artifacts|
        invariant i <= FirstRejected(artifacts) && 2 * i <= old(patience) && patience == old(patience) - 2 * i
        invariant Stored(run, artifacts, i, i, old(objects), old(metadata))
      {
        OneMore(run, artifacts, i);
        var reason := Rejection(artifacts[i]);
        if reason.Some? {
          return Ok(reason);
        }
        var failed := PersistOne(run, artifacts[i]);
        if failed.Some? {
          return Err(failed.value);
        }
      }
      return Ok(None);
    }

    /** Stores one accepted artifact: its object first, then its metadata. */
    method PersistOne(run: string, artifact: Artifact) returns (failed: Option<Failure>)
      modifies this`objects, this`metadata, this`patience
      ensures var n := old(patience);
              && failed == (if n == 0 then Some(ObjectStoreFailed) else if n == 1 then Some(StoreFailed) else None)
              && objects == old(objects) + (if n == 0 then [] else [Object(KeyOf(run, artifact), artifact.bytes)])
              && metadata == old(metadata) + (if n < 2 then [] else [MetadataOf(run, artifact)])
              && patience == (if n < 2 then 0 else n - 2)
    {
      var saved := MetadataOf(run, artifact);
      var ok := PutObject(saved.key, artifact.bytes);
      if !ok {
        return Some(ObjectStoreFailed);
      }
      ok := SaveMetadata(saved);
      if !ok {
        return Some(StoreFailed);
      }
      return None;
    }

    /**
     Stores a log: a bounded inline part, and the whole text as an object when it does not fit. An empty log
     is not stored; any other leaves its full text inline or in the object store unless a store refuses, and
     the refusal says which write it was.
     */
    method PersistLog(run: string, bytes: seq<Byte>, ghost text: seq<Scalar>) returns (failed: Option<Failure>)
      requires bytes == Encode(text)
      modifies this
      ensures var n, fits := old(patience), |bytes| <= INLINE_LOG_LIMIT;
              && failed == (if bytes == [] then None
                            else if n == 0 then Some(StoreFailed)
                            else if fits then None
                            else if n == 1 then Some(ObjectStoreFailed)
                            else if n == 2 then Some(StoreFailed)
                            else None)
              && inlineLog == (if bytes == [] || n == 0 then old(inlineLog)
                               else Some(Encode(text[..Fitting(text, INLINE_LOG_LIMIT)])))
              && (fits && bytes != [] && n > 0 ==> inlineLog == Some(bytes))
              && objects == old(objects)
                 + (if fits || n < 2 then [] else [Object("logs/" + run + "/stdout.log", bytes)])
              && metadata == old(metadata)
                 + (if fits || n < 3 then []
                    else [Metadata("log_" + run + "_stdout", run, "stdout.log", "logs/" + run + "/stdout.log",
                                   "text/plain", |bytes|)])
    {
      if bytes == [] {
        return None;
      }
      var inline := Truncate(bytes, INLINE_LOG_LIMIT, text);
      FittingIsLongest(text, INLINE_LOG_LIMIT);
      if inline == [] {
        FirstFits(text);
        return Some(EmptyLog);
      }
      var ok := SaveLog(inline);
      if !ok {
        return Some(StoreFailed);
      }
      if |bytes| <= INLINE_LOG_LIMIT {
        assert text[..|text|] == text;
        return None;
      }
      var key := "logs/" + run + "/stdout.log";
      ok := PutObject(key, bytes);
      if !ok {
        return Some(ObjectStoreFailed);
      }
      ok := SaveMetadata(Metadata("log_" + run + "_stdout", run, "stdout.log", key, "text/plain", |bytes|));
      if !ok {
        return Some(StoreFailed);
      }
      return None;
    }
  }

  /** The first character of a log always fits inline. */
  lemma FirstFits(text: seq<Scalar>)
    requires text != []
    ensures Fitting(text, INLINE_LOG_LIMIT) > 0 && Encode(text[..Fitting(text, INLINE_LOG_LIMIT)]) != []
  {
    var k := Fitting(text, INLINE_LOG_LIMIT);
    assert text[..k][0] == text[0];
  }

  /** A worker renews its lease three times before it runs out, as seldom as whole seconds allow, or every second. */
  function HeartbeatSeconds(leaseSeconds: int): (seconds: Option<nat>)
    ensures seconds.None? <==> leaseSeconds <= 0
    ensures seconds.Some? ==> 1 <= seconds.value <= leaseSeconds && (3 * seconds.value <= leaseSeconds || seconds.value == 1)
    ensures seconds.Some? ==> leaseSeconds < 3 * (seconds.value + 1)
  {
    if leaseSeconds <= 0 then None else if leaseSeconds < 3 then Some(1) else Some(leaseSeconds / 3)
  }
}
