/**
 Reviewing candidate claims and recording disagreements (`review_claim` and `detect_claim_conflicts` in
 crates/api/src/ingestion.rs). One scope; entity resolutions stay fixed. A claim listing holds the 500
 most recently updated claims, as crates/postgres/src/memory.rs orders them.
 */
module Claims {
  import opened Wrappers
  import opened Identifiers
  import Text

  type ClaimId = string

  datatype Status = Candidate | Active | Rejected | Superseded | Contradicted | Expired

  datatype Fact = Fact(subject: string, relation: string, value: string)

  datatype Conflict = Conflict(
    subject: string, canonical: Option<string>, relation: string, first: ClaimId, second: ClaimId)

  /** `recent` lists every claim, the most recently updated first. */
  datatype Memory = Memory(
    facts: map<ClaimId, Fact>, status: map<ClaimId, Status>, recent: seq<ClaimId>, conflicts: map<string, Conflict>)

  type Resolver = string -> Option<string>

  const LISTING_LIMIT: nat := 500

  function Listing(recent: seq<ClaimId>): seq<ClaimId> {
    if |recent| > LISTING_LIMIT then recent[..LISTING_LIMIT] else recent
  }

  /** Every claim has a status and is listed, and one listing shows them all. */
  ghost predicate Valid(m: Memory) {
    && (forall id :: id in m.recent <==> id in m.facts)
    && (forall id :: id in m.facts <==> id in m.status)
    && |m.recent| <= LISTING_LIMIT
  }

  // ---- Canonical entities. ----

  datatype Resolution = Resolution(entity: string, canonical: string, rejected: bool)

  /** The canonical entity of the first listed resolution of a subject that was not rejected. */
  function CanonicalOf(resolutions: seq<Resolution>, subject: string): (canonical: Option<string>)
    ensures canonical.None? <==> forall r :: r in resolutions ==> r.entity != subject || r.rejected
    ensures canonical.Some? ==>
      exists i :: (
        && 0 <= i < |resolutions| && resolutions[i] == Resolution(subject, canonical.value, false)
        && forall j :: 0 <= j < i ==> resolutions[j].entity != subject || resolutions[j].rejected)
  {
    if resolutions == [] then None
    else if resolutions[0].entity == subject && !resolutions[0].rejected then Some(resolutions[0].canonical)
    else
      assert forall i :: 0 <= i < |resolutions| - 1 ==> resolutions[1..][i] == resolutions[i + 1];
      CanonicalOf(resolutions[1..], subject)
  }

  // ---- Names of conflicts. ----

  function SafeChar(c: char): char {
    if 'a' <= c <= 'z' || '0' <= c <= '9' then c
    else if 'A' <= c <= 'Z' then (c as int + 32) as char
    else '_'
  }

  function SafePart(text: string): (safe: string)
    ensures |safe| == |text|
  {
    seq(|text|, i requires 0 <= i < |text| => SafeChar(text[i]))
  }

  /** The two claims in order, so that a pair has one name whichever is reviewed last. */
  function Ordered(a: ClaimId, b: ClaimId): (ClaimId, ClaimId) {
    if Precedes(a, b) then (a, b) else (b, a)
  }

  function ConflictName(fact: Fact, a: ClaimId, b: ClaimId): string {
    var pair := Ordered(a, b);
    "conflict_" + SafePart(fact.subject) + "_" + SafePart(fact.relation) + "_" + SafePart(pair.0 + "_" + pair.1)
  }

  function ConflictOf(resolve: Resolver, fact: Fact, a: ClaimId, b: ClaimId): Conflict {
    var pair := Ordered(a, b);
    Conflict(fact.subject, resolve(fact.subject), fact.relation, pair.0, pair.1)
  }

  /** Same subject and predicate, different value. */
  predicate Disagree(facts: map<ClaimId, Fact>, a: ClaimId, b: ClaimId) {
    && a in facts && b in facts && a != b
    && facts[a].subject == facts[b].subject && facts[a].relation == facts[b].relation
    && facts[a].value != facts[b].value
  }

  /** A record names its two claims in order, and the subject's canonical entity. */
  lemma ConflictNamesBothClaims(resolve: Resolver, fact: Fact, a: ClaimId, b: ClaimId)
    ensures var conflict := ConflictOf(resolve, fact, a, b);
            && Precedes(conflict.first, conflict.second)
            && multiset{conflict.first, conflict.second} == multiset{a, b}
            && conflict.subject == fact.subject && conflict.relation == fact.relation
            && conflict.canonical == resolve(conflict.subject)
  {
    PrecedesIsTotal(a, b);
  }

  lemma OrderedIsSymmetric(a: ClaimId, b: ClaimId)
    ensures Ordered(a, b) == Ordered(b, a)
  {
    PrecedesIsTotal(a, b);
    if Precedes(a, b) && Precedes(b, a) {
      PrecedesIsAntisymmetric(a, b);
    }
  }

  // ---- Reviewing. ----

  predicate Hits(m: Memory, reviewed: ClaimId, existing: ClaimId) {
    && reviewed in m.facts && existing in m.facts && existing in m.status
    && m.status[existing].Active?
    && Disagree(m.facts, existing, reviewed)
  }

  /** The conflicts once every claim of a listing was compared with the reviewed one, in order. */
  function Recorded(resolve: Resolver, m: Memory, reviewed: ClaimId, listing: seq<ClaimId>): map<string, Conflict>
    requires reviewed in m.facts
  {
    if listing == [] then m.conflicts
    else
      var before := Recorded(resolve, m, reviewed, listing[..|listing| - 1]);
      var existing := listing[|listing| - 1];
      if !Hits(m, reviewed, existing) then before
      else before[ConflictName(m.facts[reviewed], existing, reviewed) :=
                  ConflictOf(resolve, m.facts[reviewed], existing, reviewed)]
  }

  function Without(ids: seq<ClaimId>, id: ClaimId): (rest: seq<ClaimId>)
    ensures forall other :: other in rest <==> other in ids && other != id
    ensures |rest| <= |ids|
    ensures id in ids ==> |rest| < |ids|
  {
    if ids == [] then []
    else
      assert ids == [ids[0]] + ids[1..];
      var rest := Without(ids[1..], id);
      if ids[0] == id then rest else [ids[0]] + rest
  }

  function WithStatus(m: Memory, id: ClaimId, status: Status): Memory {
    m.(status := m.status[id := status], recent := [id] + Without(m.recent, id))
  }

  function Approved(resolve: Resolver, m: Memory, id: ClaimId): Memory
    requires id in m.facts
  {
    var updated := WithStatus(m, id, Active);
    updated.(conflicts := Recorded(resolve, updated, id, Listing(updated.recent)))
  }

  /** Recording a conflict changes no claim. */
  lemma SameHits(m: Memory, n: Memory, reviewed: ClaimId, existing: ClaimId)
    requires m.facts == n.facts && m.status == n.status
    ensures Hits(m, reviewed, existing) <==> Hits(n, reviewed, existing)
  {
  }

  datatype ReviewError = NotFound | NotAwaitingReview

  class MemoryStore {
    var memory: Memory

    constructor (memory: Memory)
      ensures this.memory == memory
    {
      this.memory := memory;
    }

    /** Compares the reviewed claim with every claim listed and records each disagreement. */
    method DetectConflicts(resolve: Resolver, reviewed: ClaimId)
      requires reviewed in memory.facts
      modifies this
      ensures memory == old(memory).(conflicts := Recorded(resolve, old(memory), reviewed, Listing(old(memory).recent)))
    {
      hide ConflictName, ConflictOf, Hits, Listing;
      var listing := Listing(memory.recent);
      for i := 0 to |listing|
        invariant memory == old(memory).(conflicts := Recorded(resolve, old(memory), reviewed, listing[..i]))
      {
        assert listing[..i + 1][..i] == listing[..i];
        var existing := listing[i];
        SameHits(memory, old(memory), reviewed, existing);
        if Hits(memory, reviewed, existing) {
          var fact := memory.facts[reviewed];
          memory := memory.(conflicts := memory.conflicts[ConflictName(fact, existing, reviewed) :=
                                                          ConflictOf(resolve, fact, existing, reviewed)]);
        }
      }
      assert listing[..|listing|] == listing;
    }

    method ReviewClaim(resolve: Resolver, id: ClaimId, next: Status) returns (error: Option<ReviewError>)
      requires forall each :: each in memory.facts <==> each in memory.status
      modifies this
      ensures error == Some(NotFound) <==> id !in old(memory).facts
      ensures error == Some(NotAwaitingReview) <==> id in old(memory).facts && !old(memory).status[id].Candidate?
      ensures error.Some? ==> memory == old(memory)
      ensures error.None? ==>
        memory == if next.Active? then Approved(resolve, old(memory), id) else WithStatus(old(memory), id, next)
    {
      if id !in memory.facts {
        return Some(NotFound);
      }
      if !memory.status[id].Candidate? {
        return Some(NotAwaitingReview);
      }
      memory := WithStatus(memory, id, next);
      if next.Active? {
        DetectConflicts(resolve, id);
      }
      return None;
    }
  }

  // ---- What one approval records. ----

  /** Exactly the disagreements with listed active claims; names held before stay. */
  lemma {:induction false} RecordedNames(
    resolve: Resolver, m: Memory, reviewed: ClaimId, listing: seq<ClaimId>, name: string)
    requires reviewed in m.facts
    ensures name in Recorded(resolve, m, reviewed, listing) <==>
      || name in m.conflicts
      || exists existing :: existing in listing && Hits(m, reviewed, existing)
                            && ConflictName(m.facts[reviewed], existing, reviewed) == name
  {
    if listing != [] {
      var before, last := listing[..|listing| - 1], listing[|listing| - 1];
      assert listing == before + [last];
      RecordedNames(resolve, m, reviewed, before, name);
      assert forall each :: each in listing <==> each in before || each == last;
    }
  }

  /** The row under a name is the one before, or that of a disagreement recorded under it. */
  lemma {:induction false} RecordedRows(
    resolve: Resolver, m: Memory, reviewed: ClaimId, listing: seq<ClaimId>, name: string)
    requires reviewed in m.facts && name in Recorded(resolve, m, reviewed, listing)
    ensures var row := Recorded(resolve, m, reviewed, listing)[name];
            || (&& name in m.conflicts && row == m.conflicts[name]
                && forall existing :: existing in listing && Hits(m, reviewed, existing) ==>
                     ConflictName(m.facts[reviewed], existing, reviewed) != name)
            || exists existing :: existing in listing && Hits(m, reviewed, existing)
                                  && ConflictName(m.facts[reviewed], existing, reviewed) == name
                                  && row == ConflictOf(resolve, m.facts[reviewed], existing, reviewed)
  {
    if listing != [] {
      var before, last := listing[..|listing| - 1], listing[|listing| - 1];
      assert listing == before + [last];
      assert forall each :: each in listing <==> each in before || each == last;
      if !(Hits(m, reviewed, last) && ConflictName(m.facts[reviewed], last, reviewed) == name) {
        RecordedRows(resolve, m, reviewed, before, name);
      }
    }
  }

  // ---- Approving a batch. ----

  /** The batch approved one claim at a time, first to last. */
  function ApproveAll(resolve: Resolver, m: Memory, batch: seq<ClaimId>): (after: Memory)
    requires forall id :: id in batch ==> id in m.facts
    ensures after.facts == m.facts
  {
    if batch == [] then m
    else
      assert forall id :: id in batch[..|batch| - 1] ==> id in batch;
      Approved(resolve, ApproveAll(resolve, m, batch[..|batch| - 1]), batch[|batch| - 1])
  }

  /** A disagreeing pair that is active afterwards, with a member approved in the batch. */
  ghost predicate Pair(m: Memory, batch: seq<ClaimId>, a: ClaimId, b: ClaimId) {
    && a in m.facts && b in m.facts && a != b
    && m.facts[a].subject == m.facts[b].subject && m.facts[a].relation == m.facts[b].relation
    && m.facts[a].value != m.facts[b].value
    && a in batch && (b in batch || (b in m.status && m.status[b].Active?))
  }

  ghost predicate Named(m: Memory, batch: seq<ClaimId>, a: ClaimId, b: ClaimId, name: string) {
    Pair(m, batch, a, b) && ConflictName(m.facts[a], a, b) == name
  }

  /** Some pair of the batch goes by this name. */
  ghost predicate Claimed(m: Memory, batch: seq<ClaimId>, name: string) {
    exists a, b :: Named(m, batch, a, b, name)
  }

  /** A row is the one from before when no pair claims its name, and otherwise that of a pair claiming it. */
  ghost predicate RowOk(resolve: Resolver, m: Memory, batch: seq<ClaimId>, name: string, row: Conflict) {
    if Claimed(m, batch, name)
    then exists a, b :: Named(m, batch, a, b, name) && row == ConflictOf(resolve, m.facts[a], a, b)
    else name in m.conflicts && row == m.conflicts[name]
  }

  ghost predicate StatusesAfter(m: Memory, batch: seq<ClaimId>, after: Memory) {
    && Valid(after) && after.facts == m.facts
    && forall id :: id in m.facts ==> id in m.status && after.status[id] == if id in batch then Active else m.status[id]
  }

  /** A name is in use when it was before or a pair claims it, and then its row is in order. */
  ghost predicate NameOk(resolve: Resolver, m: Memory, batch: seq<ClaimId>, after: Memory, name: string) {
    && (name in after.conflicts <==> name in m.conflicts || Claimed(m, batch, name))
    && (name in after.conflicts ==> RowOk(resolve, m, batch, name, after.conflicts[name]))
  }

  /** What a batch does, apart from how colliding names are settled. */
  ghost predicate BatchRecorded(resolve: Resolver, m: Memory, batch: seq<ClaimId>, after: Memory) {
    StatusesAfter(m, batch, after) && forall name :: NameOk(resolve, m, batch, after, name)
  }

  /** Approving one more claim hits exactly its partners among those active by then. */
  lemma HitsAreNewPairs(m: Memory, before: seq<ClaimId>, after: Memory, id: ClaimId, existing: ClaimId)
    requires after.facts == m.facts && id in m.facts && Valid(m)
    requires forall other :: other in m.facts ==>
      other in after.status && after.status[other] == if other in before + [id] then Active else m.status[other]
    ensures Hits(after, id, existing) <==> Pair(m, before + [id], id, existing)
  {
  }

  /** The pairs of a longer batch: those of the shorter one, and those of the claim added. */
  lemma PairsOfOneMore(m: Memory, before: seq<ClaimId>, id: ClaimId, a: ClaimId, b: ClaimId, name: string)
    ensures Named(m, before, a, b, name) ==> Named(m, before + [id], a, b, name)
    ensures Named(m, before + [id], a, b, name) ==>
      Named(m, before, a, b, name) || a == id || (b == id && Named(m, before + [id], id, a, name))
  {
    OrderedIsSymmetric(a, b);
  }

  lemma ApprovalKeepsListing(m: Memory, id: ClaimId, status: Status)
    requires Valid(m) && id in m.facts
    ensures Valid(WithStatus(m, id, status))
  {
  }

  /** The names an approval adds are those of the new pairs. */
  lemma NamesOfOneMore(resolve: Resolver, m: Memory, before: seq<ClaimId>, mid: Memory, id: ClaimId, name: string)
    requires Valid(m) && BatchRecorded(resolve, m, before, mid) && id in m.facts
    ensures var updated := WithStatus(mid, id, Active);
            (exists existing :: existing in updated.recent && Hits(updated, id, existing)
                                && ConflictName(m.facts[id], existing, id) == name) <==>
            (exists b :: Named(m, before + [id], id, b, name))
  {
    var updated := WithStatus(mid, id, Active);
    ApprovalKeepsListing(mid, id, Active);
    hide ConflictName, Ordered;
    if existing :| existing in updated.recent && Hits(updated, id, existing)
                   && ConflictName(m.facts[id], existing, id) == name {
      HitsAreNewPairs(m, before, updated, id, existing);
      SameName(m.facts[id], existing, id);
      assert Named(m, before + [id], id, existing, name);
    }
    if b :| Named(m, before + [id], id, b, name) {
      HitsAreNewPairs(m, before, updated, id, b);
      SameName(m.facts[id], b, id);
      assert b in updated.recent;
    }
  }

  lemma SameName(fact: Fact, a: ClaimId, b: ClaimId)
    ensures ConflictName(fact, a, b) == ConflictName(fact, b, a)
  {
    OrderedIsSymmetric(a, b);
  }

  lemma SameConflict(resolve: Resolver, fact: Fact, a: ClaimId, b: ClaimId)
    ensures ConflictOf(resolve, fact, a, b) == ConflictOf(resolve, fact, b, a)
  {
    OrderedIsSymmetric(a, b);
  }

  lemma OneMoreNames(resolve: Resolver, m: Memory, before: seq<ClaimId>, mid: Memory, id: ClaimId, name: string)
    requires Valid(m) && BatchRecorded(resolve, m, before, mid) && id in m.facts
    ensures name in Approved(resolve, mid, id).conflicts <==>
      name in m.conflicts || Claimed(m, before + [id], name)
  {
    var updated := WithStatus(mid, id, Active);
    ApprovalKeepsListing(mid, id, Active);
    hide ConflictName, Named, Valid, Hits;
    assert NameOk(resolve, m, before, mid, name);
    RecordedNames(resolve, updated, id, updated.recent, name);
    NamesOfOneMore(resolve, m, before, mid, id, name);
    ListsAll(updated.recent);
    if a, b :| Named(m, before + [id], a, b, name) {
      PairsOfOneMore(m, before, id, a, b, name);
    }
    if a, b :| Named(m, before, a, b, name) {
      PairsOfOneMore(m, before, id, a, b, name);
    }
  }

  lemma ListsAll(recent: seq<ClaimId>)
    ensures |recent| <= LISTING_LIMIT ==> Listing(recent) == recent
  {
  }

  lemma OneMoreRows(resolve: Resolver, m: Memory, before: seq<ClaimId>, mid: Memory, id: ClaimId, name: string)
    requires Valid(m) && BatchRecorded(resolve, m, before, mid) && id in m.facts
    requires name in Approved(resolve, mid, id).conflicts
    ensures RowOk(resolve, m, before + [id], name, Approved(resolve, mid, id).conflicts[name])
  {
    var updated := WithStatus(mid, id, Active);
    ApprovalKeepsListing(mid, id, Active);
    ListsAll(updated.recent);
    RecordedRows(resolve, updated, id, updated.recent, name);
    NamesOfOneMore(resolve, m, before, mid, id, name);
    hide ConflictName, Valid, Named, ConflictOf;
    var row := Approved(resolve, mid, id).conflicts[name];
    if existing :| existing in updated.recent && Hits(updated, id, existing)
                   && ConflictName(m.facts[id], existing, id) == name
                   && row == ConflictOf(resolve, m.facts[id], existing, id) {
      NewRow(resolve, m, before, updated, id, existing, name);
    } else {
      assert NameOk(resolve, m, before, mid, name);
      OldRow(resolve, m, before, id, name, row);
    }
  }

  lemma OldRow(resolve: Resolver, m: Memory, before: seq<ClaimId>, id: ClaimId, name: string, row: Conflict)
    requires RowOk(resolve, m, before, name, row)
    requires forall b :: !Named(m, before + [id], id, b, name)
    ensures RowOk(resolve, m, before + [id], name, row)
  {
    hide ConflictName, ConflictOf;
    if Claimed(m, before, name) {
      var a, b :| Named(m, before, a, b, name) && row == ConflictOf(resolve, m.facts[a], a, b);
      PairsOfOneMore(m, before, id, a, b, name);
    } else {
      forall a, b
        ensures !Named(m, before + [id], a, b, name)
      {
        PairsOfOneMore(m, before, id, a, b, name);
      }
    }
  }

  lemma NewRow(
    resolve: Resolver, m: Memory, before: seq<ClaimId>, updated: Memory, id: ClaimId, existing: ClaimId, name: string)
    requires updated.facts == m.facts && id in m.facts && Valid(m)
    requires forall other :: other in m.facts ==>
      other in updated.status && updated.status[other] == if other in before + [id] then Active else m.status[other]
    requires Hits(updated, id, existing) && ConflictName(m.facts[id], existing, id) == name
    ensures Named(m, before + [id], id, existing, name)
    ensures ConflictOf(resolve, m.facts[id], existing, id) == ConflictOf(resolve, m.facts[id], id, existing)
  {
    HitsAreNewPairs(m, before, updated, id, existing);
    SameName(m.facts[id], existing, id);
    SameConflict(resolve, m.facts[id], existing, id);
  }

  lemma NothingRecorded(resolve: Resolver, m: Memory)
    requires Valid(m)
    ensures BatchRecorded(resolve, m, [], m)
  {
    hide ConflictName, ConflictOf;
    assert forall name :: !Claimed(m, [], name);
  }

  lemma OneMoreRecorded(resolve: Resolver, m: Memory, before: seq<ClaimId>, mid: Memory, id: ClaimId)
    requires Valid(m) && BatchRecorded(resolve, m, before, mid) && id in m.facts
    ensures BatchRecorded(resolve, m, before + [id], Approved(resolve, mid, id))
  {
    var after := Approved(resolve, mid, id);
    StatusesOfOneMore(resolve, m, before, mid, id);
    hide NameOk, StatusesAfter, Approved, Valid;
    forall name
      ensures NameOk(resolve, m, before + [id], after, name)
    {
      OneMoreName(resolve, m, before, mid, id, name);
    }
  }

  lemma OneMoreName(resolve: Resolver, m: Memory, before: seq<ClaimId>, mid: Memory, id: ClaimId, name: string)
    requires Valid(m) && BatchRecorded(resolve, m, before, mid) && id in m.facts
    ensures NameOk(resolve, m, before + [id], Approved(resolve, mid, id), name)
  {
    OneMoreNames(resolve, m, before, mid, id, name);
    if name in Approved(resolve, mid, id).conflicts {
      OneMoreRows(resolve, m, before, mid, id, name);
    }
    hide Claimed, RowOk, StatusesAfter, Approved, Valid;
  }

  /** Approving a batch, one claim at a time. */
  lemma {:induction false} BatchIsRecorded(resolve: Resolver, m: Memory, batch: seq<ClaimId>)
    requires Valid(m) && forall id :: id in batch ==> id in m.facts
    ensures BatchRecorded(resolve, m, batch, ApproveAll(resolve, m, batch))
  {
    hide BatchRecorded, Valid, Approved;
    if batch == [] {
      NothingRecorded(resolve, m);
    } else {
      var before, id := batch[..|batch| - 1], batch[|batch| - 1];
      assert batch == before + [id];
      BatchIsRecorded(resolve, m, before);
      OneMoreRecorded(resolve, m, before, ApproveAll(resolve, m, before), id);
    }
  }

  lemma StatusesOfOneMore(resolve: Resolver, m: Memory, before: seq<ClaimId>, mid: Memory, id: ClaimId)
    requires StatusesAfter(m, before, mid) && id in m.facts
    ensures StatusesAfter(m, before + [id], Approved(resolve, mid, id))
  {
    ApprovalKeepsListing(mid, id, Active);
  }

  /** No two different pairs of the batch share a name. */
  ghost predicate NamesDistinct(m: Memory, batch: seq<ClaimId>) {
    forall a, b, c, d, name :: Named(m, batch, a, b, name) && Named(m, batch, c, d, name) ==> Ordered(a, b) == Ordered(c, d)
  }

  /** Every disagreeing active pair with a member approved in the batch has its own record. */
  ghost predicate EachPairHasItsRecord(resolve: Resolver, m: Memory, batch: seq<ClaimId>, after: Memory) {
    forall a, b, name :: Named(m, batch, a, b, name) ==>
      name in after.conflicts && after.conflicts[name] == ConflictOf(resolve, m.facts[a], a, b)
  }

  /** With distinct names, only one row is possible under a name. */
  lemma RowIsDetermined(resolve: Resolver, m: Memory, batch: seq<ClaimId>, name: string, row: Conflict, a: ClaimId, b: ClaimId)
    requires NamesDistinct(m, batch) && RowOk(resolve, m, batch, name, row) && Named(m, batch, a, b, name)
    ensures row == ConflictOf(resolve, m.facts[a], a, b)
  {
    assert Claimed(m, batch, name);
    var c, d :| Named(m, batch, c, d, name) && row == ConflictOf(resolve, m.facts[c], c, d);
    assert Ordered(a, b) == Ordered(c, d);
    SamePairSameFact(m, batch, a, b, c, d, name);
  }

  lemma OwnRecordsNeedDistinctNames(resolve: Resolver, m: Memory, batch: seq<ClaimId>, after: Memory)
    requires EachPairHasItsRecord(resolve, m, batch, after)
    ensures NamesDistinct(m, batch)
  {
    hide ConflictName;
    forall a, b, c, d, name | Named(m, batch, a, b, name) && Named(m, batch, c, d, name)
      ensures Ordered(a, b) == Ordered(c, d)
    {
      assert after.conflicts[name] == ConflictOf(resolve, m.facts[a], a, b);
      assert after.conflicts[name] == ConflictOf(resolve, m.facts[c], c, d);
    }
  }

  /**
   Each such pair ends with its own record exactly when no two of them share a name; nothing else is
   recorded, and other records stay as they were.
   */
  lemma PairsAreRecordedExactlyWhen(resolve: Resolver, m: Memory, batch: seq<ClaimId>)
    requires Valid(m) && forall id :: id in batch ==> id in m.facts
    ensures var after := ApproveAll(resolve, m, batch);
            && (EachPairHasItsRecord(resolve, m, batch, after) <==> NamesDistinct(m, batch))
            && BatchRecorded(resolve, m, batch, after)
  {
    BatchIsRecorded(resolve, m, batch);
    var after := ApproveAll(resolve, m, batch);
    hide Valid, Named, RowOk, NamesDistinct, StatusesAfter, ConflictOf;
    if NamesDistinct(m, batch) {
      forall a, b, name | Named(m, batch, a, b, name)
        ensures name in after.conflicts && after.conflicts[name] == ConflictOf(resolve, m.facts[a], a, b)
      {
        assert NameOk(resolve, m, batch, after, name);
        assert Claimed(m, batch, name);
        RowIsDetermined(resolve, m, batch, name, after.conflicts[name], a, b);
      }
    }
    if EachPairHasItsRecord(resolve, m, batch, after) {
      OwnRecordsNeedDistinctNames(resolve, m, batch, after);
    }
  }

  lemma SamePairSameFact(
    m: Memory, batch: seq<ClaimId>, a: ClaimId, b: ClaimId, c: ClaimId, d: ClaimId, name: string)
    requires Named(m, batch, a, b, name) && Named(m, batch, c, d, name) && Ordered(a, b) == Ordered(c, d)
    ensures m.facts[a].subject == m.facts[c].subject && m.facts[a].relation == m.facts[c].relation
  {
  }

  /** With distinct names, the conflicts a batch leaves do not depend on the order of approval. */
  lemma ApprovalOrderDoesNotMatter(resolve: Resolver, m: Memory, batch: seq<ClaimId>, other: seq<ClaimId>)
    requires Valid(m) && forall id :: id in batch ==> id in m.facts
    requires forall id :: id in batch <==> id in other
    requires NamesDistinct(m, batch)
    ensures ApproveAll(resolve, m, batch).conflicts == ApproveAll(resolve, m, other).conflicts
  {
    var one, two := ApproveAll(resolve, m, batch), ApproveAll(resolve, m, other);
    BatchIsRecorded(resolve, m, batch);
    BatchIsRecorded(resolve, m, other);
    hide StatusesAfter, Valid, RowOk, Claimed, NamesDistinct;
    forall name
      ensures name in one.conflicts <==> name in two.conflicts
      ensures name in one.conflicts ==> one.conflicts[name] == two.conflicts[name]
    {
      OnlyMembershipMatters(m, batch, other, name);
      assert NameOk(resolve, m, batch, one, name) && NameOk(resolve, m, other, two, name);
      if name in one.conflicts {
        SameRow(resolve, m, batch, other, name, one.conflicts[name], two.conflicts[name]);
      }
    }
  }

  lemma OnlyMembershipMatters(m: Memory, batch: seq<ClaimId>, other: seq<ClaimId>, name: string)
    requires forall id :: id in batch <==> id in other
    ensures forall a, b :: Named(m, batch, a, b, name) <==> Named(m, other, a, b, name)
    ensures Claimed(m, batch, name) <==> Claimed(m, other, name)
  {
  }

  lemma SameRow(
    resolve: Resolver, m: Memory, batch: seq<ClaimId>, other: seq<ClaimId>, name: string, row: Conflict, row': Conflict)
    requires forall id :: id in batch <==> id in other
    requires NamesDistinct(m, batch) && RowOk(resolve, m, batch, name, row) && RowOk(resolve, m, other, name, row')
    ensures row == row'
  {
    OnlyMembershipMatters(m, batch, other, name);
    if Claimed(m, other, name) {
      hide Named, ConflictOf, NamesDistinct;
      var a, b :| Named(m, other, a, b, name) && row' == ConflictOf(resolve, m.facts[a], a, b);
      RowIsDetermined(resolve, m, batch, name, row, a, b);
    }
  }

  /** A conflict is named after its subject, its relation and its claims in order. */
  lemma NamedAfterItsParts()
    ensures ConflictName(Fact("S-1", "Is", "x"), "b", "a") == "conflict_s_1_is_a_b"
  {
    assert Precedes("a", "b") && !Precedes("b", "a");
    assert SafePart("S-1") == "s_1" && SafePart("Is") == "is";
    assert "a" + "_" + "b" == "a_b" && SafePart("a_b") == "a_b";
    assert "conflict_" + "s_1" + "_" + "is" + "_" + "a_b" == "conflict_s_1_is_a_b";
  }

  // ---- Names that collide. ----

  const FACTS: map<ClaimId, Fact> := map["c-1" := Fact("s", "p", "x"), "c_1" := Fact("s", "p", "x"), "d" := Fact("s", "p", "y")]

  /** Three candidates; two of their names differ only in a character that is replaced. */
  const THREE := Memory(
    FACTS, map["c-1" := Candidate, "c_1" := Candidate, "d" := Candidate], ["c-1", "c_1", "d"], map[])

  lemma TwoPairsShareAName()
    ensures Ordered("c-1", "d") == ("c-1", "d") && Ordered("c_1", "d") == ("c_1", "d")
    ensures ConflictName(FACTS["c-1"], "c-1", "d") == ConflictName(FACTS["c_1"], "c_1", "d")
  {
    assert Precedes("c-1", "d") && Precedes("c_1", "d");
    assert "c-1" + "_" + "d" == "c-1_d" && "c_1" + "_" + "d" == "c_1_d";
    assert SafePart("c-1_d") == "c_1_d" && SafePart("c_1_d") == "c_1_d";
  }

  /** One of two conflicts is lost, whatever the order of approval. */
  lemma CollidingNamesLoseAConflict(resolve: Resolver, batch: seq<ClaimId>)
    requires forall id :: id in batch <==> id in FACTS
    ensures !EachPairHasItsRecord(resolve, THREE, batch, ApproveAll(resolve, THREE, batch))
  {
    TwoPairsShareAName();
    var name := ConflictName(FACTS["c-1"], "c-1", "d");
    assert Named(THREE, batch, "c-1", "d", name);
    assert Named(THREE, batch, "c_1", "d", name);
    PairsAreRecordedExactlyWhen(resolve, THREE, batch);
  }

  // ---- The listing's limit. ----

  /** A disagreement is recorded on approval exactly when the other claim is among the listed ones. */
  lemma OnlyListedClaimsAreCompared(resolve: Resolver, m: Memory, id: ClaimId, name: string)
    requires id in m.facts && name !in m.conflicts
    ensures var updated := WithStatus(m, id, Active);
            name in Approved(resolve, m, id).conflicts <==>
              exists existing :: existing in Listing(updated.recent) && Hits(updated, id, existing)
                                 && ConflictName(m.facts[id], existing, id) == name
  {
    var updated := WithStatus(m, id, Active);
    RecordedNames(resolve, updated, id, Listing(updated.recent), name);
  }

  /** So many claims about something else. */
  function Filler(n: nat): (ids: seq<ClaimId>)
    ensures |ids| == n
    ensures forall i :: 0 <= i < n ==> ids[i] == Text.Decimal(i)
  {
    seq(n, i requires 0 <= i < n => Text.Decimal(i))
  }

  function FactOf(id: ClaimId): Fact {
    if id == "new" then Fact("s", "p", "x") else if id == "old" then Fact("s", "p", "y") else Fact("t", "p", "z")
  }

  /** An active claim last updated before `n` others, and a candidate that contradicts it. */
  function Crowded(n: nat): (m: Memory)
    ensures "new" in m.facts && "old" in m.facts && m.facts.Keys == m.status.Keys
    ensures m.recent == ["new"] + (Filler(n) + ["old"])
    ensures forall id :: id in m.facts ==> m.facts[id] == FactOf(id)
    ensures m.status["new"].Candidate? && m.status["old"].Active? && m.conflicts == map[]
  {
    var recent := ["new"] + (Filler(n) + ["old"]);
    assert recent[0] == "new" && recent[|recent| - 1] == "old";
    Memory(map id | id in recent :: FactOf(id),
           map id | id in recent :: if id == "new" then Candidate else Active,
           recent, map[])
  }

  lemma FillerIsNumeric(n: nat, id: ClaimId)
    requires id in Filler(n)
    ensures id != "new" && id != "old"
  {
    var i :| 0 <= i < n && id == Filler(n)[i];
    assert '0' <= Text.Decimal(i)[0] <= '9';
  }

  /** The claims of that memory are all different. */
  lemma CrowdedIsProper(n: nat)
    ensures var recent := Crowded(n).recent; forall i, j :: 0 <= i < j < |recent| ==> recent[i] != recent[j]
  {
    hide Crowded;
    var recent, filler := Crowded(n).recent, Filler(n);
    assert forall i :: 0 < i < |recent| - 1 ==> recent[i] == filler[i - 1] && filler[i - 1] in filler;
    forall i, j | 0 <= i < j < |recent|
      ensures recent[i] != recent[j]
    {
      if 0 < i && j < |recent| - 1 {
        if Text.Decimal(i - 1) == Text.Decimal(j - 1) {
          Text.DecimalIsInjective(i - 1, j - 1);
        }
      } else if i == 0 && j < |recent| - 1 {
        FillerIsNumeric(n, filler[j - 1]);
      } else if i > 0 {
        FillerIsNumeric(n, filler[i - 1]);
      }
    }
  }

  lemma {:induction false} WithoutAbsent(ids: seq<ClaimId>, id: ClaimId)
    requires id !in ids
    ensures Without(ids, id) == ids
  {
    if ids != [] {
      WithoutAbsent(ids[1..], id);
    }
  }

  lemma CrowdedRecent(n: nat)
    ensures WithStatus(Crowded(n), "new", Active).recent == Crowded(n).recent
  {
    hide Crowded, Filler;
    var rest := Filler(n) + ["old"];
    var recent := Crowded(n).recent;
    assert recent[0] == "new" && recent[1..] == rest;
    if "new" in Filler(n) {
      FillerIsNumeric(n, "new");
    }
    WithoutAbsent(rest, "new");
    assert Without(recent, "new") == rest;
  }

  /** With enough claims in between, the listing does not reach the old one. */
  lemma CrowdedListing(n: nat, existing: ClaimId)
    requires n >= LISTING_LIMIT && existing in Listing(Crowded(n).recent)
    ensures existing == "new" || existing in Filler(n)
  {
    hide Crowded, Filler;
    var recent := Crowded(n).recent;
    var i :| 0 <= i < LISTING_LIMIT && recent[i] == existing;
    if i > 0 {
      assert recent[i] == Filler(n)[i - 1];
    }
  }

  /** The candidate is approved and both claims are active, yet their disagreement is not recorded. */
  lemma CrowdedApprovalMissesAConflict(resolve: Resolver, n: nat)
    requires n >= LISTING_LIMIT
    ensures var recent := Crowded(n).recent; forall i, j :: 0 <= i < j < |recent| ==> recent[i] != recent[j]
    ensures var after := Approved(resolve, Crowded(n), "new");
            && "new" in after.status && "old" in after.status && "new" in after.facts && "old" in after.facts
            && after.status["new"].Active? && after.status["old"].Active?
            && after.facts["new"].subject == after.facts["old"].subject
            && after.facts["new"].relation == after.facts["old"].relation
            && after.facts["new"].value != after.facts["old"].value
            && after.conflicts == map[]
  {
    CrowdedIsProper(n);
    hide Crowded, Filler, Listing;
    var m := Crowded(n);
    var updated := WithStatus(m, "new", Active);
    CrowdedRecent(n);
    var listing := Listing(updated.recent);
    forall name
      ensures name !in Recorded(resolve, updated, "new", listing)
    {
      RecordedNames(resolve, updated, "new", listing, name);
      forall existing | existing in listing
        ensures !Hits(updated, "new", existing)
      {
        CrowdedListing(n, existing);
        if existing != "new" {
          FillerIsNumeric(n, existing);
        }
      }
    }
    assert Recorded(resolve, updated, "new", listing) == map[];
  }
}
