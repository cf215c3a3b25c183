/** The bounded registry of asynchronous results: insertion-ordered, bound to the
    session that stored, redeemed once. */
module AsyncRegistry {
  import opened Text

  const CAP: nat := 32

  datatype Entry = Entry(handle: string, result: string, owner: string)

  datatype FetchError = UnknownHandle | OtherSession

  // ----- The dictionary, in insertion order -----

  function Position(entries: seq<Entry>, handle: string): (i: Option<nat>)
    ensures i.Some? ==> i.value < |entries| && entries[i.value].handle == handle
    ensures i.None? ==> forall k :: 0 <= k < |entries| ==> entries[k].handle != handle
  {
    if entries == [] then None
    else if entries[|entries| - 1].handle == handle then Some(|entries| - 1)
    else Position(entries[..|entries| - 1], handle)
  }

  /** Assigning an existing key keeps its place. */
  function Assigned(entries: seq<Entry>, e: Entry): seq<Entry> {
    var i := Position(entries, e.handle);
    if i.Some? then entries[i.value := e] else entries + [e]
  }

  function Newest(entries: seq<Entry>): seq<Entry> {
    if |entries| <= CAP then entries else entries[|entries| - CAP..]
  }

  function Stored(entries: seq<Entry>, e: Entry): seq<Entry> {
    Newest(Assigned(entries, e))
  }

  function Outcome(entries: seq<Entry>, handle: string, session: string): Result<string, FetchError> {
    var i := Position(entries, handle);
    if i.None? then Err(UnknownHandle)
    else if entries[i.value].owner != session then Err(OtherSession)
    else Ok(entries[i.value].result)
  }

  function Fetched(entries: seq<Entry>, handle: string, session: string): seq<Entry> {
    var i := Position(entries, handle);
    if Outcome(entries, handle, session).Ok? then entries[..i.value] + entries[i.value + 1..] else entries
  }

  class Registry {
    var entries: seq<Entry>

    constructor ()
      ensures entries == []
    {
      entries := [];
    }

    method Store(e: Entry)
      modifies this
      ensures entries == Stored(old(entries), e)
    {
      entries := Assigned(entries, e);
      ghost var all := entries;
      while |entries| > CAP
        invariant |entries| <= |all| && entries == all[|all| - |entries|..] && (|all| > CAP ==> |entries| >= CAP)
        invariant |all| <= CAP ==> entries == all
      {
        entries := entries[1..];
      }
    }

    method Fetch(handle: string, session: string) returns (result: Result<string, FetchError>)
      modifies this
      ensures result == Outcome(old(entries), handle, session)
      ensures entries == Fetched(old(entries), handle, session)
    {
      var i := Position(entries, handle);
      if i.None? {
        return Err(UnknownHandle);
      }
      var entry := entries[i.value];
      if entry.owner != session {
        return Err(OtherSession);
      }
      entries := entries[..i.value] + entries[i.value + 1..];
      result := Ok(entry.result);
    }
  }

  // ----- Runs -----

  datatype Op = Store(e: Entry) | Fetch(handle: string, session: string)

  function Step(entries: seq<Entry>, op: Op): seq<Entry> {
    match op
    case Store(e) => Stored(entries, e)
    case Fetch(handle, session) => Fetched(entries, handle, session)
  }

  function Ran(entries: seq<Entry>, ops: seq<Op>): seq<Entry>
    decreases |ops|
  {
    if ops == [] then entries else Ran(Step(entries, ops[0]), ops[1..])
  }

  ghost predicate UniqueHandles(entries: seq<Entry>) {
    forall i, j :: 0 <= i < j < |entries| ==> entries[i].handle != entries[j].handle
  }

  predicate Holds(entries: seq<Entry>, handle: string) {
    Position(entries, handle).Some?
  }

  predicate Stores(op: Op, handle: string) { op.Store? && op.e.handle == handle }

  lemma StepKeeps(entries: seq<Entry>, op: Op)
    requires UniqueHandles(entries) && |entries| <= CAP
    ensures UniqueHandles(Step(entries, op)) && |Step(entries, op)| <= CAP
  {
    match op
    case Store(e) =>
      AssignedIsUnique(entries, e);
      NewestIsUnique(Assigned(entries, e));
    case Fetch(handle, session) =>
      FetchedIsUnique(entries, handle, session);
  }

  lemma AssignedIsUnique(entries: seq<Entry>, e: Entry)
    requires UniqueHandles(entries)
    ensures UniqueHandles(Assigned(entries, e))
  {
  }

  lemma NewestIsUnique(entries: seq<Entry>)
    requires UniqueHandles(entries)
    ensures UniqueHandles(Newest(entries)) && |Newest(entries)| <= CAP
  {
  }

  lemma FetchedIsUnique(entries: seq<Entry>, handle: string, session: string)
    requires UniqueHandles(entries)
    ensures UniqueHandles(Fetched(entries, handle, session)) && |Fetched(entries, handle, session)| <= |entries|
  {
  }

  /** In every run the registry holds at most 32 entries, one per handle. */
  lemma {:induction false} RunKeeps(entries: seq<Entry>, ops: seq<Op>)
    requires UniqueHandles(entries) && |entries| <= 32
    ensures UniqueHandles(Ran(entries, ops)) && |Ran(entries, ops)| <= 32
    decreases |ops|
  {
    if ops != [] {
      StepKeeps(entries, ops[0]);
      RunKeeps(Step(entries, ops[0]), ops[1..]);
    }
  }

  /** A fetch that is refused, for an unknown handle or a foreign session, changes
      nothing; one that succeeds takes out that entry and no other. */
  lemma FetchTakesAtMostItsEntry(entries: seq<Entry>, handle: string, session: string, other: Entry)
    requires UniqueHandles(entries)
    ensures
      var (outcome, after) := (Outcome(entries, handle, session), Fetched(entries, handle, session));
      && (outcome.Err? ==> after == entries)
      && (outcome.Ok? ==> !Holds(after, handle) && Entry(handle, outcome.value, session) in entries)
      && (other in entries && other.handle != handle ==> other in after)
  {
    var (i, after) := (Position(entries, handle), Fetched(entries, handle, session));
    if other in entries && other.handle != handle {
      var k :| 0 <= k < |entries| && entries[k] == other;
      if i.Some? && k > i.value && Outcome(entries, handle, session).Ok? {
        assert after[k - 1] == other;
      } else {
        assert after[k] == other;
      }
    }
  }

  lemma StepDoesNotBring(entries: seq<Entry>, op: Op, handle: string)
    requires !Holds(entries, handle) && !Stores(op, handle)
    ensures !Holds(Step(entries, op), handle)
  {
    if op.Store? {
      assert !Holds(Assigned(entries, op.e), handle);
    }
  }

  lemma {:induction false} GoneStaysGone(entries: seq<Entry>, ops: seq<Op>, handle: string)
    requires !Holds(entries, handle) && forall k :: 0 <= k < |ops| ==> !Stores(ops[k], handle)
    ensures !Holds(Ran(entries, ops), handle)
    decreases |ops|
  {
    if ops != [] {
      StepDoesNotBring(entries, ops[0], handle);
      GoneStaysGone(Step(entries, ops[0]), ops[1..], handle);
    }
  }

  /** A handle is redeemed at most once, and only by the session that stored it: after
      a successful fetch every later one fails until the handle is stored again. */
  lemma RedeemedOnce(entries: seq<Entry>, handle: string, session: string, ops: seq<Op>, later: string)
    requires UniqueHandles(entries) && Outcome(entries, handle, session).Ok?
    requires forall k :: 0 <= k < |ops| ==> !Stores(ops[k], handle)
    ensures exists e :: e in entries && e.handle == handle && e.owner == session
    ensures Outcome(Ran(Fetched(entries, handle, session), ops), handle, later) == Err(UnknownHandle)
  {
    var after := Fetched(entries, handle, session);
    var i := Position(entries, handle).value;
    assert entries[i] in entries;
    FetchTakesAtMostItsEntry(entries, handle, session, entries[i]);
    GoneStaysGone(after, ops, handle);
  }

  function StoreCount(ops: seq<Op>): nat {
    if ops == [] then 0 else (if ops[0].Store? then 1 else 0) + StoreCount(ops[1..])
  }

  predicate Takes(op: Op, e: Entry) { op.Fetch? && op.handle == e.handle && op.session == e.owner }

  lemma PositionIs(entries: seq<Entry>, i: nat)
    requires UniqueHandles(entries) && i < |entries|
    ensures Position(entries, entries[i].handle) == Some(i)
  {
  }

  /** `e` stands in the registry with at most `n` entries behind it. */
  ghost predicate Stands(entries: seq<Entry>, e: Entry, n: nat) {
    exists i :: 0 <= i < |entries| && entries[i] == e && |entries| - 1 - i <= n
  }

  lemma StoreSpares(entries: seq<Entry>, s: Entry, e: Entry, n: nat)
    requires |entries| <= CAP && Stands(entries, e, n) && s.handle != e.handle && n + 1 < CAP
    ensures Stands(Stored(entries, s), e, n + 1)
  {
    var i :| 0 <= i < |entries| && entries[i] == e && |entries| - 1 - i <= n;
    var (all, after) := (Assigned(entries, s), Stored(entries, s));
    assert all[i] == e;
    assert after[i - (|all| - |after|)] == e;
  }

  lemma FetchSpares(entries: seq<Entry>, handle: string, session: string, e: Entry, n: nat)
    requires Stands(entries, e, n) && !Takes(Fetch(handle, session), e)
    requires UniqueHandles(entries)
    ensures Stands(Fetched(entries, handle, session), e, n)
  {
    var i :| 0 <= i < |entries| && entries[i] == e && |entries| - 1 - i <= n;
    var after := Fetched(entries, handle, session);
    if Outcome(entries, handle, session).Ok? {
      var j := Position(entries, handle).value;
      assert entries[j].owner == session && entries[j].handle == handle;
      assert j != i;
      hide *;
      if j < i {
        assert after == entries[..j] + entries[j + 1..];
        assert after[i - 1] == e;
      } else {
        assert after[i] == e;
      }
    }
  }

  /** An entry nobody redeems stays until at least 32 stores have come after it. */
  lemma {:induction false} UnfetchedStays(entries: seq<Entry>, ops: seq<Op>, e: Entry, n: nat)
    requires UniqueHandles(entries) && |entries| <= CAP && Stands(entries, e, n)
    requires forall k :: 0 <= k < |ops| ==> !Stores(ops[k], e.handle) && !Takes(ops[k], e)
    requires n + StoreCount(ops) < CAP
    ensures Outcome(Ran(entries, ops), e.handle, e.owner) == Ok(e.result)
    decreases |ops|
  {
    if ops == [] {
      var i :| 0 <= i < |entries| && entries[i] == e;
      PositionIs(entries, i);
    } else {
      hide Stands, UniqueHandles;
      StepKeeps(entries, ops[0]);
      if ops[0].Store? {
        StoreSpares(entries, ops[0].e, e, n);
        UnfetchedStays(Step(entries, ops[0]), ops[1..], e, n + 1);
      } else {
        FetchSpares(entries, ops[0].handle, ops[0].session, e, n);
        UnfetchedStays(Step(entries, ops[0]), ops[1..], e, n);
      }
    }
  }

  /** From its store on, a fresh handle is redeemable by its session across any run
      with fewer than 32 stores and no fetch of it. */
  lemma FreshHandleIsRedeemable(entries: seq<Entry>, e: Entry, ops: seq<Op>)
    requires UniqueHandles(entries) && |entries| <= 32 && !Holds(entries, e.handle)
    requires forall k :: 0 <= k < |ops| ==> !Stores(ops[k], e.handle) && !Takes(ops[k], e)
    requires StoreCount(ops) < 32
    ensures Outcome(Ran(Stored(entries, e), ops), e.handle, e.owner) == Ok(e.result)
  {
    var after := Stored(entries, e);
    StepKeeps(entries, Store(e));
    assert after[|after| - 1] == e;
    UnfetchedStays(after, ops, e, 0);
  }
}
