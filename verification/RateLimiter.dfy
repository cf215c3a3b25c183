/** The 60-second sliding-window limiters of the awareness surfaces
    (`_picture_rate_refused`, `_heartbeat_rate_refused`). Times are microseconds. */
module RateLimiter {

  const WINDOW: int := 60_000_000

  /** (project, agent), never the session. */
  type Key = (string, string)

  type Ledger = map<Key, seq<int>>

  /** What `popleft` leaves when stamps at or before `cutoff` go. */
  function Prune(stamps: seq<int>, cutoff: int): seq<int> {
    if stamps != [] && stamps[0] <= cutoff then Prune(stamps[1..], cutoff) else stamps
  }

  function StampsOf(ledger: Ledger, key: Key): seq<int> {
    if key in ledger then ledger[key] else []
  }

  /** One call: the new ledger and whether the call is refused. */
  function Decide(ledger: Ledger, key: Key, limit: int, now: int): (Ledger, bool) {
    if limit <= 0 then (ledger, false)
    else
      var kept := Prune(StampsOf(ledger, key), now - WINDOW);
      if |kept| >= limit then (ledger[key := kept], true)
      else (ledger[key := kept + [now]], false)
  }

  class RateLedger {
    var stamps: Ledger

    constructor ()
      ensures stamps == map[]
    {
      stamps := map[];
    }

    /** Admit one call, or refuse it. */
    method Refused(key: Key, limit: int, now: int) returns (refused: bool)
      modifies this
      ensures (stamps, refused) == Decide(old(stamps), key, limit, now)
    {
      if limit <= 0 {
        return false;
      }
      var windowStart := now - WINDOW;
      if key in stamps {
        var kept := stamps[key];
        while kept != [] && kept[0] <= windowStart
          invariant Prune(kept, windowStart) == Prune(old(stamps)[key], windowStart)
          decreases |kept|
        {
          kept := kept[1..];
        }
        stamps := stamps[key := kept];
        if |kept| >= limit {
          return true;
        }
      }
      var admitted := (if key in stamps then stamps[key] else []) + [now];
      stamps := stamps[key := admitted];
      assert stamps == old(stamps)[key := admitted];
      return false;
    }
  }

  // ----- Runs -----

  datatype Call = Call(key: Key, now: int)

  /** The ledger, and every admission ever granted. */
  datatype State = State(ledger: Ledger, log: seq<Call>)

  function Step(s: State, limit: int, c: Call): State {
    var (ledger, refused) := Decide(s.ledger, c.key, limit, c.now);
    State(ledger, if refused then s.log else s.log + [c])
  }

  function After(limit: int, calls: seq<Call>): State {
    if calls == [] then State(map[], [])
    else Step(After(limit, calls[..|calls| - 1]), limit, calls[|calls| - 1])
  }

  ghost predicate ClockAscends(calls: seq<Call>) {
    forall i, j :: 0 <= i < j < |calls| ==> calls[i].now <= calls[j].now
  }

  /** Every admission of one key, oldest first. */
  function History(log: seq<Call>, key: Key): seq<int> {
    if log == [] then []
    else
      var c := log[|log| - 1];
      History(log[..|log| - 1], key) + (if c.key == key then [c.now] else [])
  }

  /** How many of `stamps` lie in (lo, hi]. */
  function CountIn(stamps: seq<int>, lo: int, hi: int): nat {
    if stamps == [] then 0
    else
      var t := stamps[|stamps| - 1];
      CountIn(stamps[..|stamps| - 1], lo, hi) + (if lo < t <= hi then 1 else 0)
  }

  /** The rule the limiter stands for: count the whole admission history. */
  predicate RefusedByHistory(limit: int, log: seq<Call>, key: Key, now: int) {
    limit > 0 && CountIn(History(log, key), now - WINDOW, now) >= limit
  }

  // ----- Pruning -----

  lemma {:induction false} PruneTwice(s: seq<int>, c: int, c': int)
    requires c <= c'
    ensures Prune(Prune(s, c), c') == Prune(s, c')
  {
    if s != [] && s[0] <= c {
      PruneTwice(s[1..], c, c');
    }
  }

  lemma {:induction false} PruneAppend(s: seq<int>, c: int, x: int)
    requires c < x
    ensures Prune(s + [x], c) == Prune(s, c) + [x]
  {
    if s != [] && s[0] <= c {
      assert (s + [x])[1..] == s[1..] + [x];
      PruneAppend(s[1..], c, x);
    } else if s == [] {
      assert s + [x] == [x];
    }
  }

  lemma {:induction false} PruneAppendOld(s: seq<int>, c: int, x: int)
    requires x <= c && forall i :: 0 <= i < |s| ==> s[i] <= c
    ensures Prune(s + [x], c) == []
  {
    if s == [] {
      assert s + [x] == [x];
    } else {
      assert (s + [x])[1..] == s[1..] + [x];
      PruneAppendOld(s[1..], c, x);
    }
  }

  ghost predicate Ascends(s: seq<int>) {
    forall i, j :: 0 <= i < j < |s| ==> s[i] <= s[j]
  }

  /** On an ascending history, pruning counts. */
  lemma {:induction false} PruneCounts(s: seq<int>, lo: int, hi: int)
    requires Ascends(s) && forall i :: 0 <= i < |s| ==> s[i] <= hi
    ensures |Prune(s, lo)| == CountIn(s, lo, hi)
  {
    if s != [] {
      var (rest, t) := (s[..|s| - 1], s[|s| - 1]);
      assert s == rest + [t];
      PruneCounts(rest, lo, hi);
      if lo < t {
        PruneAppend(rest, lo, t);
      } else {
        PruneAppendOld(rest, lo, t);
        CountNone(rest, lo, hi);
      }
    }
  }

  lemma {:induction false} CountNone(s: seq<int>, lo: int, hi: int)
    requires forall i :: 0 <= i < |s| ==> s[i] <= lo
    ensures CountIn(s, lo, hi) == 0
  {
    if s != [] {
      CountNone(s[..|s| - 1], lo, hi);
    }
  }

  lemma {:induction false} CountShrinks(s: seq<int>, lo: int, hi: int, lo': int, hi': int)
    requires lo <= lo' && forall i :: 0 <= i < |s| ==> s[i] <= hi
    ensures CountIn(s, lo', hi') <= CountIn(s, lo, hi)
  {
    if s != [] {
      CountShrinks(s[..|s| - 1], lo, hi, lo', hi');
    }
  }

  // ----- What holds after every run -----

  ghost predicate UpTo(s: seq<int>, t: int) {
    forall i :: 0 <= i < |s| ==> s[i] <= t
  }

  /** The pruned deque forgets nothing that a later call could count. */
  ghost predicate Faithful(s: State, key: Key, t: int) {
    && Ascends(History(s.log, key)) && UpTo(History(s.log, key), t)
    && Prune(StampsOf(s.ledger, key), t - WINDOW) == Prune(History(s.log, key), t - WINDOW)
  }

  lemma HistoryAppend(log: seq<Call>, c: Call, key: Key)
    ensures History(log + [c], key) == History(log, key) + (if c.key == key then [c.now] else [])
  {
    assert (log + [c])[..|log|] == log;
  }

  /** What one call does to one key. */
  lemma StepEffect(s: State, limit: int, call: Call, key: Key)
    requires limit > 0
    ensures
      var (s', h, held) := (Step(s, limit, call), History(s.log, key), StampsOf(s.ledger, key));
      var kept := Prune(held, call.now - WINDOW);
      var (held', h') := (StampsOf(s'.ledger, key), History(s'.log, key));
      if call.key != key then held' == held && h' == h
      else if |kept| >= limit then held' == kept && h' == h
      else held' == kept + [call.now] && h' == h + [call.now]
  {
    HistoryAppend(s.log, call, key);
  }

  lemma StepFaithful(s: State, limit: int, call: Call, key: Key, t: int)
    requires Faithful(s, key, t) && t <= call.now && limit > 0
    ensures Faithful(Step(s, limit, call), key, call.now)
  {
    StepEffect(s, limit, call, key);
    FaithfulLater(s, key, t, call.now);
    PruneAgrees(History(s.log, key), call.now, call.now - WINDOW);
  }

  lemma FaithfulLater(s: State, key: Key, t: int, t': int)
    requires Faithful(s, key, t) && t <= t'
    ensures Faithful(s, key, t')
  {
    PruneTwice(StampsOf(s.ledger, key), t - WINDOW, t' - WINDOW);
    PruneTwice(History(s.log, key), t - WINDOW, t' - WINDOW);
  }

  lemma PruneAgrees(h: seq<int>, now: int, c: int)
    requires UpTo(h, now) && c >= now - WINDOW
    ensures
      var kept := Prune(h, now - WINDOW);
      Prune(kept, c) == Prune(h, c) && Prune(kept + [now], c) == Prune(h + [now], c)
  {
    var kept := Prune(h, now - WINDOW);
    PruneTwice(h, now - WINDOW, c);
    if c < now {
      PruneAppend(kept, c, now);
      PruneAppend(h, c, now);
    } else {
      PruneUpTo(h, now - WINDOW, now);
      PruneAppendOld(kept, c, now);
      PruneAppendOld(h, c, now);
    }
  }

  lemma {:induction false} PruneUpTo(s: seq<int>, c: int, t: int)
    requires UpTo(s, t)
    ensures UpTo(Prune(s, c), t)
  {
    if s != [] && s[0] <= c {
      PruneUpTo(s[1..], c, t);
    }
  }

  lemma {:induction false} RunFaithful(limit: int, calls: seq<Call>, key: Key, t: int)
    requires limit > 0 && ClockAscends(calls) && (calls != [] ==> calls[|calls| - 1].now <= t)
    ensures Faithful(After(limit, calls), key, t)
    decreases |calls|
  {
    if calls == [] {
      assert After(limit, calls).log == [];
    } else {
      var last := calls[|calls| - 1];
      RunFaithful(limit, calls[..|calls| - 1], key, last.now);
      StepFaithful(After(limit, calls[..|calls| - 1]), limit, last, key, last.now);
      FaithfulLater(After(limit, calls), key, last.now, t);
    }
  }

  lemma ClockPrefix(calls: seq<Call>, c: Call)
    requires ClockAscends(calls + [c])
    ensures ClockAscends(calls) && (calls != [] ==> calls[|calls| - 1].now <= c.now)
  {
    var all := calls + [c];
    assert forall i :: 0 <= i < |calls| ==> calls[i] == all[i];
    assert all[|calls|] == c;
  }

  /** Under a clock that never steps back, the pruned deque decides every call as
      the whole admission history would. */
  lemma DecidesByHistory(limit: int, calls: seq<Call>, key: Key, now: int)
    requires ClockAscends(calls + [Call(key, now)])
    ensures Decide(After(limit, calls).ledger, key, limit, now).1
       <==> RefusedByHistory(limit, After(limit, calls).log, key, now)
  {
    if limit > 0 {
      ClockPrefix(calls, Call(key, now));
      RunFaithful(limit, calls, key, now);
      PruneCounts(History(After(limit, calls).log, key), now - WINDOW, now);
    }
  }

  lemma WindowStep(s: State, limit: int, call: Call, key: Key, hi: int)
    requires limit > 0 && Faithful(s, key, call.now)
    requires CountIn(History(s.log, key), hi - WINDOW, hi) <= limit
    ensures CountIn(History(Step(s, limit, call).log, key), hi - WINDOW, hi) <= limit
  {
    var (h, now) := (History(s.log, key), call.now);
    StepEffect(s, limit, call, key);
    if History(Step(s, limit, call).log, key) != h {
      var kept := Prune(StampsOf(s.ledger, key), now - WINDOW);
      assert |kept| < limit && kept == Prune(h, now - WINDOW);
      AdmitCounts(h, now, limit, hi);
    }
  }

  lemma AdmitCounts(h: seq<int>, now: int, limit: int, hi: int)
    requires Ascends(h) && UpTo(h, now) && |Prune(h, now - WINDOW)| < limit
    requires CountIn(h, hi - WINDOW, hi) <= limit
    ensures CountIn(h + [now], hi - WINDOW, hi) <= limit
  {
    PruneCounts(h, now - WINDOW, now);
    assert (h + [now])[..|h|] == h;
    if now <= hi {
      CountShrinks(h, now - WINDOW, now, hi - WINDOW, hi);
    }
  }

  /** No 60-second window (hi - 60 s, hi] ever holds more than `limit` admissions
      of one key. */
  lemma {:induction false} WindowBound(limit: int, calls: seq<Call>, key: Key, hi: int)
    requires limit > 0 && ClockAscends(calls)
    ensures CountIn(History(After(limit, calls).log, key), hi - WINDOW, hi) <= limit
    decreases |calls|
  {
    if calls != [] {
      var (before, last) := (calls[..|calls| - 1], calls[|calls| - 1]);
      WindowBound(limit, before, key, hi);
      RunFaithful(limit, before, key, last.now);
      WindowStep(After(limit, before), limit, last, key, hi);
    }
  }

  /** A refusal leaves no trace: the same caller is refused again exactly until
      the oldest stamp it was refused for is 60 seconds old. */
  lemma RefusedUntilOldestExpires(limit: int, calls: seq<Call>, key: Key, now: int, later: int)
    requires limit > 0 && ClockAscends(calls + [Call(key, now)]) && now <= later
    requires Decide(After(limit, calls).ledger, key, limit, now).1
    ensures
      var s := After(limit, calls + [Call(key, now)]);
      var counted := StampsOf(s.ledger, key);
      && s.log == After(limit, calls).log
      && |counted| == limit && Prune(History(s.log, key), now - WINDOW) == counted
      && (Decide(s.ledger, key, limit, later).1 <==> later < counted[0] + WINDOW)
  {
    var all := calls + [Call(key, now)];
    assert all[..|all| - 1] == calls;
    ClockPrefix(calls, Call(key, now));
    var s := After(limit, calls);
    RunFaithful(limit, calls, key, now);
    var h := History(s.log, key);
    PruneCounts(h, now - WINDOW, now);
    WindowBound(limit, calls, key, now);
    var counted := Prune(h, now - WINDOW);
    assert |counted| == limit;
    PruneShrinks(counted, later - WINDOW);
  }

  lemma {:induction false} PruneShrinks(s: seq<int>, c: int)
    ensures |Prune(s, c)| <= |s|
    ensures s != [] ==> (|Prune(s, c)| == |s| <==> c < s[0])
  {
    if s != [] && s[0] <= c {
      PruneShrinks(s[1..], c);
    }
  }

  // ----- Keys do not affect each other -----

  function Only(calls: seq<Call>, key: Key): seq<Call> {
    if calls == [] then []
    else
      var c := calls[|calls| - 1];
      Only(calls[..|calls| - 1], key) + (if c.key == key then [c] else [])
  }

  /** What a key is granted is what it would be granted were it alone. */
  lemma {:induction false} KeysAreIndependent(limit: int, calls: seq<Call>, key: Key)
    ensures
      var (together, alone) := (After(limit, calls), After(limit, Only(calls, key)));
      && StampsOf(together.ledger, key) == StampsOf(alone.ledger, key)
      && History(together.log, key) == History(alone.log, key)
    decreases |calls|
  {
    if calls != [] {
      var (before, last) := (calls[..|calls| - 1], calls[|calls| - 1]);
      KeysAreIndependent(limit, before, key);
      var (s, s') := (After(limit, before), After(limit, Only(before, key)));
      if limit <= 0 {
        HistoryAppend(s.log, last, key);
        HistoryAppend(s'.log, last, key);
      } else {
        StepEffect(s, limit, last, key);
        StepEffect(s', limit, last, key);
      }
      if last.key == key {
        assert (Only(before, key) + [last])[..|Only(before, key)|] == Only(before, key);
      } else {
        assert Only(calls, key) == Only(before, key);
      }
    }
  }
}
