/** The cursor protocol of the awareness surfaces: probe, clamp, read, advance.
    Times are microseconds; a row is named by its position in the feed. */
module Awareness {
  import opened Text
  import RateLimiter

  const CLAMP: int := 3600 * 1_000_000
  const FEED_LIMIT: nat := 200

  datatype Row = Row(project: string, agent: string, stamp: int, archived: bool, quarantined: bool) {
    predicate Visible() { !archived && !quarantined }
  }

  /** Whose cursor: the native heartbeat keeps one per (project, agent), the
      `pre_llm_call` composition one per (project, agent, session). */
  datatype Surface = Heartbeat(project: string, agent: string) | Turn(project: string, agent: string, session: string)

  /** One composition that read a delta and moved its cursor: the window start
      and what it came from, the rows the store returned (`cut`), those that
      stayed after the status filter (`rows`), and the cursor it wrote. */
  datatype Composition = Composition(
    key: Surface, before: Option<int>, clamp: int, since: int,
    feedSize: nat, cut: seq<nat>, rows: seq<nat>, cursor: int)

  datatype Suppression = RateCap | ProbeError

  datatype Outcome = Invalid | Suppressed(reason: Suppression) | Calm | FutureSince | Delta(composition: Composition)

  datatype State = State(
    feed: seq<Row>, cursors: map<Surface, int>,
    beats: RateLimiter.Ledger, turns: RateLimiter.Ledger, log: seq<Composition>)

  // ----- The store's answers -----

  /** `exists_since`: some row not archived strictly after `since`. */
  predicate ExistsSince(feed: seq<Row>, project: string, since: int) {
    exists i :: 0 <= i < |feed| && feed[i].project == project && feed[i].stamp > since && !feed[i].archived
  }

  predicate InWindow(feed: seq<Row>, project: string, since: int, i: int) {
    0 <= i < |feed| && feed[i].project == project && feed[i].stamp >= since
  }

  /** Row `i` lies behind a full page: 200 rows were returned, none older. */
  predicate PastTheCut(feed: seq<Row>, cut: seq<nat>, i: int)
    requires 0 <= i < |feed| && forall k :: 0 <= k < |cut| ==> cut[k] < |feed|
  {
    |cut| == FEED_LIMIT && forall k :: 0 <= k < |cut| ==> feed[i].stamp <= feed[cut[k]].stamp
  }

  /** `list_recent(limit=200, since=...)`: rows at or after `since`, newest first,
      each once, cut at the limit; how ties at the cut fall is left open. */
  ghost predicate ListRecent(feed: seq<Row>, project: string, since: int, cut: seq<nat>) {
    && |cut| <= FEED_LIMIT
    && (forall k :: 0 <= k < |cut| ==> InWindow(feed, project, since, cut[k]))
    && (forall k, m :: 0 <= k < m < |cut| ==> cut[k] != cut[m] && feed[cut[k]].stamp >= feed[cut[m]].stamp)
    && (forall i: int :: InWindow(feed, project, since, i) && i !in cut ==> PastTheCut(feed, cut, i))
  }

  // ----- One composition -----

  predicate ValidKey(key: Surface) {
    !BlankText(key.project) && !BlankText(key.agent) && (key.Turn? ==> !BlankText(key.session))
  }

  function CursorOf(s: State, key: Surface): Option<int> {
    if key in s.cursors then Some(s.cursors[key]) else None
  }

  /** `_resolve_since` */
  function ResolveSince(cursor: Option<int>, now: int): int {
    if cursor.Some? && cursor.value > now - CLAMP then cursor.value else now - CLAMP
  }

  function LedgerOf(s: State, key: Surface): RateLimiter.Ledger {
    if key.Heartbeat? then s.beats else s.turns
  }

  function WithLedger(s: State, key: Surface, ledger: RateLimiter.Ledger): State {
    if key.Heartbeat? then s.(beats := ledger) else s.(turns := ledger)
  }

  /** `_window_rows` after the store's answer. */
  function VisibleRows(feed: seq<Row>, cut: seq<nat>): (rows: seq<nat>)
    requires forall k :: 0 <= k < |cut| ==> cut[k] < |feed|
    ensures forall i :: i in rows <==> i in cut && feed[i].Visible()
  {
    if cut == [] then []
    else
      var (rest, i) := (cut[..|cut| - 1], cut[|cut| - 1]);
      assert cut == rest + [i];
      VisibleRows(feed, rest) + (if feed[i].Visible() then [i] else [])
  }

  /** The newest stamp among `rows`, `since` when there is none. */
  function HighWater(feed: seq<Row>, rows: seq<nat>, since: int): (high: int)
    requires forall i :: i in rows ==> 0 <= i < |feed|
    ensures since <= high && forall i :: i in rows ==> feed[i].stamp <= high
    ensures high == since || exists i :: i in rows && feed[i].stamp == high
  {
    if rows == [] then since
    else
      var (rest, i) := (rows[..|rows| - 1], rows[|rows| - 1]);
      assert i in rows && forall j :: j in rest ==> j in rows;
      assert rows == rest + [i];
      var high := HighWater(feed, rest, since);
      if feed[i].stamp > high then feed[i].stamp else high
  }

  /** The window this composition would open. */
  function Since(s: State, key: Surface, now: int): int {
    ResolveSince(CursorOf(s, key), now)
  }

  /** The delta leg: the rows read and the cursor one microsecond past them. */
  function ReadDelta(s: State, key: Surface, now: int, cut: seq<nat>): Composition
    requires forall k :: 0 <= k < |cut| ==> cut[k] < |s.feed|
  {
    var since := Since(s, key, now);
    var rows := VisibleRows(s.feed, cut);
    Composition(key, CursorOf(s, key), now - CLAMP, since, |s.feed|, cut, rows, HighWater(s.feed, rows, since) + 1)
  }

  function Advance(s: State, c: Composition): State {
    s.(cursors := s.cursors[c.key := c.cursor], log := s.log + [c])
  }

  /** One call on `key`: `limit` is the surface's cap, `probeFails` says whether
      the probe raises, `cut` is what the store lists. */
  function Compose(s: State, key: Surface, now: int, limit: int, probeFails: bool, cut: seq<nat>): (State, Outcome)
    requires forall k :: 0 <= k < |cut| ==> cut[k] < |s.feed|
  {
    if !ValidKey(key) then (s, Invalid)
    else
      var (ledger, refused) := RateLimiter.Decide(LedgerOf(s, key), (key.project, key.agent), limit, now);
      var s1 := WithLedger(s, key, ledger);
      var since := Since(s, key, now);
      if refused then (s1, Suppressed(RateCap))
      else if key.Heartbeat? && probeFails then (s1, Suppressed(ProbeError))
      else if key.Heartbeat? && !ExistsSince(s.feed, key.project, since) then (s1, Calm)
      else if since > now then (s1, FutureSince)
      else
        var c := ReadDelta(s1, key, now, cut);
        (Advance(s1, c), Delta(c))
  }

  /** The composition as the program runs it, updating cursor and ledger in place. */
  class Composer {
    var feed: seq<Row>
    var cursors: map<Surface, int>
    var ledger: RateLimiter.RateLedger
    ghost var log: seq<Composition>

    constructor (feed: seq<Row>)
      ensures this.feed == feed && cursors == map[] && log == [] && fresh(ledger) && ledger.stamps == map[]
    {
      this.feed, cursors, log := feed, map[], [];
      ledger := new RateLimiter.RateLedger();
    }

    ghost function Abstract(): State
      reads this, ledger
    {
      State(feed, cursors, ledger.stamps, map[], log)
    }

    /** The visible rows of the listing and their high-water mark. */
    method ReadWindow(cut: seq<nat>, since: int) returns (rows: seq<nat>, high: int)
      requires forall k :: 0 <= k < |cut| ==> cut[k] < |feed|
      ensures rows == VisibleRows(feed, cut) && high == HighWater(feed, rows, since)
    {
      rows, high := [], since;
      for k := 0 to |cut|
        invariant rows == VisibleRows(feed, cut[..k])
        invariant high == HighWater(feed, rows, since)
      {
        assert cut[..k + 1][..k] == cut[..k];
        if feed[cut[k]].Visible() {
          assert (rows + [cut[k]])[..|rows|] == rows;
          rows := rows + [cut[k]];
          if feed[cut[k]].stamp > high {
            high := feed[cut[k]].stamp;
          }
        }
      }
      assert cut[..|cut|] == cut;
    }

    /** `compose_heartbeat` up to the cursor write; `probe` and `cut` are the
        store's two answers (the second is consulted only after the first). */
    method ComposeHeartbeat(project: string, agent: string, now: int, limit: int, probe: Option<bool>, cut: seq<nat>)
      returns (outcome: Outcome)
      requires forall k :: 0 <= k < |cut| ==> cut[k] < |feed|
      requires probe.Some? ==> probe.value == ExistsSince(feed, project, Since(Abstract(), Heartbeat(project, agent), now))
      modifies this, ledger
      ensures ledger == old(ledger)
      ensures (Abstract(), outcome) == Compose(old(Abstract()), Heartbeat(project, agent), now, limit, probe.None?, cut)
    {
      if BlankText(project) || BlankText(agent) {
        return Invalid;
      }
      var key := Heartbeat(project, agent);
      var refused := ledger.Refused((project, agent), limit, now);
      if refused {
        return Suppressed(RateCap);
      }
      var cursor := if key in cursors then Some(cursors[key]) else None;
      var since := ResolveSince(cursor, now);
      if probe.None? {
        return Suppressed(ProbeError);
      }
      if !probe.value {
        return Calm;
      }
      if since > now {
        return FutureSince;
      }
      var c := Deliver(key, now, cut);
      outcome := Delta(c);
    }

    /** The read and the cursor write, in this order and before anything returns. */
    method Deliver(key: Surface, now: int, cut: seq<nat>) returns (c: Composition)
      requires forall k :: 0 <= k < |cut| ==> cut[k] < |feed|
      modifies this
      ensures ledger == old(ledger)
      ensures c == ReadDelta(old(Abstract()), key, now, cut) && Abstract() == Advance(old(Abstract()), c)
    {
      var cursor := if key in cursors then Some(cursors[key]) else None;
      var since := ResolveSince(cursor, now);
      var rows, high := ReadWindow(cut, since);
      c := Composition(key, cursor, now - CLAMP, since, |feed|, cut, rows, high + 1);
      assert c == ReadDelta(Abstract(), key, now, cut);
      cursors := cursors[key := high + 1];
      log := log + [c];
    }
  }

  // ----- Runs: commits, status changes and compositions in any order -----

  ghost predicate Init(s: State) {
    s.feed == [] && s.cursors == map[] && s.log == []
  }

  ghost predicate Committed(s: State, s': State, row: Row) {
    s' == s.(feed := s.feed + [row])
  }

  ghost predicate StatusChanged(s: State, s': State, i: nat, archived: bool, quarantined: bool) {
    i < |s.feed| && s' == s.(feed := s.feed[i := s.feed[i].(archived := archived, quarantined := quarantined)])
  }

  ghost predicate Composed(s: State, s': State, key: Surface, now: int, limit: int, probeFails: bool, cut: seq<nat>) {
    ListRecent(s.feed, key.project, Since(s, key, now), cut) && s' == Compose(s, key, now, limit, probeFails, cut).0
  }

  ghost predicate Next(s: State, s': State) {
    || (exists row :: Committed(s, s', row))
    || (exists i, archived, quarantined :: StatusChanged(s, s', i, archived, quarantined))
    || (exists key, now, limit, probeFails, cut :: Composed(s, s', key, now, limit, probeFails, cut))
  }

  ghost predicate Run(states: seq<State>) {
    states != [] && Init(states[0]) && forall k :: 0 <= k < |states| - 1 ==> Next(states[k], states[k + 1])
  }

  // ----- What every run keeps -----

  /** A log entry, read against the feed as it stands now. */
  ghost predicate Sound(feed: seq<Row>, c: Composition) {
    && c.feedSize <= |feed|
    && c.since < c.cursor && c.clamp <= c.since
    && (forall k :: 0 <= k < |c.cut| ==> c.cut[k] < c.feedSize)
    && (forall i :: i in c.rows ==> i < c.feedSize && c.since <= feed[i].stamp < c.cursor)
    && (forall i :: 0 <= i < c.feedSize && InWindow(feed, c.key.project, c.since, i) && i !in c.rows ==>
          i in c.cut || PastTheCut(feed, c.cut, i))
  }

  ghost predicate SameKey(s: State, m: nat, n: nat) {
    m < |s.log| && n < |s.log| && s.log[m].key == s.log[n].key
  }

  /** The window of entry `n` opens at the clamp or at the cursor an earlier
      entry of the same key left. */
  ghost predicate Chained(s: State, n: nat)
    requires n < |s.log|
  {
    var c := s.log[n];
    c.since == c.clamp || exists m :: 0 <= m < n && s.log[m].key == c.key && s.log[m].cursor == c.since
  }

  ghost predicate LogSound(s: State) {
    forall n :: 0 <= n < |s.log| ==> Sound(s.feed, s.log[n])
  }

  ghost predicate LogChained(s: State) {
    forall n :: 0 <= n < |s.log| ==> Chained(s, n)
  }

  ghost predicate LogAscends(s: State) {
    forall m, n :: 0 <= m < n < |s.log| && s.log[m].key == s.log[n].key ==> s.log[m].cursor <= s.log[n].since
  }

  /** The stored cursor is the largest one the log records for its key. */
  ghost predicate CursorsAgree(s: State) {
    && (forall n :: 0 <= n < |s.log| ==> s.log[n].key in s.cursors && s.log[n].cursor <= s.cursors[s.log[n].key])
    && (forall key :: key in s.cursors ==>
          exists n :: 0 <= n < |s.log| && s.log[n].key == key && s.log[n].cursor == s.cursors[key])
  }

  ghost predicate Inv(s: State) {
    LogSound(s) && LogChained(s) && LogAscends(s) && CursorsAgree(s)
  }

  /** Rows keep project and stamp for ever; only new rows and new statuses come. */
  ghost predicate Grown(feed: seq<Row>, feed': seq<Row>) {
    |feed| <= |feed'| && forall j :: 0 <= j < |feed| ==>
      feed'[j].stamp == feed[j].stamp && feed'[j].project == feed[j].project
  }

  lemma SoundStaysSound(feed: seq<Row>, feed': seq<Row>, c: Composition)
    requires Sound(feed, c) && Grown(feed, feed')
    ensures Sound(feed', c)
  {
    forall i | 0 <= i < c.feedSize && InWindow(feed', c.key.project, c.since, i) && i !in c.rows
      ensures i in c.cut || PastTheCut(feed', c.cut, i)
    {
      assert InWindow(feed, c.key.project, c.since, i);
    }
  }

  lemma FeedStepKeepsInv(s: State, s': State)
    requires Inv(s) && Grown(s.feed, s'.feed) && s' == s.(feed := s'.feed)
    ensures Inv(s')
  {
    forall n | 0 <= n < |s'.log|
      ensures Sound(s'.feed, s'.log[n]) && Chained(s', n)
    {
      SoundStaysSound(s.feed, s'.feed, s.log[n]);
      assert Chained(s, n);
    }
  }

  lemma ComposeKeepsInv(s: State, s': State, key: Surface, now: int, limit: int, probeFails: bool, cut: seq<nat>)
    requires Inv(s) && Composed(s, s', key, now, limit, probeFails, cut)
    ensures Inv(s')
  {
    if Compose(s, key, now, limit, probeFails, cut).1.Delta? {
      var c := Compose(s, key, now, limit, probeFails, cut).1.composition;
      NewEntrySound(s, key, now, limit, probeFails, cut, c);
      AppendKeepsInv(s, s', c);
    } else {
      SameLogKeepsInv(s, s');
    }
  }

  lemma SameLogKeepsInv(s: State, s': State)
    requires Inv(s) && s'.feed == s.feed && s'.log == s.log && s'.cursors == s.cursors
    ensures Inv(s')
  {
    assert forall n :: 0 <= n < |s.log| ==> Chained(s, n) ==> Chained(s', n);
  }

  lemma NewestIsChained(s: State, s': State, c: Composition)
    requires CursorsAgree(s) && s'.log == s.log + [c]
    requires c.since == c.clamp || (c.key in s.cursors && c.since == s.cursors[c.key])
    ensures Chained(s', |s.log|)
  {
    if c.since != c.clamp {
      var m :| 0 <= m < |s.log| && s.log[m].key == c.key && s.log[m].cursor == s.cursors[c.key];
      assert s'.log[m] == s.log[m];
    }
  }

  lemma AppendKeepsInv(s: State, s': State, c: Composition)
    requires Inv(s) && Sound(s.feed, c)
    requires s'.feed == s.feed && s'.log == s.log + [c] && s'.cursors == s.cursors[c.key := c.cursor]
    requires c.since == c.clamp || (c.key in s.cursors && c.since == s.cursors[c.key])
    requires c.key in s.cursors ==> s.cursors[c.key] <= c.since
    ensures Inv(s')
  {
    hide LogAscends, CursorsAgree, Chained;
    forall n | 0 <= n < |s'.log|
      ensures Chained(s', n)
    {
      if n < |s.log| {
        AppendKeepsChain(s, s', c, n);
      } else {
        NewestIsChained(s, s', c);
      }
    }
    AppendKeepsOrder(s, s', c);
    AppendKeepsCursors(s, s', c);
  }

  lemma AppendKeepsOrder(s: State, s': State, c: Composition)
    requires LogAscends(s) && CursorsAgree(s) && s'.log == s.log + [c]
    requires c.key in s.cursors ==> s.cursors[c.key] <= c.since
    ensures LogAscends(s')
  {
  }

  lemma AppendKeepsCursors(s: State, s': State, c: Composition)
    requires CursorsAgree(s) && s'.log == s.log + [c] && s'.cursors == s.cursors[c.key := c.cursor]
    requires c.key in s.cursors ==> s.cursors[c.key] <= c.cursor
    ensures CursorsAgree(s')
  {
    forall key | key in s'.cursors
      ensures exists n :: 0 <= n < |s'.log| && s'.log[n].key == key && s'.log[n].cursor == s'.cursors[key]
    {
      if key == c.key {
        assert s'.log[|s.log|] == c;
      } else {
        var n :| 0 <= n < |s.log| && s.log[n].key == key && s.log[n].cursor == s.cursors[key];
        assert s'.log[n] == s.log[n];
      }
    }
  }

  lemma AppendKeepsChain(s: State, s': State, c: Composition, n: nat)
    requires n < |s.log| && Chained(s, n) && s'.log == s.log + [c]
    ensures Chained(s', n)
  {
    if s.log[n].since != s.log[n].clamp {
      var m :| 0 <= m < n && s.log[m].key == s.log[n].key && s.log[m].cursor == s.log[n].since;
      assert s'.log[m] == s.log[m];
    }
  }

  lemma NewEntrySound(s: State, key: Surface, now: int, limit: int, probeFails: bool, cut: seq<nat>, c: Composition)
    requires ListRecent(s.feed, key.project, Since(s, key, now), cut)
    requires Compose(s, key, now, limit, probeFails, cut).1 == Delta(c)
    ensures Sound(s.feed, c) && c.key == key
    ensures c.since == c.clamp || (key in s.cursors && c.since == s.cursors[key])
    ensures key in s.cursors ==> s.cursors[key] <= c.since
  {
    forall i | i in c.rows
      ensures i < c.feedSize && c.since <= s.feed[i].stamp < c.cursor
    {
      var k :| 0 <= k < |cut| && cut[k] == i;
      assert InWindow(s.feed, key.project, c.since, cut[k]);
    }
  }

  lemma NextKeepsInv(s: State, s': State)
    requires Inv(s) && Next(s, s')
    ensures Inv(s')
  {
    if key, now, limit, probeFails, cut :| Composed(s, s', key, now, limit, probeFails, cut) {
      ComposeKeepsInv(s, s', key, now, limit, probeFails, cut);
    } else {
      FeedStepKeepsInv(s, s');
    }
  }

  lemma {:induction false} RunKeepsInv(states: seq<State>)
    requires Run(states)
    ensures Inv(states[|states| - 1])
    decreases |states|
  {
    if |states| > 1 {
      RunKeepsInv(states[..|states| - 1]);
      NextKeepsInv(states[|states| - 2], states[|states| - 1]);
    }
  }

  // ----- The guarantees -----

  /** At most once: in every run, two compositions on one key read disjoint rows
      and the later one starts at or after, and ends strictly after, the cursor
      the earlier one left. */
  lemma ReadsAreDisjoint(states: seq<State>, m: nat, n: nat)
    requires Run(states)
    requires var s := states[|states| - 1]; m < n && SameKey(s, m, n)
    ensures
      var (a, b) := (states[|states| - 1].log[m], states[|states| - 1].log[n]);
      && a.cursor <= b.since < b.cursor
      && forall i :: i in a.rows ==> i !in b.rows
  {
    RunKeepsInv(states);
    var s := states[|states| - 1];
    assert Sound(s.feed, s.log[m]) && Sound(s.feed, s.log[n]);
  }

  /** Why composition `c` left row `i` behind its new cursor unread: the row was
      committed only afterwards, with a stamp below the cursor; it was older than
      the clamp; the status filter dropped it; or it lay past the newest 200. */
  ghost predicate Missed(feed: seq<Row>, c: Composition, i: nat)
    requires i < |feed| && forall k :: 0 <= k < |c.cut| ==> c.cut[k] < |feed|
  {
    && feed[i].stamp < c.cursor && i !in c.rows
    && (i >= c.feedSize || feed[i].stamp < c.clamp || i in c.cut || PastTheCut(feed, c.cut, i))
  }

  ghost predicate Accounted(s: State, key: Surface, i: nat, n: nat) {
    && n < |s.log| && i < |s.feed| && s.log[n].key == key
    && (i in s.log[n].rows || (Sound(s.feed, s.log[n]) && Missed(s.feed, s.log[n], i)))
  }

  lemma {:induction false} AccountFor(s: State, key: Surface, i: nat, n: nat) returns (m: nat)
    requires Inv(s) && i < |s.feed| && s.feed[i].project == key.project
    requires n < |s.log| && s.log[n].key == key && s.feed[i].stamp < s.log[n].cursor
    ensures Accounted(s, key, i, m)
    decreases n
  {
    var c := s.log[n];
    assert Sound(s.feed, c) && Chained(s, n);
    m := n;
    if i !in c.rows && i < c.feedSize && c.clamp <= s.feed[i].stamp {
      if s.feed[i].stamp < c.since {
        var p :| 0 <= p < n && s.log[p].key == key && s.log[p].cursor == c.since;
        m := AccountFor(s, key, i, p);
      } else {
        assert InWindow(s.feed, key.project, c.since, i);
      }
    }
  }

  /** Nothing is lost silently: in every run, a row of the project is still ahead
      of the cursor, or some composition read it, or some composition passed it
      over for one of the four reasons. */
  lemma NoSilentLoss(states: seq<State>, key: Surface, i: nat)
    requires Run(states)
    requires
      var s := states[|states| - 1];
      i < |s.feed| && s.feed[i].project == key.project && key in s.cursors
    ensures
      var s := states[|states| - 1];
      s.feed[i].stamp >= s.cursors[key] || exists n :: Accounted(s, key, i, n)
  {
    RunKeepsInv(states);
    var s := states[|states| - 1];
    if s.feed[i].stamp < s.cursors[key] {
      var n :| 0 <= n < |s.log| && s.log[n].key == key && s.log[n].cursor == s.cursors[key];
      var m := AccountFor(s, key, i, n);
    }
  }

  /** One composition that reads: it reads exactly the visible rows of its window
      unless they lie past the cut, and nothing it read is at or past the cursor. */
  lemma DeltaReadsItsWindow(s: State, key: Surface, now: int, limit: int, probeFails: bool, cut: seq<nat>, i: nat)
    requires ListRecent(s.feed, key.project, Since(s, key, now), cut) && i < |s.feed|
    requires Compose(s, key, now, limit, probeFails, cut).1.Delta?
    ensures
      var c := Compose(s, key, now, limit, probeFails, cut).1.composition;
      i in c.rows <==>
        && InWindow(s.feed, key.project, Since(s, key, now), i) && s.feed[i].Visible()
        && (i in cut || |cut| < 200 || exists k :: 0 <= k < |cut| && s.feed[cut[k]].stamp < s.feed[i].stamp)
  {
    if i in cut {
      var k :| 0 <= k < |cut| && cut[k] == i;
      assert InWindow(s.feed, key.project, Since(s, key, now), cut[k]);
    }
  }

  /** The probe compares strictly and the listing does not, so the heartbeat stays
      calm over an unread visible row exactly when such a row is stamped precisely
      at the window start and no unarchived row is stamped after it. */
  lemma CalmHidesOnlyTheBoundary(s: State, key: Surface, now: int, limit: int, cut: seq<nat>)
    requires ListRecent(s.feed, key.project, Since(s, key, now), cut)
    requires key.Heartbeat? && ValidKey(key)
    requires !RateLimiter.Decide(s.beats, (key.project, key.agent), limit, now).1
    ensures
      var since := Since(s, key, now);
      && (Compose(s, key, now, limit, false, cut).1 == Calm && (exists i :: InWindow(s.feed, key.project, since, i) && s.feed[i].Visible()))
      <==>
         (!ExistsSince(s.feed, key.project, since) &&
          exists i :: InWindow(s.feed, key.project, since, i) && s.feed[i].Visible() && s.feed[i].stamp == since)
  {
    var since := Since(s, key, now);
    if !ExistsSince(s.feed, key.project, since) {
      forall i | InWindow(s.feed, key.project, since, i) && s.feed[i].Visible()
        ensures s.feed[i].stamp == since
      {
      }
    }
  }

  lemma FirstTwoAdmitted(key: RateLimiter.Key, limit: int, first: int, now: int)
    requires limit > 1
    ensures RateLimiter.Decide(map[], key, limit, first) == (map[key := [first]], false)
    ensures !RateLimiter.Decide(map[key := [first]], key, limit, now).1
  {
    var one: seq<int> := [first];
    assert one[1..] == [] && [] + one == one;
    assert RateLimiter.Prune(one, now - RateLimiter.WINDOW) in {one, RateLimiter.Prune(one[1..], now - RateLimiter.WINDOW)};
  }

  lemma OneRowListed(row: Row, project: string, since: int)
    requires row.project == project && row.Visible() && since < row.stamp
    ensures ListRecent([row], project, since, [0]) && ExistsSince([row], project, since)
    ensures VisibleRows([row], [0]) == [0] && HighWater([row], [0], since) == row.stamp
  {
    assert InWindow([row], project, since, 0);
    assert [0][..0] == [] && [row][0] == row;
    assert VisibleRows([row], []) == [];
  }

  /** A first beat over one visible row of the project reads it. */
  lemma FirstBeat(s: State, row: Row, key: Surface, now: int, limit: int)
    requires s == State([row], map[], map[], map[], []) && key.Heartbeat? && ValidKey(key) && limit > 1
    requires row.project == key.project && row.Visible() && now - CLAMP < row.stamp <= now
    ensures ListRecent(s.feed, key.project, Since(s, key, now), [0])
    ensures
      var s' := Compose(s, key, now, limit, false, [0]).0;
      && s'.feed == [row] && CursorOf(s', key) == Some(row.stamp + 1)
      && s'.beats == map[(key.project, key.agent) := [now]]
      && |s'.log| == 1 && s'.log[0].rows == [0]
  {
    hide ValidKey, ExistsSince, ListRecent, RateLimiter.Decide, HighWater, VisibleRows;
    FirstTwoAdmitted((key.project, key.agent), limit, now, now);
    assert Since(s, key, now) == now - CLAMP;
    OneRowListed(row, key.project, now - CLAMP);
  }

  /** The next beat is calm when nothing lies past the cursor, and reads nothing. */
  lemma CalmBeat(s: State, key: Surface, now: int, limit: int, first: int)
    requires key.Heartbeat? && ValidKey(key) && limit > 1 && s.beats == map[(key.project, key.agent) := [first]]
    requires !ExistsSince(s.feed, key.project, Since(s, key, now)) && |s.feed| > 1
    ensures Compose(s, key, now, limit, false, [1]).1 == Calm
    ensures
      var s' := Compose(s, key, now, limit, false, [1]).0;
      s'.log == s.log && s'.feed == s.feed && s'.cursors == s.cursors
  {
    hide ValidKey, ExistsSince, RateLimiter.Decide;
    FirstTwoAdmitted((key.project, key.agent), limit, first, now);
  }

  lemma BoundaryListed(s: State, key: Surface, now: int)
    requires |s.feed| == 2 && s.feed[0].project == s.feed[1].project == key.project && s.feed[0].stamp < s.feed[1].stamp
    requires CursorOf(s, key) == Some(s.feed[1].stamp) && now - CLAMP < s.feed[1].stamp
    ensures
      var since := Since(s, key, now);
      since == s.feed[1].stamp && InWindow(s.feed, key.project, since, 1)
      && ListRecent(s.feed, key.project, since, [1]) && !ExistsSince(s.feed, key.project, since)
  {
    assert InWindow(s.feed, key.project, s.feed[1].stamp, 1);
  }

  lemma ComposedIsNext(s: State, s': State, key: Surface, now: int, limit: int, probeFails: bool, cut: seq<nat>)
    requires ListRecent(s.feed, key.project, Since(s, key, now), cut)
    requires s' == Compose(s, key, now, limit, probeFails, cut).0
    ensures Composed(s, s', key, now, limit, probeFails, cut) && Next(s, s')
  {
    hide Compose, ListRecent;
    assert Composed(s, s', key, now, limit, probeFails, cut);
  }

  lemma CommitIsNext(s: State, s': State, row: Row)
    requires s' == s.(feed := s.feed + [row])
    ensures Next(s, s')
  {
    assert Committed(s, s', row);
  }

  lemma NamesAreValid()
    ensures ValidKey(Heartbeat("p", "me"))
  {
    StripId("p");
    StripId("me");
  }

  /** Such a row occurs in a run: a row is read, the next row lands on the microsecond
      the cursor moved to, and the beat after it is calm with that row unread. */
  lemma BoundaryRowIsHeldBack() returns (states: seq<State>)
    ensures Run(states) && |states| == 5
    ensures
      var (key, before, after) := (Heartbeat("p", "me"), states[3], states[4]);
      && Composed(before, after, key, 20, 30, false, [1]) && Compose(before, key, 20, 30, false, [1]).1 == Calm
      && |after.feed| == 2 && after.feed[1].Visible() && InWindow(after.feed, "p", Since(after, key, 20), 1)
      && forall n :: 0 <= n < |after.log| ==> 1 !in after.log[n].rows
  {
    hide Compose, Composed, Next, ValidKey, ListRecent, ExistsSince, InWindow, Since, CursorOf;
    var (first, second, key) := (Row("p", "a", 10, false, false), Row("p", "a", 11, false, false), Heartbeat("p", "me"));
    NamesAreValid();
    var s0 := State([], map[], map[], map[], []);
    var s1 := s0.(feed := [first]);
    CommitIsNext(s0, s1, first);
    FirstBeat(s1, first, key, 15, 30);
    var s2 := Compose(s1, key, 15, 30, false, [0]).0;
    ComposedIsNext(s1, s2, key, 15, 30, false, [0]);
    var s3 := s2.(feed := [first, second]);
    CommitIsNext(s2, s3, second);
    SameCursor(s2, s3, key, 20);
    BoundaryListed(s3, key, 20);
    CalmBeat(s3, key, 20, 30, 15);
    var s4 := Compose(s3, key, 20, 30, false, [1]).0;
    ComposedIsNext(s3, s4, key, 20, 30, false, [1]);
    SameCursor(s3, s4, key, 20);
    states := [s0, s1, s2, s3, s4];
  }

  lemma SameCursor(s: State, s': State, key: Surface, now: int)
    requires s.cursors == s'.cursors
    ensures CursorOf(s, key) == CursorOf(s', key) && Since(s, key, now) == Since(s', key, now)
  {
  }

  // ----- The rate cap, over runs with a clock -----

  /** One composition call as its caller sees it. */
  datatype Call = Call(key: Surface, now: int, outcome: Outcome)

  datatype Caps = Caps(beats: int, turns: int)

  function CapOf(caps: Caps, key: Surface): int {
    if key.Heartbeat? then caps.beats else caps.turns
  }

  function CallerOf(key: Surface): RateLimiter.Key {
    (key.project, key.agent)
  }

  /** One caller on one surface, whatever the session. */
  predicate SameCaller(a: Surface, b: Surface) {
    a.Heartbeat? == b.Heartbeat? && CallerOf(a) == CallerOf(b)
  }

  ghost predicate Called(s: State, s': State, caps: Caps, c: Call) {
    exists probeFails, cut :: CalledWith(s, s', caps, c, probeFails, cut)
  }

  ghost predicate CalledWith(s: State, s': State, caps: Caps, c: Call, probeFails: bool, cut: seq<nat>) {
    && Composed(s, s', c.key, c.now, CapOf(caps, c.key), probeFails, cut)
    && c.outcome == Compose(s, c.key, c.now, CapOf(caps, c.key), probeFails, cut).1
  }

  ghost predicate FeedMoved(s: State, s': State) {
    (exists row :: Committed(s, s', row))
    || (exists i, archived, quarantined :: StatusChanged(s, s', i, archived, quarantined))
  }

  ghost predicate ClockAscends(calls: seq<Option<Call>>) {
    forall i, j :: 0 <= i < j < |calls| && calls[i].Some? && calls[j].Some? ==> calls[i].value.now <= calls[j].value.now
  }

  /** A run with the calls made in it: step `k` is call `k`, or moves the feed. */
  ghost predicate TimedRun(caps: Caps, states: seq<State>, calls: seq<Option<Call>>) {
    && |states| == |calls| + 1 && Init(states[0]) && states[0].beats == map[] && states[0].turns == map[]
    && ClockAscends(calls)
    && forall k :: 0 <= k < |calls| ==> TimedStep(caps, states[k], states[k + 1], calls[k])
  }

  ghost predicate TimedStep(caps: Caps, s: State, s': State, c: Option<Call>) {
    if c.Some? then Called(s, s', caps, c.value) else FeedMoved(s, s')
  }

  /** Timed runs are runs, so everything above holds of them. */
  lemma TimedRunIsRun(caps: Caps, states: seq<State>, calls: seq<Option<Call>>)
    requires TimedRun(caps, states, calls)
    ensures Run(states)
  {
    hide Compose, Committed, StatusChanged, Composed;
    forall k | 0 <= k < |states| - 1
      ensures Next(states[k], states[k + 1])
    {
      assert TimedStep(caps, states[k], states[k + 1], calls[k]);
      if calls[k].Some? {
        var probeFails, cut :| CalledWith(states[k], states[k + 1], caps, calls[k].value, probeFails, cut);
      }
    }
  }

  /** Let through by the cap. */
  predicate Admitted(c: Call) {
    c.outcome != Invalid && c.outcome != Suppressed(RateCap)
  }

  predicate CountsIn(c: Option<Call>, key: Surface, lo: int, hi: int) {
    c.Some? && SameCaller(c.value.key, key) && Admitted(c.value) && lo < c.value.now <= hi
  }

  /** The calls of one caller on one surface let through in (lo, hi]. */
  function AdmittedIn(calls: seq<Option<Call>>, key: Surface, lo: int, hi: int): set<nat> {
    set i | 0 <= i < |calls| && CountsIn(calls[i], key, lo, hi)
  }

  lemma AdmittedGrows(calls: seq<Option<Call>>, c: Option<Call>, key: Surface, lo: int, hi: int)
    ensures |AdmittedIn(calls + [c], key, lo, hi)|
         == |AdmittedIn(calls, key, lo, hi)| + (if CountsIn(c, key, lo, hi) then 1 else 0)
  {
    var (before, after) := (AdmittedIn(calls, key, lo, hi), AdmittedIn(calls + [c], key, lo, hi));
    assert after == before + (if CountsIn(c, key, lo, hi) then {|calls|} else {});
    assert |calls| !in before;
  }

  /** What the limiter of `key`'s surface is asked, and what it lets through. */
  function Asked(calls: seq<Option<Call>>, key: Surface): seq<RateLimiter.Call> {
    if calls == [] then []
    else Asked(calls[..|calls| - 1], key) + AskedBy(calls[|calls| - 1], key)
  }

  function AskedBy(c: Option<Call>, key: Surface): seq<RateLimiter.Call> {
    if c.Some? && c.value.key.Heartbeat? == key.Heartbeat? && ValidKey(c.value.key)
    then [RateLimiter.Call(CallerOf(c.value.key), c.value.now)] else []
  }

  function LetThrough(calls: seq<Option<Call>>, key: Surface): seq<RateLimiter.Call> {
    if calls == [] then []
    else LetThrough(calls[..|calls| - 1], key) + LetThroughBy(calls[|calls| - 1], key)
  }

  function LetThroughBy(c: Option<Call>, key: Surface): seq<RateLimiter.Call> {
    if c.Some? && c.value.key.Heartbeat? == key.Heartbeat? && Admitted(c.value)
    then [RateLimiter.Call(CallerOf(c.value.key), c.value.now)] else []
  }

  lemma {:induction false} AdmittedIsCounted(calls: seq<Option<Call>>, key: Surface, lo: int, hi: int)
    ensures |AdmittedIn(calls, key, lo, hi)|
         == RateLimiter.CountIn(RateLimiter.History(LetThrough(calls, key), CallerOf(key)), lo, hi)
  {
    if calls == [] {
      assert AdmittedIn(calls, key, lo, hi) == {};
    } else {
      var (front, c) := (calls[..|calls| - 1], calls[|calls| - 1]);
      assert calls == front + [c];
      AdmittedIsCounted(front, key, lo, hi);
      AdmittedGrows(front, c, key, lo, hi);
      if LetThroughBy(c, key) != [] {
        RateLimiter.HistoryAppend(LetThrough(front, key), LetThroughBy(c, key)[0], CallerOf(key));
        var h := RateLimiter.History(LetThrough(front, key), CallerOf(key));
        assert (h + [c.value.now])[..|h|] == h;
        assert h + [] == h;
      } else {
        assert LetThrough(front, key) + [] == LetThrough(front, key);
      }
    }
  }

  /** The limiter's part of one call. */
  lemma CallAsks(s: State, s': State, caps: Caps, c: Call, key: Surface)
    requires Called(s, s', caps, c)
    ensures
      var (ledger, refused) := RateLimiter.Decide(LedgerOf(s, c.key), CallerOf(c.key), CapOf(caps, c.key), c.now);
      && (c.outcome == Invalid <==> !ValidKey(c.key))
      && (ValidKey(c.key) ==> (c.outcome == Suppressed(RateCap) <==> refused))
      && LedgerOf(s', key) ==
           (if c.key.Heartbeat? == key.Heartbeat? && ValidKey(c.key) then ledger else LedgerOf(s, key))
  {
    hide ValidKey, RateLimiter.Decide, ExistsSince, ReadDelta, Since, ListRecent;
    var probeFails, cut :| CalledWith(s, s', caps, c, probeFails, cut);
  }

  lemma {:induction false} LedgerIsTheHistory(caps: Caps, states: seq<State>, calls: seq<Option<Call>>, key: Surface, k: nat)
    requires TimedRun(caps, states, calls) && k <= |calls|
    ensures RateLimiter.After(CapOf(caps, key), Asked(calls[..k], key))
         == RateLimiter.State(LedgerOf(states[k], key), LetThrough(calls[..k], key))
  {
    hide ValidKey, RateLimiter.Decide, Called, FeedMoved;
    if k > 0 {
      LedgerIsTheHistory(caps, states, calls, key, k - 1);
      var (s, s', c) := (states[k - 1], states[k], calls[k - 1]);
      assert calls[..k][..k - 1] == calls[..k - 1];
      assert TimedStep(caps, s, s', c);
      if c.Some? {
        CallAsks(s, s', caps, c.value, key);
      } else {
        FeedLeavesLedgers(s, s', key);
      }
      assert calls[..k][k - 1] == c;
      var (asked, let) := (Asked(calls[..k - 1], key), LetThrough(calls[..k - 1], key));
      if AskedBy(c, key) != [] {
        AskedOneMore(CapOf(caps, key), asked, AskedBy(c, key)[0]);
        assert let + [] == let;
      } else {
        assert asked + [] == asked && let + [] == let;
      }
    }
  }

  lemma AskedOneMore(limit: int, asked: seq<RateLimiter.Call>, c: RateLimiter.Call)
    ensures RateLimiter.After(limit, asked + [c]) == RateLimiter.Step(RateLimiter.After(limit, asked), limit, c)
  {
    assert (asked + [c])[..|asked|] == asked;
  }

  lemma FeedLeavesLedgers(s: State, s': State, key: Surface)
    requires FeedMoved(s, s')
    ensures LedgerOf(s', key) == LedgerOf(s, key) && s'.log == s.log && s'.cursors == s.cursors
  {
  }

  lemma {:induction false} AskedAscends(calls: seq<Option<Call>>, key: Surface, now: int)
    requires ClockAscends(calls)
    requires forall i :: 0 <= i < |calls| && calls[i].Some? ==> calls[i].value.now <= now
    ensures RateLimiter.ClockAscends(Asked(calls, key))
    ensures forall i :: 0 <= i < |Asked(calls, key)| ==> Asked(calls, key)[i].now <= now
  {
    if calls != [] {
      var (front, c) := (calls[..|calls| - 1], calls[|calls| - 1]);
      if c.Some? {
        AskedAscends(front, key, c.value.now);
      } else {
        AskedAscends(front, key, now);
      }
    }
  }

  /** In every run with an ascending clock a valid call is suppressed by the cap if and
      only if, the cap being on, at least as many calls of the same project and agent
      were let through on that surface in the last 60 seconds; and then neither cursor
      nor log nor feed moves. */
  lemma CapSuppressesExactly(caps: Caps, states: seq<State>, calls: seq<Option<Call>>, k: nat)
    requires TimedRun(caps, states, calls) && k < |calls| && calls[k].Some?
    ensures
      var (c, cap) := (calls[k].value, CapOf(caps, calls[k].value.key));
      && (c.outcome == Suppressed(RateCap) <==>
            ValidKey(c.key) && cap > 0
            && |AdmittedIn(calls[..k], c.key, c.now - 60_000_000, c.now)| >= cap)
      && (c.outcome == Suppressed(RateCap) ==>
            states[k + 1].cursors == states[k].cursors && states[k + 1].log == states[k].log
            && states[k + 1].feed == states[k].feed)
  {
    hide ValidKey, RateLimiter.Decide, RateLimiter.After, Asked, LetThrough, AdmittedIn, Called;
    var (c, front) := (calls[k].value, calls[..k]);
    assert TimedStep(caps, states[k], states[k + 1], calls[k]);
    CallAsks(states[k], states[k + 1], caps, c, c.key);
    LedgerIsTheHistory(caps, states, calls, c.key, k);
    AskedAscends(front, c.key, c.now);
    var asked := Asked(front, c.key);
    RateLimiter.DecidesByHistory(CapOf(caps, c.key), asked, CallerOf(c.key), c.now);
    AdmittedIsCounted(front, c.key, c.now - RateLimiter.WINDOW, c.now);
    if !c.outcome.Delta? {
      SuppressionMovesNothing(states[k], states[k + 1], caps, c);
    }
  }

  lemma SuppressionMovesNothing(s: State, s': State, caps: Caps, c: Call)
    requires Called(s, s', caps, c) && !c.outcome.Delta?
    ensures s'.cursors == s.cursors && s'.log == s.log && s'.feed == s.feed
  {
    hide ValidKey, RateLimiter.Decide, ExistsSince, ReadDelta, Since, ListRecent;
    var probeFails, cut :| CalledWith(s, s', caps, c, probeFails, cut);
  }

  /** A call is invalid exactly if its project, agent or session is nothing but whitespace,
      and changes nothing then. */
  lemma InvalidExactly(s: State, s': State, caps: Caps, c: Call)
    requires Called(s, s', caps, c)
    ensures c.outcome == Invalid <==>
      AllSpace(c.key.project) || AllSpace(c.key.agent) || (c.key.Turn? && AllSpace(c.key.session))
    ensures c.outcome == Invalid ==> s' == s
  {
    hide RateLimiter.Decide, ExistsSince, ReadDelta, Since, ListRecent, Strip, AllSpace;
    var probeFails, cut :| CalledWith(s, s', caps, c, probeFails, cut);
    StripInk(c.key.project);
    StripInk(c.key.agent);
    if c.key.Turn? {
      StripInk(c.key.session);
    }
  }

  /** And below the cap a valid call is delivered, unless the probe of a heartbeat fails
      or finds nothing past the cursor, or the window would open in the future. */
  lemma DeliveredExactly(caps: Caps, states: seq<State>, calls: seq<Option<Call>>, k: nat, probeFails: bool, cut: seq<nat>)
    requires TimedRun(caps, states, calls) && k < |calls| && calls[k].Some?
    requires CalledWith(states[k], states[k + 1], caps, calls[k].value, probeFails, cut)
    ensures
      var (s, c, cap) := (states[k], calls[k].value, CapOf(caps, calls[k].value.key));
      var hourAgo := c.now - 3_600_000_000;
      var since := if c.key in s.cursors && s.cursors[c.key] > hourAgo then s.cursors[c.key] else hourAgo;
      c.outcome.Delta? <==>
        && ValidKey(c.key)
        && (cap <= 0 || |AdmittedIn(calls[..k], c.key, c.now - 60_000_000, c.now)| < cap)
        && (c.key.Heartbeat? ==> !probeFails && ExistsSince(s.feed, c.key.project, since))
        && since <= c.now
  {
    hide ValidKey, RateLimiter.Decide, ExistsSince, ReadDelta, ListRecent, AdmittedIn;
    CapSuppressesExactly(caps, states, calls, k);
    CallAsks(states[k], states[k + 1], caps, calls[k].value, calls[k].value.key);
  }

  // ----- Deliveries in a window -----

  predicate DeliveryIn(c: Composition, key: Surface, lo: int, hi: int) {
    SameCaller(c.key, key) && lo < c.clamp + CLAMP <= hi
  }

  /** The deliveries of one caller on one surface in (lo, hi]. */
  function DeliveriesIn(log: seq<Composition>, key: Surface, lo: int, hi: int): set<nat> {
    set n | 0 <= n < |log| && DeliveryIn(log[n], key, lo, hi)
  }

  lemma DeliveriesGrow(log: seq<Composition>, c: Composition, key: Surface, lo: int, hi: int)
    ensures |DeliveriesIn(log + [c], key, lo, hi)|
         == |DeliveriesIn(log, key, lo, hi)| + (if DeliveryIn(c, key, lo, hi) then 1 else 0)
  {
    var (before, after) := (DeliveriesIn(log, key, lo, hi), DeliveriesIn(log + [c], key, lo, hi));
    assert after == before + (if DeliveryIn(c, key, lo, hi) then {|log|} else {});
    assert |log| !in before;
  }

  lemma DeliveryIsLogged(s: State, s': State, caps: Caps, c: Call)
    requires Called(s, s', caps, c) && c.outcome.Delta?
    ensures s'.log == s.log + [c.outcome.composition]
    ensures c.outcome.composition.key == c.key && c.outcome.composition.clamp + CLAMP == c.now
  {
    hide ValidKey, RateLimiter.Decide, ExistsSince, ListRecent;
    var probeFails, cut :| CalledWith(s, s', caps, c, probeFails, cut);
  }

  lemma {:induction false} DeliveriesAreAdmitted(caps: Caps, states: seq<State>, calls: seq<Option<Call>>, k: nat,
                                                 key: Surface, lo: int, hi: int)
    requires TimedRun(caps, states, calls) && k <= |calls|
    ensures |DeliveriesIn(states[k].log, key, lo, hi)| <= |AdmittedIn(calls[..k], key, lo, hi)|
  {
    hide Called, FeedMoved, DeliveriesIn, AdmittedIn;
    if k == 0 {
      NoDeliveries(key, lo, hi);
    } else {
      var (s, s', c) := (states[k - 1], states[k], calls[k - 1]);
      DeliveriesAreAdmitted(caps, states, calls, k - 1, key, lo, hi);
      assert calls[..k] == calls[..k - 1] + [c];
      AdmittedGrows(calls[..k - 1], c, key, lo, hi);
      assert TimedStep(caps, s, s', c);
      if c.None? {
        FeedLeavesLedgers(s, s', key);
      } else if c.value.outcome.Delta? {
        DeliveryIsLogged(s, s', caps, c.value);
        DeliveriesGrow(s.log, c.value.outcome.composition, key, lo, hi);
      } else {
        SuppressionMovesNothing(s, s', caps, c.value);
      }
    }
  }

  lemma NoDeliveries(key: Surface, lo: int, hi: int)
    ensures DeliveriesIn([], key, lo, hi) == {}
  {
  }

  /** So with the cap on no 60-second window holds more deliveries to one project and
      agent on one surface than the cap allows. */
  lemma DeliveriesAreCapped(caps: Caps, states: seq<State>, calls: seq<Option<Call>>, k: nat, key: Surface, hi: int)
    requires TimedRun(caps, states, calls) && k <= |calls| && CapOf(caps, key) > 0
    ensures |DeliveriesIn(states[k].log, key, hi - 60_000_000, hi)| <= CapOf(caps, key)
  {
    hide DeliveriesIn, AdmittedIn, Called, FeedMoved, RateLimiter.After, Asked, LetThrough;
    var front := calls[..k];
    DeliveriesAreAdmitted(caps, states, calls, k, key, hi - RateLimiter.WINDOW, hi);
    AdmittedIsCounted(front, key, hi - RateLimiter.WINDOW, hi);
    LedgerIsTheHistory(caps, states, calls, key, k);
    var latest := LatestOf(front);
    AskedAscends(front, key, latest);
    RateLimiter.WindowBound(CapOf(caps, key), Asked(front, key), CallerOf(key), hi);
  }

  lemma {:induction false} LatestOf(calls: seq<Option<Call>>) returns (latest: int)
    ensures forall i :: 0 <= i < |calls| && calls[i].Some? ==> calls[i].value.now <= latest
  {
    latest := 0;
    if calls != [] {
      latest := LatestOf(calls[..|calls| - 1]);
      var c := calls[|calls| - 1];
      if c.Some? && c.value.now > latest {
        latest := c.value.now;
      }
    }
  }
}
