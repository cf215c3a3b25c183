/** The `on_context_rewrite` event: content-addressed idempotency, two write
    quotas, `supersedes` edges. The digest is idealised to the text it is taken
    over, so equal keys are equal canonical texts. Times are microseconds. */
module RewriteEvents {
  import opened Text

  const MINUTE: int := 60_000_000

  datatype Event = Event(project: string, agent: string, session: Option<string>, supersedes: Option<string>, content: string)

  // ----- The event key -----

  function OrEmpty(s: Option<string>): string {
    if s.Some? then s.value else ""
  }

  /** Every part behind its length and a colon. */
  function LengthPrefixed(parts: seq<string>): string {
    if parts == [] then ""
    else Decimal(|parts[0]|) + ":" + parts[0] + LengthPrefixed(parts[1..])
  }

  function EventKey(e: Event): string {
    LengthPrefixed([e.project, e.agent, OrEmpty(e.session), OrEmpty(e.supersedes), e.content])
  }

  /** `_validate` */
  predicate ValidEvent(e: Event, maxContent: int) {
    && !BlankText(e.content) && |e.content| <= maxContent && !BlankText(e.project) && !BlankText(e.agent)
    && (e.session.Some? ==> !BlankText(e.session.value)) && (e.supersedes.Some? ==> !BlankText(e.supersedes.value))
  }

  lemma DecimalFreeOfColon(n: nat)
    ensures Free(Decimal(n), ':')
  {
    forall i | 0 <= i < |Decimal(n)|
      ensures Decimal(n)[i] != ':'
    {
      assert IsDigit(Decimal(n)[i]);
    }
  }

  lemma FirstSeparator(a: string, c: char, x: string, b: string, y: string)
    requires Free(a, c) && Free(b, c) && a + [c] + x == b + [c] + y
    ensures a == b && x == y
  {
    SplitFirst(a, c, x);
    SplitFirst(b, c, y);
    assert a == ([a] + Split(x, c))[0] && b == ([b] + Split(y, c))[0];
    assert x == (a + [c] + x)[|a| + 1..] && y == (b + [c] + y)[|b| + 1..];
  }

  lemma SamePart(d: string, p: string, x: string, d': string, q: string, y: string)
    requires d + ":" + p + x == d' + ":" + q + y && Free(d, ':') && Free(d', ':')
    ensures d == d' && p + x == q + y
  {
    assert d + ":" + p + x == d + [':'] + (p + x);
    assert d' + ":" + q + y == d' + [':'] + (q + y);
    FirstSeparator(d, ':', p + x, d', q + y);
  }

  lemma OnePart(p: string, x: string, q: string, y: string)
    requires Decimal(|p|) + ":" + p + x == Decimal(|q|) + ":" + q + y
    ensures p == q && x == y
  {
    hide Decimal;
    DecimalFreeOfColon(|p|);
    DecimalFreeOfColon(|q|);
    SamePart(Decimal(|p|), p, x, Decimal(|q|), q, y);
    DecimalValue(|p|);
    DecimalValue(|q|);
    assert p == (p + x)[..|p|] && q == (q + y)[..|q|];
    assert x == (p + x)[|p|..] && y == (q + y)[|q|..];
  }

  /** Whatever the parts hold, digits and colons included, the text gives them back. */
  lemma {:induction false} LengthPrefixedInjective(ps: seq<string>, qs: seq<string>)
    requires |ps| == |qs| && LengthPrefixed(ps) == LengthPrefixed(qs)
    ensures ps == qs
  {
    if ps != [] {
      OnePart(ps[0], LengthPrefixed(ps[1..]), qs[0], LengthPrefixed(qs[1..]));
      LengthPrefixedInjective(ps[1..], qs[1..]);
      assert ps == [ps[0]] + ps[1..] && qs == [qs[0]] + qs[1..];
    }
  }

  /** Two validated events have one key exactly when they are one event. */
  lemma KeysIdentifyEvents(e: Event, e': Event, max: int, max': int)
    requires ValidEvent(e, max) && ValidEvent(e', max')
    ensures EventKey(e) == EventKey(e') <==> e == e'
  {
    if EventKey(e) == EventKey(e') {
      var ps := [e.project, e.agent, OrEmpty(e.session), OrEmpty(e.supersedes), e.content];
      var qs := [e'.project, e'.agent, OrEmpty(e'.session), OrEmpty(e'.supersedes), e'.content];
      LengthPrefixedInjective(ps, qs);
      assert ps[0] == qs[0] && ps[1] == qs[1] && ps[2] == qs[2] && ps[3] == qs[3] && ps[4] == qs[4];
      assert BlankText("");
    }
  }

  /** Without the validation an absent and an empty session would share a key. */
  lemma EmptySessionWouldCollide(e: Event)
    requires e.session == Some("")
    ensures e != e.(session := None) && EventKey(e) == EventKey(e.(session := None)) && !ValidEvent(e, |e.content|)
  {
    assert BlankText("");
  }

  // ----- The store -----

  /** A stored memory; `event` is the rewrite it came from, if any, and `born` its
      place in the order of storing. */
  datatype Memory = Memory(project: string, stamp: int, born: nat, event: Option<Event>)

  /** `ids` are all ids ever handed out, `edges` the `supersedes` edges. */
  datatype State = State(
    memories: map<string, Memory>, edges: set<(string, string)>, ids: set<string>, next: nat, clock: int)

  datatype Config = Config(sessionLimit: int, projectLimit: int, maxContent: int)

  datatype Outcome =
    | Invalid | SessionLimited | ProjectLimited | TargetMissing
    | Deduplicated(id: string, created: Option<bool>)
    | Stored(id: string, created: Option<bool>)

  function ByKey(s: State, key: string): set<string> {
    set id | id in s.memories && s.memories[id].event.Some? && EventKey(s.memories[id].event.value) == key
  }

  /** Rewrite memories of one project and session stamped at or after `since`. */
  function SessionSince(s: State, project: string, session: Option<string>, since: int): set<string> {
    set id | id in s.memories && s.memories[id].event.Some? && s.memories[id].project == project
      && s.memories[id].event.value.session == session && since <= s.memories[id].stamp
  }

  function ProjectSince(s: State, project: string, since: int): set<string> {
    set id | id in s.memories && s.memories[id].event.Some? && s.memories[id].project == project
      && since <= s.memories[id].stamp
  }

  /** Those stamped in the closed minute up to `hi`. */
  function InSession(s: State, project: string, session: Option<string>, hi: int): set<string> {
    set id | id in s.memories && s.memories[id].event.Some? && s.memories[id].project == project
      && s.memories[id].event.value.session == session && hi - 60_000_000 <= s.memories[id].stamp <= hi
  }

  function InProject(s: State, project: string, hi: int): set<string> {
    set id | id in s.memories && s.memories[id].event.Some? && s.memories[id].project == project
      && hi - 60_000_000 <= s.memories[id].stamp <= hi
  }

  /** `_link_supersedes`: the state after and whether an edge was inserted; `None`
      is the foreign-key error. */
  function Link(s: State, from: string, target: Option<string>): (State, Option<Option<bool>>) {
    match target
    case None => (s, Some(None))
    case Some(to) =>
      if from !in s.memories || to !in s.memories || from == to then (s, None)
      else (s.(edges := s.edges + {(from, to)}), Some(Some((from, to) !in s.edges)))
  }

  function WithMemory(s: State, e: Event, now: int, id: string): State {
    s.(memories := s.memories[id := Memory(e.project, now, s.next, Some(e))],
       ids := s.ids + {id}, next := s.next + 1, clock := now)
  }

  predicate TargetKnown(s: State, e: Event) {
    e.supersedes.Some? ==> e.supersedes.value in s.memories && s.memories[e.supersedes.value].project == e.project
  }

  /** What the checks before the write decide: refuse, or write. */
  function Refusal(config: Config, s: State, e: Event, now: int): Option<Outcome> {
    if config.sessionLimit > 0 && |SessionSince(s, e.project, e.session, now - MINUTE)| >= config.sessionLimit then
      Some(SessionLimited)
    else if config.projectLimit > 0 && |ProjectSince(s, e.project, now - MINUTE)| >= config.projectLimit then
      Some(ProjectLimited)
    else if !TargetKnown(s, e) then Some(TargetMissing)
    else None
  }

  /** `context_rewrite`; `earliest` is the memory the key lookup returns. */
  function Deliver(config: Config, s: State, e: Event, now: int, earliest: Option<string>, id: string): (State, Outcome) {
    if !ValidEvent(e, config.maxContent) then (s, Invalid)
    else if earliest.Some? then
      var (s', link) := Link(s, earliest.value, e.supersedes);
      (s', if link.Some? then Deduplicated(earliest.value, link.value) else TargetMissing)
    else
      var refusal := Refusal(config, s, e, now);
      if refusal.Some? then (s, refusal.value)
      else
        var (s', link) := Link(WithMemory(s, e, now, id), id, e.supersedes);
        (s', if link.Some? then Stored(id, link.value) else TargetMissing)
  }

  /** `get_memory_id_by_rewrite_event_key`: a memory with the key, if there is one. */
  predicate Lookup(s: State, key: string, earliest: Option<string>) {
    if earliest.Some? then earliest.value in ByKey(s, key) else ByKey(s, key) == {}
  }

  class RewriteStore {
    const config: Config
    var memories: map<string, Memory>
    var edges: set<(string, string)>
    ghost var ids: set<string>
    var next: nat
    var clock: int

    constructor (config: Config)
      ensures this.config == config && Abstract() == State(map[], {}, {}, 0, 0)
    {
      this.config := config;
      memories, edges, ids, next, clock := map[], {}, {}, 0, 0;
    }

    ghost function Abstract(): State
      reads this
    {
      State(memories, edges, ids, next, clock)
    }

    method LinkSupersedes(from: string, to: string) returns (created: Option<bool>)
      modifies this`edges
      ensures
        var (s', link) := Link(old(Abstract()), from, Some(to));
        Abstract() == s' && link == (if created.Some? then Some(created) else None)
    {
      if from !in memories || to !in memories || from == to {
        return None;
      }
      created := Some((from, to) !in edges);
      edges := edges + {(from, to)};
    }

    method CountRecent(project: string, session: Option<string>, since: int) returns (count: nat)
      ensures count == |SessionSince(Abstract(), project, session, since)|
    {
      var recent := set m | m in memories && memories[m].event.Some? && memories[m].project == project
        && memories[m].event.value.session == session && since <= memories[m].stamp;
      assert recent == SessionSince(Abstract(), project, session, since);
      count := |recent|;
    }

    method CountRecentByProject(project: string, since: int) returns (count: nat)
      ensures count == |ProjectSince(Abstract(), project, since)|
    {
      var rows := set m | m in memories && memories[m].event.Some? && memories[m].project == project
        && since <= memories[m].stamp;
      assert rows == ProjectSince(Abstract(), project, since);
      count := |rows|;
    }

    /** One delivery; `id` is the fresh id a write would use. */
    method ContextRewrite(e: Event, now: int, earliest: Option<string>, id: string) returns (outcome: Outcome)
      requires Lookup(Abstract(), EventKey(e), earliest)
      modifies this
      ensures (Abstract(), outcome) == Deliver(config, old(Abstract()), e, now, earliest, id)
    {
      hide ValidEvent, EventKey, SessionSince, ProjectSince;
      if !ValidEvent(e, config.maxContent) {
        return Invalid;
      }
      if earliest.Some? {
        if e.supersedes.None? {
          return Deduplicated(earliest.value, None);
        }
        var created := LinkSupersedes(earliest.value, e.supersedes.value);
        return if created.Some? then Deduplicated(earliest.value, created) else TargetMissing;
      }
      if config.sessionLimit > 0 {
        var recent := CountRecent(e.project, e.session, now - MINUTE);
        if recent >= config.sessionLimit {
          return SessionLimited;
        }
      }
      if config.projectLimit > 0 {
        var rows := CountRecentByProject(e.project, now - MINUTE);
        if rows >= config.projectLimit {
          return ProjectLimited;
        }
      }
      if e.supersedes.Some? {
        if e.supersedes.value !in memories || memories[e.supersedes.value].project != e.project {
          return TargetMissing;
        }
      }
      memories := memories[id := Memory(e.project, now, next, Some(e))];
      ids := ids + {id};
      next := next + 1;
      clock := now;
      if e.supersedes.None? {
        return Stored(id, None);
      }
      var created := LinkSupersedes(id, e.supersedes.value);
      outcome := if created.Some? then Stored(id, created) else TargetMissing;
    }
  }

  // ----- Runs: deliveries, crashes, other writes and deletions in any order -----

  ghost predicate Init(s: State) {
    s.memories == map[] && s.edges == {} && s.ids == {} && s.next == 0
  }

  ghost predicate Delivered(config: Config, s: State, s': State, e: Event, now: int, earliest: Option<string>, id: string) {
    && Lookup(s, EventKey(e), earliest) && id !in s.ids && s.clock <= now
    && s' == Deliver(config, s, e, now, earliest, id).0
  }

  /** A delivery that died between the memory write and the edge write. */
  ghost predicate Cut(config: Config, s: State, s': State, e: Event, now: int, id: string) {
    && ValidEvent(e, config.maxContent) && Lookup(s, EventKey(e), None) && id !in s.ids && s.clock <= now
    && Refusal(config, s, e, now).None? && s' == WithMemory(s, e, now, id)
  }

  /** A memory stored by any other path. */
  ghost predicate OtherStored(s: State, s': State, project: string, now: int, id: string) {
    && id !in s.ids && s.clock <= now
    && s' == s.(memories := s.memories[id := Memory(project, now, s.next, None)],
                ids := s.ids + {id}, next := s.next + 1, clock := now)
  }

  /** A deletion; its edges go with it. */
  ghost predicate Deleted(s: State, s': State, id: string) {
    s' == s.(memories := s.memories - {id}, edges := set x | x in s.edges && x.0 != id && x.1 != id)
  }

  ghost predicate Next(config: Config, s: State, s': State) {
    || (exists e, now, earliest, id :: Delivered(config, s, s', e, now, earliest, id))
    || (exists e, now, id :: Cut(config, s, s', e, now, id))
    || (exists project, now, id :: OtherStored(s, s', project, now, id))
    || (exists id :: Deleted(s, s', id))
  }

  ghost predicate Run(config: Config, states: seq<State>) {
    states != [] && Init(states[0]) && forall k :: 0 <= k < |states| - 1 ==> Next(config, states[k], states[k + 1])
  }

  // ----- What every run keeps -----

  /** A memory, against the store around it. */
  ghost predicate SoundMemory(config: Config, s: State, id: string)
    requires id in s.memories
  {
    var m := s.memories[id];
    && id in s.ids && m.born < s.next && m.stamp <= s.clock
    && (m.event.Some? ==> SoundEvent(config, s, m, m.event.value))
  }

  /** Its event was valid, of its project, and named an older memory of that project. */
  ghost predicate SoundEvent(config: Config, s: State, m: Memory, e: Event) {
    && ValidEvent(e, config.maxContent) && e.project == m.project
    && (e.supersedes.Some? ==> e.supersedes.value in s.ids)
    && ((e.supersedes.Some? && e.supersedes.value in s.memories) ==> OlderSibling(s.memories[e.supersedes.value], m))
  }

  predicate OlderSibling(elder: Memory, m: Memory) {
    elder.project == m.project && elder.born < m.born
  }

  ghost predicate MemoriesSound(config: Config, s: State) {
    forall id :: id in s.memories ==> SoundMemory(config, s, id)
  }

  ghost predicate OnePerEvent(s: State) {
    forall a, b :: a in s.memories && b in s.memories && SameEvent(s.memories[a], s.memories[b]) ==> a == b
  }

  predicate SameEvent(m: Memory, m': Memory) {
    m.event.Some? && m.event == m'.event
  }

  /** Every edge leads from a memory to what its own event superseded. */
  ghost predicate EdgesSound(s: State) {
    forall x :: x in s.edges ==>
      && x.0 in s.memories && x.1 in s.memories
      && s.memories[x.0].event.Some? && s.memories[x.0].event.value.supersedes == Some(x.1)
  }

  ghost predicate Inv(config: Config, s: State) {
    MemoriesSound(config, s) && OnePerEvent(s) && EdgesSound(s)
  }

  lemma LookupIsTheEvent(config: Config, s: State, e: Event, earliest: Option<string>)
    requires MemoriesSound(config, s) && ValidEvent(e, config.maxContent) && Lookup(s, EventKey(e), earliest)
    ensures earliest.Some? ==> earliest.value in s.memories && s.memories[earliest.value].event == Some(e)
    ensures earliest.None? ==> forall id :: id in s.memories ==> s.memories[id].event != Some(e)
  {
    hide EventKey, ValidEvent;
    if earliest.Some? {
      assert SoundMemory(config, s, earliest.value);
      KeysIdentifyEvents(s.memories[earliest.value].event.value, e, config.maxContent, config.maxContent);
    } else {
      forall id | id in s.memories
        ensures s.memories[id].event != Some(e)
      {
        assert id !in ByKey(s, EventKey(e));
      }
    }
  }

  lemma IdsKnown(config: Config, s: State)
    requires MemoriesSound(config, s)
    ensures forall m :: m in s.memories ==> m in s.ids
  {
    forall m | m in s.memories
      ensures m in s.ids
    {
      assert SoundMemory(config, s, m);
    }
  }

  lemma WriteKeeps(config: Config, s: State, e: Event, now: int, id: string)
    requires Inv(config, s) && ValidEvent(e, config.maxContent) && id !in s.ids && s.clock <= now && TargetKnown(s, e)
    requires forall m :: m in s.memories ==> s.memories[m].event != Some(e)
    ensures Inv(config, WithMemory(s, e, now, id))
  {
    hide ValidEvent;
    var s' := WithMemory(s, e, now, id);
    IdsKnown(config, s);
    forall m | m in s'.memories
      ensures SoundMemory(config, s', m)
    {
      if m != id {
        assert SoundMemory(config, s, m);
      } else if e.supersedes.Some? {
        assert SoundMemory(config, s, e.supersedes.value);
      }
    }
  }

  lemma LinkKeeps(config: Config, s: State, from: string, e: Event)
    requires Inv(config, s) && from in s.memories && s.memories[from].event == Some(e)
    ensures Inv(config, Link(s, from, e.supersedes).0)
  {
    hide ValidEvent;
    var s' := Link(s, from, e.supersedes).0;
    forall m | m in s'.memories
      ensures SoundMemory(config, s', m)
    {
      assert SoundMemory(config, s, m);
    }
  }

  lemma DeliverKeeps(config: Config, s: State, s': State, e: Event, now: int, earliest: Option<string>, id: string)
    requires Inv(config, s) && Delivered(config, s, s', e, now, earliest, id)
    ensures Inv(config, s')
  {
    hide ValidEvent, EventKey;
    if ValidEvent(e, config.maxContent) {
      LookupIsTheEvent(config, s, e, earliest);
      if earliest.Some? {
        LinkKeeps(config, s, earliest.value, e);
      } else if Refusal(config, s, e, now).None? {
        WriteKeeps(config, s, e, now, id);
        LinkKeeps(config, WithMemory(s, e, now, id), id, e);
      }
    }
  }

  lemma DeleteKeeps(config: Config, s: State, s': State, id: string)
    requires Inv(config, s) && Deleted(s, s', id)
    ensures Inv(config, s')
  {
    hide ValidEvent;
    forall m | m in s'.memories
      ensures SoundMemory(config, s', m)
    {
      assert SoundMemory(config, s, m);
    }
  }

  lemma OtherKeeps(config: Config, s: State, s': State, project: string, now: int, id: string)
    requires Inv(config, s) && OtherStored(s, s', project, now, id)
    ensures Inv(config, s')
  {
    hide ValidEvent;
    IdsKnown(config, s);
    forall m | m in s'.memories
      ensures SoundMemory(config, s', m)
    {
      if m != id {
        assert SoundMemory(config, s, m);
      }
    }
  }

  lemma NextKeeps(config: Config, s: State, s': State)
    requires Inv(config, s) && Next(config, s, s')
    ensures Inv(config, s')
  {
    hide ValidEvent, EventKey, Lookup, Refusal;
    if e, now, earliest, id :| Delivered(config, s, s', e, now, earliest, id) {
      DeliverKeeps(config, s, s', e, now, earliest, id);
    } else if e, now, id :| Cut(config, s, s', e, now, id) {
      CutKeeps(config, s, s', e, now, id);
    } else if project, now, id :| OtherStored(s, s', project, now, id) {
      OtherKeeps(config, s, s', project, now, id);
    } else {
      var id :| Deleted(s, s', id);
      DeleteKeeps(config, s, s', id);
    }
  }

  lemma CutKeeps(config: Config, s: State, s': State, e: Event, now: int, id: string)
    requires Inv(config, s) && Cut(config, s, s', e, now, id)
    ensures Inv(config, s')
  {
    hide ValidEvent, EventKey;
    LookupIsTheEvent(config, s, e, None);
    WriteKeeps(config, s, e, now, id);
  }

  lemma {:induction false} RunKeeps(config: Config, states: seq<State>, k: nat)
    requires Run(config, states) && k < |states|
    ensures Inv(config, states[k])
  {
    if k > 0 {
      RunKeeps(config, states, k - 1);
      NextKeeps(config, states[k - 1], states[k]);
    }
  }

  // ----- The guarantees -----

  /** In every run each event key has at most one memory. */
  lemma AtMostOneMemoryPerKey(config: Config, states: seq<State>, k: nat, a: string, b: string)
    requires Run(config, states) && k < |states| && a in states[k].memories && b in states[k].memories
    requires states[k].memories[a].event.Some? && states[k].memories[b].event.Some?
    requires EventKey(states[k].memories[a].event.value) == EventKey(states[k].memories[b].event.value)
    ensures a == b
  {
    RunKeeps(config, states, k);
    var s := states[k];
    assert SoundMemory(config, s, a) && SoundMemory(config, s, b);
    KeysIdentifyEvents(s.memories[a].event.value, s.memories[b].event.value, config.maxContent, config.maxContent);
  }

  /** In every run each edge leads to an older memory of the same project, and each
      memory has at most one. */
  lemma EdgesPointBack(config: Config, states: seq<State>, k: nat, x: (string, string), y: (string, string))
    requires Run(config, states) && k < |states| && x in states[k].edges && y in states[k].edges
    ensures
      var memories := states[k].memories;
      && x.0 in memories && x.1 in memories
      && memories[x.0].project == memories[x.1].project && memories[x.1].born < memories[x.0].born
    ensures x.0 == y.0 ==> x == y
  {
    RunKeeps(config, states, k);
    assert SoundMemory(config, states[k], x.0);
  }

  ghost predicate Path(edges: set<(string, string)>, path: seq<string>) {
    forall i :: 0 <= i < |path| - 1 ==> (path[i], path[i + 1]) in edges
  }

  lemma {:induction false} PathDescends(config: Config, states: seq<State>, k: nat, path: seq<string>)
    requires Run(config, states) && k < |states| && Path(states[k].edges, path) && |path| >= 2
    ensures path[0] in states[k].memories && path[|path| - 1] in states[k].memories
    ensures states[k].memories[path[|path| - 1]].born < states[k].memories[path[0]].born
  {
    var first := (path[0], path[1]);
    EdgesPointBack(config, states, k, first, first);
    if |path| > 2 {
      PathDescends(config, states, k, path[1..]);
    }
  }

  /** No path of edges comes back to where it started. */
  lemma EdgesAreAcyclic(config: Config, states: seq<State>, k: nat, path: seq<string>)
    requires Run(config, states) && k < |states| && Path(states[k].edges, path) && |path| >= 2
    ensures path[0] != path[|path| - 1]
  {
    PathDescends(config, states, k, path);
  }

  /** Re-delivering an event that is stored, however it got there and however full
      the quotas are, adds no memory, counts against no quota, and leaves exactly
      its own edge added, restoring it after a crash, unless the superseded memory
      is gone. */
  lemma RedeliveryOnlyRestoresTheEdge(config: Config, states: seq<State>, k: nat, s': State, e: Event, now: int,
                                      earliest: Option<string>, id: string, stored: string)
    requires Run(config, states) && k < |states| && Delivered(config, states[k], s', e, now, earliest, id)
    requires stored in states[k].memories && states[k].memories[stored].event == Some(e)
    ensures
      var (s, outcome) := (states[k], Deliver(config, states[k], e, now, earliest, id).1);
      && s'.memories == s.memories
      && (if e.supersedes.None? then s' == s && outcome == Deduplicated(stored, None)
          else if e.supersedes.value in s.memories then
            s'.edges == s.edges + {(stored, e.supersedes.value)}
            && outcome == Deduplicated(stored, Some((stored, e.supersedes.value) !in s.edges))
          else s' == s && outcome == TargetMissing)
  {
    RunKeeps(config, states, k);
    var s := states[k];
    assert SoundMemory(config, s, stored);
    LookupIsTheEvent(config, s, e, earliest);
    assert stored in ByKey(s, EventKey(e));
    if e.supersedes.Some? && e.supersedes.value in s.memories {
      assert s.memories[e.supersedes.value].born < s.memories[stored].born;
    }
  }

  // ----- Quotas -----

  lemma SubsetCount<T>(a: set<T>, b: set<T>)
    requires a <= b
    ensures |a| <= |b|
  {
    if a != b {
      assert b == a + (b - a);
    }
  }

  ghost predicate WithinQuota(config: Config, s: State) {
    && (config.sessionLimit > 0 ==> forall project, session, hi ::
          |InSession(s, project, session, hi)| <= config.sessionLimit)
    && (config.projectLimit > 0 ==> forall project, hi ::
          |InProject(s, project, hi)| <= config.projectLimit)
  }

  lemma SessionWindowAfterWrite(config: Config, s: State, e: Event, now: int, id: string,
                                project: string, session: Option<string>, hi: int)
    requires forall m :: m in s.memories ==> s.memories[m].stamp <= now && m != id
    requires |InSession(s, e.project, e.session, now)| < config.sessionLimit
    requires |InSession(s, project, session, hi)| <= config.sessionLimit
    ensures |InSession(WithMemory(s, e, now, id), project, session, hi)| <= config.sessionLimit
  {
    var (before, after) := (InSession(s, project, session, hi), InSession(WithMemory(s, e, now, id), project, session, hi));
    if id in after {
      var counted := InSession(s, e.project, e.session, now);
      assert after <= counted + {id};
      SubsetCount(after, counted + {id});
    } else {
      assert after == before;
    }
  }

  lemma ProjectWindowAfterWrite(config: Config, s: State, e: Event, now: int, id: string, project: string, hi: int)
    requires forall m :: m in s.memories ==> s.memories[m].stamp <= now && m != id
    requires |InProject(s, e.project, now)| < config.projectLimit
    requires |InProject(s, project, hi)| <= config.projectLimit
    ensures |InProject(WithMemory(s, e, now, id), project, hi)| <= config.projectLimit
  {
    var (before, after) := (InProject(s, project, hi), InProject(WithMemory(s, e, now, id), project, hi));
    if id in after {
      var counted := InProject(s, e.project, now);
      assert after <= counted + {id};
      SubsetCount(after, counted + {id});
    } else {
      assert after == before;
    }
  }

  /** With no stamp ahead of the clock the counts are those of the last closed minute. */
  lemma CountsTheLastMinute(s: State, project: string, session: Option<string>, now: int)
    requires forall m :: m in s.memories ==> s.memories[m].stamp <= now
    ensures SessionSince(s, project, session, now - MINUTE) == InSession(s, project, session, now)
    ensures ProjectSince(s, project, now - MINUTE) == InProject(s, project, now)
  {
  }

  lemma WriteWithinQuota(config: Config, s: State, e: Event, now: int, id: string)
    requires MemoriesSound(config, s) && WithinQuota(config, s) && s.clock <= now && Refusal(config, s, e, now).None?
    requires id !in s.ids
    ensures WithinQuota(config, WithMemory(s, e, now, id))
  {
    hide ValidEvent, InSession, InProject, SessionSince, ProjectSince, WithMemory;
    forall m | m in s.memories
      ensures s.memories[m].stamp <= now && m != id
    {
      assert SoundMemory(config, s, m);
    }
    CountsTheLastMinute(s, e.project, e.session, now);
    forall project, session, hi | config.sessionLimit > 0
      ensures |InSession(WithMemory(s, e, now, id), project, session, hi)| <= config.sessionLimit
    {
      SessionWindowAfterWrite(config, s, e, now, id, project, session, hi);
    }
    forall project, hi | config.projectLimit > 0
      ensures |InProject(WithMemory(s, e, now, id), project, hi)| <= config.projectLimit
    {
      ProjectWindowAfterWrite(config, s, e, now, id, project, hi);
    }
  }

  /** Fewer rewrite memories, no fuller window. */
  lemma FewerWithinQuota(config: Config, s: State, s': State)
    requires WithinQuota(config, s)
    requires forall m :: m in s'.memories && s'.memories[m].event.Some? ==> m in s.memories && s.memories[m] == s'.memories[m]
    ensures WithinQuota(config, s')
  {
    forall project, session, hi
      ensures config.sessionLimit > 0 ==> |InSession(s', project, session, hi)| <= config.sessionLimit
    {
      SubsetCount(InSession(s', project, session, hi), InSession(s, project, session, hi));
    }
    forall project, hi
      ensures config.projectLimit > 0 ==> |InProject(s', project, hi)| <= config.projectLimit
    {
      SubsetCount(InProject(s', project, hi), InProject(s, project, hi));
    }
  }

  lemma NextWithinQuota(config: Config, s: State, s': State)
    requires MemoriesSound(config, s) && WithinQuota(config, s) && Next(config, s, s')
    ensures WithinQuota(config, s')
  {
    hide ValidEvent, EventKey, Lookup, Refusal, InSession, InProject;
    if e, now, earliest, id :| Delivered(config, s, s', e, now, earliest, id) {
      if s'.memories != s.memories {
        WriteWithinQuota(config, s, e, now, id);
        FewerWithinQuota(config, WithMemory(s, e, now, id), s');
      } else {
        FewerWithinQuota(config, s, s');
      }
    } else if e, now, id :| Cut(config, s, s', e, now, id) {
      WriteWithinQuota(config, s, e, now, id);
    } else {
      OtherStepsAddNoRewrite(config, s, s');
      FewerWithinQuota(config, s, s');
    }
  }

  lemma OtherStepsAddNoRewrite(config: Config, s: State, s': State)
    requires (exists project, now, id :: OtherStored(s, s', project, now, id)) || (exists id :: Deleted(s, s', id))
    ensures forall m :: m in s'.memories && s'.memories[m].event.Some? ==> m in s.memories && s.memories[m] == s'.memories[m]
  {
  }

  lemma EmptyWithinQuota(config: Config, s: State)
    requires s.memories == map[]
    ensures WithinQuota(config, s)
  {
    forall project, session, hi
      ensures InSession(s, project, session, hi) == {}
    {
    }
    forall project, hi
      ensures InProject(s, project, hi) == {}
    {
    }
  }

  /** In every run no closed 60-second window ever holds more stored events than
      the session quota per (project, session) or the project quota per project. */
  lemma {:induction false} QuotasHold(config: Config, states: seq<State>, k: nat)
    requires Run(config, states) && k < |states|
    ensures WithinQuota(config, states[k])
  {
    hide WithinQuota, Next;
    if k > 0 {
      RunKeeps(config, states, k - 1);
      QuotasHold(config, states, k - 1);
      NextWithinQuota(config, states[k - 1], states[k]);
    } else {
      EmptyWithinQuota(config, states[0]);
    }
  }

  // ----- What is stored -----

  /** The session's quota has room, counted in the closed minute up to now. */
  predicate SessionFree(config: Config, s: State, e: Event, now: int) {
    config.sessionLimit <= 0 || |InSession(s, e.project, e.session, now)| < config.sessionLimit
  }

  predicate ProjectFree(config: Config, s: State, e: Event, now: int) {
    config.projectLimit <= 0 || |InProject(s, e.project, now)| < config.projectLimit
  }

  /** The one way a new event goes in: its memory, and its edge if it names a target. */
  function WithEvent(s: State, e: Event, now: int, id: string): State {
    State(s.memories[id := Memory(e.project, now, s.next, Some(e))],
          s.edges + (if e.supersedes.Some? then {(id, e.supersedes.value)} else {}),
          s.ids + {id}, s.next + 1, now)
  }

  /** In every run a valid event not stored yet is stored if and only if both quotas have
      room and its target, if it names one, is a memory of its project. Otherwise the
      first of the three that fails names the refusal, and nothing changes. */
  lemma StoredExactly(config: Config, states: seq<State>, k: nat, s': State, e: Event, now: int,
                      earliest: Option<string>, id: string)
    requires Run(config, states) && k < |states| && Delivered(config, states[k], s', e, now, earliest, id)
    requires ValidEvent(e, config.maxContent)
    requires forall m :: m in states[k].memories ==> states[k].memories[m].event != Some(e)
    ensures
      var (s, outcome) := (states[k], Deliver(config, states[k], e, now, earliest, id).1);
      var created := if e.supersedes.Some? then Some(true) else None;
      var targetHere :=
        e.supersedes.Some? ==> e.supersedes.value in s.memories && s.memories[e.supersedes.value].project == e.project;
      if !SessionFree(config, s, e, now) then outcome == SessionLimited && s' == s
      else if !ProjectFree(config, s, e, now) then outcome == ProjectLimited && s' == s
      else if !targetHere then outcome == TargetMissing && s' == s
      else outcome == Stored(id, created) && s' == WithEvent(s, e, now, id)
  {
    hide ValidEvent, EventKey, InSession, InProject, SessionSince, ProjectSince;
    RunKeeps(config, states, k);
    var s := states[k];
    LookupIsTheEvent(config, s, e, earliest);
    StampsBehind(config, s, now);
    CountsTheLastMinute(s, e.project, e.session, now);
    IdsKnown(config, s);
    FreshHasNoEdge(s, id);
  }

  lemma StampsBehind(config: Config, s: State, now: int)
    requires MemoriesSound(config, s) && s.clock <= now
    ensures forall m :: m in s.memories ==> s.memories[m].stamp <= now
  {
    forall m | m in s.memories
      ensures s.memories[m].stamp <= now
    {
      assert SoundMemory(config, s, m);
    }
  }

  lemma FreshHasNoEdge(s: State, id: string)
    requires EdgesSound(s) && id !in s.memories
    ensures forall to :: (id, to) !in s.edges
  {
  }

  /** A delivery is invalid exactly if content, project, agent, or a session or target that
      is given, is nothing but whitespace, or the content is too long; then nothing
      changes. */
  lemma InvalidExactly(config: Config, s: State, e: Event, now: int, earliest: Option<string>, id: string)
    ensures
      var (s', outcome) := Deliver(config, s, e, now, earliest, id);
      && (outcome == Invalid <==>
            || AllSpace(e.content) || |e.content| > config.maxContent || AllSpace(e.project) || AllSpace(e.agent)
            || (e.session.Some? && AllSpace(e.session.value)) || (e.supersedes.Some? && AllSpace(e.supersedes.value)))
      && (outcome == Invalid ==> s' == s)
  {
    hide Strip, AllSpace;
    StripInk(e.content);
    StripInk(e.project);
    StripInk(e.agent);
    StripInk(OrEmpty(e.session));
    StripInk(OrEmpty(e.supersedes));
  }
}
