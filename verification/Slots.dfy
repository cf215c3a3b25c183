/** Per-agent delta slots and the relevance order of the heartbeat. */
module Slots {
  import opened Text
  import opened Ordering
  import Timestamps

  /** A row of the feed, as far as a slot looks at it. */
  datatype Row = Row(id: string, agent: string, stamp: int, checkpoint: bool)

  datatype Slot = Slot(agent: string, entries: nat, lastSeen: string, checkpointId: Option<string>)

  predicate AtMost(a: string, b: string) {
    a == b || Below(a, b)
  }

  lemma AtMostIsTotal()
    ensures TotalPreorder<string>(AtMost)
    ensures forall a, b :: AtMost(a, b) && AtMost(b, a) ==> a == b
  {
    forall a, b
      ensures AtMost(a, b) || AtMost(b, a)
      ensures AtMost(a, b) && AtMost(b, a) ==> a == b
    {
      BelowTrichotomy(a, b);
    }
    forall a, b, c | AtMost(a, b) && AtMost(b, c)
      ensures AtMost(a, c)
    {
      if Below(a, b) && Below(b, c) {
        BelowTransitive(a, b, c);
      }
    }
  }

  // ----- The relevance order -----

  predicate ByAgent(x: Slot, y: Slot) { AtMost(x.agent, y.agent) }

  predicate ByLastSeen(x: Slot, y: Slot) { AtMost(y.lastSeen, x.lastSeen) }

  predicate HasCheckpoint(x: Slot) { x.checkpointId.Some? && x.checkpointId.value != "" }

  predicate ByCheckpoint(x: Slot, y: Slot) { HasCheckpoint(y) ==> HasCheckpoint(x) }

  function ByOverlap(overlap: Slot -> nat): (Slot, Slot) -> bool {
    (x, y) => overlap(x) >= overlap(y)
  }

  /** Four successive stable sorts, the least significant key first. */
  function HeartbeatOrder(slots: seq<Slot>, overlap: Slot -> nat): seq<Slot> {
    var byAgent := StableSort(ByAgent, slots);
    var byLastSeen := StableSort(ByLastSeen, byAgent);
    var byCheckpoint := StableSort(ByCheckpoint, byLastSeen);
    StableSort(ByOverlap(overlap), byCheckpoint)
  }

  /** Overlap descending, checkpoint first, last seen descending, agent ascending. */
  predicate Ahead(overlap: Slot -> nat, x: Slot, y: Slot) {
    if overlap(x) != overlap(y) then overlap(x) > overlap(y)
    else if HasCheckpoint(x) != HasCheckpoint(y) then HasCheckpoint(x)
    else if x.lastSeen != y.lastSeen then Below(y.lastSeen, x.lastSeen)
    else AtMost(x.agent, y.agent)
  }

  ghost function Relevance(overlap: Slot -> nat): (Slot, Slot) -> bool {
    (x, y) => Ahead(overlap, x, y)
  }

  ghost predicate DistinctAgents(slots: seq<Slot>) {
    forall i, j :: 0 <= i < j < |slots| ==> slots[i].agent != slots[j].agent
  }

  lemma KeysArePreorders(overlap: Slot -> nat)
    ensures TotalPreorder(ByAgent) && TotalPreorder(ByLastSeen) && TotalPreorder(ByCheckpoint)
    ensures TotalPreorder(ByOverlap(overlap))
  {
    AtMostIsTotal();
  }

  /** The passes leave the slots in relevance order, whatever order they came in. */
  lemma PassesGiveRelevance(slots: seq<Slot>, overlap: Slot -> nat)
    ensures Sorted(Relevance(overlap), HeartbeatOrder(slots, overlap))
    ensures multiset(HeartbeatOrder(slots, overlap)) == multiset(slots)
  {
    KeysArePreorders(overlap);
    var a := StableSort(ByAgent, slots);
    StableSortSorts(ByAgent, slots);
    var b := StableSort(ByLastSeen, a);
    StableSortSorts(ByLastSeen, a);
    PassRefines(ByLastSeen, ByAgent, a);
    var two := Lexicographic(ByLastSeen, ByAgent);
    var c := StableSort(ByCheckpoint, b);
    StableSortSorts(ByCheckpoint, b);
    PassRefines(ByCheckpoint, two, b);
    var three := Lexicographic(ByCheckpoint, two);
    StableSortSorts(ByOverlap(overlap), c);
    PassRefines(ByOverlap(overlap), three, c);
    forall x, y | Lexicographic(ByOverlap(overlap), three)(x, y)
      ensures Relevance(overlap)(x, y)
    {
      LexicographicIsRelevance(overlap, x, y);
    }
  }

  lemma HeartbeatOrderLength(slots: seq<Slot>, overlap: Slot -> nat)
    ensures |HeartbeatOrder(slots, overlap)| == |slots|
  {
    var a := StableSort(ByAgent, slots);
    var b := StableSort(ByLastSeen, a);
    var c := StableSort(ByCheckpoint, b);
    StableSortLength(ByAgent, slots);
    StableSortLength(ByLastSeen, a);
    StableSortLength(ByCheckpoint, b);
    StableSortLength(ByOverlap(overlap), c);
  }

  lemma LexicographicIsRelevance(overlap: Slot -> nat, x: Slot, y: Slot)
    requires Refined(ByOverlap(overlap), Lexicographic(ByCheckpoint, Lexicographic(ByLastSeen, ByAgent)), x, y)
    ensures Ahead(overlap, x, y)
  {
    if overlap(x) == overlap(y) && HasCheckpoint(x) == HasCheckpoint(y) {
      assert Refined(ByCheckpoint, Lexicographic(ByLastSeen, ByAgent), x, y);
      assert Refined(ByLastSeen, ByAgent, x, y);
    }
  }

  lemma RelevanceHasNoTies(slots: seq<Slot>, overlap: Slot -> nat)
    requires DistinctAgents(slots)
    ensures NoTies(Relevance(overlap), slots)
  {
    forall i, j | 0 <= i < |slots| && 0 <= j < |slots| && Ahead(overlap, slots[i], slots[j]) && Ahead(overlap, slots[j], slots[i])
      ensures slots[i] == slots[j]
    {
      var (x, y) := (slots[i], slots[j]);
      BelowTrichotomy(x.lastSeen, y.lastSeen);
      BelowTrichotomy(x.agent, y.agent);
      assert x.agent == y.agent;
    }
  }

  /** With one slot per agent the relevance order is the only arrangement of the
      slots it can produce: any other list of the same slots in that order is the
      same list, so neither the input order nor the sorting algorithm matters. */
  lemma RelevanceIsTheOnlyOrder(slots: seq<Slot>, overlap: Slot -> nat, other: seq<Slot>)
    requires DistinctAgents(slots) && multiset(other) == multiset(slots)
    ensures HeartbeatOrder(other, overlap) == HeartbeatOrder(slots, overlap)
    ensures Sorted(Relevance(overlap), other) ==> other == HeartbeatOrder(slots, overlap)
  {
    var ordered := HeartbeatOrder(slots, overlap);
    PassesGiveRelevance(slots, overlap);
    PassesGiveRelevance(other, overlap);
    DistinctIsPermutable(slots, ordered);
    RelevanceHasNoTies(ordered, overlap);
    SortedUnique(Relevance(overlap), ordered, HeartbeatOrder(other, overlap));
    if Sorted(Relevance(overlap), other) {
      SortedUnique(Relevance(overlap), ordered, other);
    }
  }

  lemma DistinctIsPermutable(s: seq<Slot>, t: seq<Slot>)
    requires DistinctAgents(s) && multiset(t) == multiset(s)
    ensures DistinctAgents(t)
  {
    DistinctPermuted(s, t);
    forall i, j | 0 <= i < j < |t|
      ensures t[i].agent != t[j].agent
    {
      assert t[i] in multiset(s) && t[j] in multiset(s);
      assert t[i] in s && t[j] in s;
    }
  }

  // ----- Building the slots (`_agent_slots`) -----

  /** `(created_at, id)` descending. */
  predicate NewestFirst(x: Row, y: Row) {
    x.stamp > y.stamp || (x.stamp == y.stamp && AtMost(y.id, x.id))
  }

  function RowsOf(rows: seq<Row>, agent: string): seq<Row> {
    if rows == [] then []
    else
      var r := rows[|rows| - 1];
      RowsOf(rows[..|rows| - 1], agent) + (if r.agent == agent then [r] else [])
  }

  function FirstCheckpoint(rows: seq<Row>): Option<string> {
    if rows == [] then None
    else if rows[0].checkpoint then Some(rows[0].id)
    else FirstCheckpoint(rows[1..])
  }

  /** The agent's slot; `iso` renders a stamp (`isoformat`). */
  function SlotOf(iso: int -> string, rows: seq<Row>, agent: string): Slot
    requires RowsOf(rows, agent) != []
  {
    var own := StableSort(NewestFirst, RowsOf(rows, agent));
    StableSortLength(NewestFirst, RowsOf(rows, agent));
    Slot(agent, |own|, iso(own[0].stamp), FirstCheckpoint(own))
  }

  lemma NewestFirstIsPreorder()
    ensures TotalPreorder(NewestFirst)
  {
    AtMostIsTotal();
  }

  lemma {:induction false} FirstCheckpointIsFirst(rows: seq<Row>)
    ensures FirstCheckpoint(rows).None? <==> forall r :: r in rows ==> !r.checkpoint
    ensures FirstCheckpoint(rows).Some? ==>
      exists i :: 0 <= i < |rows| && rows[i].checkpoint && rows[i].id == FirstCheckpoint(rows).value
                  && forall j :: 0 <= j < i ==> !rows[j].checkpoint
  {
    if rows != [] && !rows[0].checkpoint {
      FirstCheckpointIsFirst(rows[1..]);
      assert rows == [rows[0]] + rows[1..];
      if FirstCheckpoint(rows).Some? {
        var i :| 0 <= i < |rows[1..]| && rows[1..][i].checkpoint && rows[1..][i].id == FirstCheckpoint(rows).value
                 && forall j :: 0 <= j < i ==> !rows[1..][j].checkpoint;
        assert rows[i + 1] == rows[1..][i];
        assert forall j :: 1 <= j < i + 1 ==> rows[j] == rows[1..][j - 1];
      }
    }
  }

  lemma SortedHeadIsNewest(own: seq<Row>)
    requires own != []
    ensures var sorted := StableSort(NewestFirst, own);
      sorted != [] && sorted[0] in own && forall r :: r in own ==> r.stamp <= sorted[0].stamp
  {
    var sorted := StableSort(NewestFirst, own);
    NewestFirstIsPreorder();
    StableSortSorts(NewestFirst, own);
    StableSortMembers(NewestFirst, own);
    StableSortLength(NewestFirst, own);
    assert sorted[0] in sorted;
    forall r | r in own
      ensures r.stamp <= sorted[0].stamp
    {
      assert r in sorted;
      var k :| 0 <= k < |sorted| && sorted[k] == r;
      assert k > 0 ==> NewestFirst(sorted[0], sorted[k]);
    }
  }

  ghost predicate NewestCheckpoint(own: seq<Row>, r: Row) {
    r in own && r.checkpoint && forall r' :: r' in own && r'.checkpoint ==> NewestFirst(r, r')
  }

  lemma AheadInSorted(sorted: seq<Row>, i: nat, r: Row)
    requires Sorted(NewestFirst, sorted) && i < |sorted| && r in sorted
    requires forall j :: 0 <= j < i ==> sorted[j] != r
    ensures NewestFirst(sorted[i], r)
  {
    var k :| 0 <= k < |sorted| && sorted[k] == r;
    assert NewestFirst(r, r);
  }

  lemma FirstCheckpointIsNewest(own: seq<Row>)
    ensures
      var found := FirstCheckpoint(StableSort(NewestFirst, own));
      && (found.None? <==> forall r :: r in own ==> !r.checkpoint)
      && (found.Some? ==> exists r :: NewestCheckpoint(own, r) && r.id == found.value)
  {
    var sorted := StableSort(NewestFirst, own);
    NewestFirstIsPreorder();
    StableSortSorts(NewestFirst, own);
    StableSortMembers(NewestFirst, own);
    FirstCheckpointIsFirst(sorted);
    if FirstCheckpoint(sorted).Some? {
      var i :| 0 <= i < |sorted| && sorted[i].checkpoint && sorted[i].id == FirstCheckpoint(sorted).value
               && forall j :: 0 <= j < i ==> !sorted[j].checkpoint;
      assert sorted[i] in sorted;
      forall r | r in own && r.checkpoint
        ensures NewestFirst(sorted[i], r)
      {
        AheadInSorted(sorted, i, r);
      }
      assert NewestCheckpoint(own, sorted[i]);
    }
  }

  /** A slot counts the agent's rows, shows the newest of their stamps, and names
      its newest checkpoint, if any. */
  ghost predicate Summarises(iso: int -> string, agent: string, own: seq<Row>, slot: Slot) {
    && slot.agent == agent && slot.entries == |own|
    && (exists r :: r in own && slot.lastSeen == iso(r.stamp) && forall r' :: r' in own ==> r'.stamp <= r.stamp)
    && (slot.checkpointId.None? <==> forall r :: r in own ==> !r.checkpoint)
    && (slot.checkpointId.Some? ==> exists r :: NewestCheckpoint(own, r) && r.id == slot.checkpointId.value)
  }

  lemma SlotSummarises(iso: int -> string, rows: seq<Row>, agent: string)
    requires RowsOf(rows, agent) != []
    ensures Summarises(iso, agent, RowsOf(rows, agent), SlotOf(iso, rows, agent))
  {
    SortedHeadIsNewest(RowsOf(rows, agent));
    FirstCheckpointIsNewest(RowsOf(rows, agent));
    StableSortLength(NewestFirst, RowsOf(rows, agent));
  }

  /** With `isoformat` in UTC for `iso`, later last-seen strings are later times. */
  lemma LastSeenSortsAsTime(x: int, y: int)
    requires 0 <= x < Timestamps.END_OF_TIME && 0 <= y < Timestamps.END_OF_TIME
    ensures
      var (a, b) := (Timestamps.UtcFields(x), Timestamps.UtcFields(y));
      Below(Timestamps.IsoUtc(a), Timestamps.IsoUtc(b)) <==> x < y
  {
    Timestamps.IsoUtcOrder(Timestamps.UtcFields(x), Timestamps.UtcFields(y));
  }

  // ----- Conservation -----

  predicate Attributed(r: Row, exclude: Option<string>) {
    r.agent != "" && exclude != Some(r.agent)
  }

  function Total(slots: seq<Slot>): nat {
    if slots == [] then 0 else slots[0].entries + Total(slots[1..])
  }

  function Tally(rows: seq<Row>, agents: seq<string>): nat {
    if agents == [] then 0 else |RowsOf(rows, agents[0])| + Tally(rows, agents[1..])
  }

  /** Rows that appear in no slot: the caller's own and those without an agent. */
  function Left(rows: seq<Row>, exclude: Option<string>): nat {
    if rows == [] then 0
    else Left(rows[..|rows| - 1], exclude) + (if Attributed(rows[|rows| - 1], exclude) then 0 else 1)
  }

  lemma {:induction false} TallyStep(rows: seq<Row>, r: Row, agents: seq<string>)
    requires Distinct(agents)
    ensures Tally(rows + [r], agents) == Tally(rows, agents) + (if r.agent in agents then 1 else 0)
  {
    assert (rows + [r])[..|rows|] == rows;
    if agents != [] {
      TallyStep(rows, r, agents[1..]);
      assert agents == [agents[0]] + agents[1..];
    }
  }

  lemma {:induction false} TallyAppend(rows: seq<Row>, agents: seq<string>, a: string)
    ensures Tally(rows, agents + [a]) == Tally(rows, agents) + |RowsOf(rows, a)|
  {
    if agents == [] {
      assert agents + [a] == [a];
    } else {
      assert (agents + [a])[1..] == agents[1..] + [a];
      TallyAppend(rows, agents[1..], a);
    }
  }

  lemma {:induction false} TotalAppend(slots: seq<Slot>, x: Slot)
    ensures Total(slots + [x]) == Total(slots) + x.entries
  {
    if slots == [] {
      assert slots + [x] == [x];
    } else {
      assert (slots + [x])[1..] == slots[1..] + [x];
      TotalAppend(slots[1..], x);
    }
  }

  lemma {:induction false} TotalInsert(le: (Slot, Slot) -> bool, x: Slot, s: seq<Slot>)
    ensures Total(Insert(le, x, s)) == x.entries + Total(s)
  {
    if s != [] && !le(x, s[0]) {
      TotalInsert(le, x, s[1..]);
    }
  }

  lemma {:induction false} TotalSort(le: (Slot, Slot) -> bool, s: seq<Slot>)
    ensures Total(StableSort(le, s)) == Total(s)
  {
    if s != [] {
      TotalSort(le, s[1..]);
      TotalInsert(le, s[0], StableSort(le, s[1..]));
    }
  }

  /** One slot, the summary of its agent's rows. */
  ghost predicate Neighbour(iso: int -> string, rows: seq<Row>, exclude: Option<string>, x: Slot) {
    x.agent != "" && exclude != Some(x.agent) && RowsOf(rows, x.agent) != [] && x == SlotOf(iso, rows, x.agent)
  }

  /** What the slot list of a feed promises: one slot per neighbour with rows. */
  ghost predicate SlotsFor(iso: int -> string, rows: seq<Row>, exclude: Option<string>, slots: seq<Slot>) {
    && DistinctAgents(slots)
    && (forall x :: x in slots ==> Neighbour(iso, rows, exclude, x))
    && (forall r :: r in rows && Attributed(r, exclude) ==> exists x :: x in slots && x.agent == r.agent)
  }

  /** Most recent first, agents in name order within one instant. */
  predicate MoreRecent(x: Slot, y: Slot) {
    Below(y.lastSeen, x.lastSeen) || (x.lastSeen == y.lastSeen && AtMost(x.agent, y.agent))
  }

  /** The groups of the dictionary are the agents' rows in feed order. */
  ghost predicate Grouped(rows: seq<Row>, exclude: Option<string>, grouped: map<string, seq<Row>>) {
    && (forall a :: a in grouped ==> a != "" && exclude != Some(a) && grouped[a] == RowsOf(rows, a) && grouped[a] != [])
    && (forall r :: r in rows && Attributed(r, exclude) ==> r.agent in grouped)
  }

  ghost predicate Keys(agents: seq<string>, grouped: map<string, seq<Row>>) {
    forall a :: a in grouped <==> a in agents
  }

  function GroupRow(grouped: map<string, seq<Row>>, r: Row, exclude: Option<string>): map<string, seq<Row>> {
    if !Attributed(r, exclude) then grouped
    else grouped[r.agent := (if r.agent in grouped then grouped[r.agent] else []) + [r]]
  }

  lemma GroupOneMore(rows: seq<Row>, r: Row, exclude: Option<string>, grouped: map<string, seq<Row>>)
    requires Grouped(rows, exclude, grouped)
    ensures Grouped(rows + [r], exclude, GroupRow(grouped, r, exclude))
    ensures Attributed(r, exclude) && r.agent !in grouped ==> RowsOf(rows, r.agent) == []
  {
    assert (rows + [r])[..|rows|] == rows;
    if Attributed(r, exclude) && r.agent !in grouped {
      NotGrouped(rows, r.agent, exclude, grouped);
    }
  }

  lemma NotGrouped(rows: seq<Row>, a: string, exclude: Option<string>, grouped: map<string, seq<Row>>)
    requires Grouped(rows, exclude, grouped) && a !in grouped && a != "" && exclude != Some(a)
    ensures RowsOf(rows, a) == []
  {
    RowsOfNone(rows, a);
  }

  lemma {:induction false} RowsOfNone(rows: seq<Row>, a: string)
    requires forall r :: r in rows ==> r.agent != a
    ensures RowsOf(rows, a) == []
  {
    if rows != [] {
      var rest := rows[..|rows| - 1];
      assert forall r :: r in rest ==> r in rows;
      RowsOfNone(rest, a);
    }
  }

  /** Every row is in one group or in none for a stated reason. */
  lemma {:induction false} TallyConserves(rows: seq<Row>, exclude: Option<string>, agents: seq<string>)
    requires Distinct(agents) && forall a :: a in agents ==> a != "" && exclude != Some(a)
    requires forall r :: r in rows && Attributed(r, exclude) ==> r.agent in agents
    ensures Tally(rows, agents) + Left(rows, exclude) == |rows|
  {
    if rows == [] {
      TallyOfNothing(agents);
    } else {
      var (rest, r) := (rows[..|rows| - 1], rows[|rows| - 1]);
      assert rows == rest + [r];
      TallyConserves(rest, exclude, agents);
      TallyStep(rest, r, agents);
    }
  }

  lemma {:induction false} TallyOfNothing(agents: seq<string>)
    ensures Tally([], agents) == 0
  {
    if agents != [] {
      TallyOfNothing(agents[1..]);
    }
  }

  /** The loop's variables: dictionary keys in insertion order, dictionary, counter. */
  datatype Groups = Groups(agents: seq<string>, grouped: map<string, seq<Row>>, unattributed: nat)

  function AddRow(g: Groups, r: Row, exclude: Option<string>): Groups {
    Groups(
      if Attributed(r, exclude) && r.agent !in g.grouped then g.agents + [r.agent] else g.agents,
      GroupRow(g.grouped, r, exclude),
      g.unattributed + if r.agent == "" then 1 else 0)
  }

  function GroupAll(rows: seq<Row>, exclude: Option<string>): Groups {
    if rows == [] then Groups([], map[], 0)
    else AddRow(GroupAll(rows[..|rows| - 1], exclude), rows[|rows| - 1], exclude)
  }

  ghost predicate Grouping(rows: seq<Row>, exclude: Option<string>, g: Groups) {
    && Grouped(rows, exclude, g.grouped) && Keys(g.agents, g.grouped) && Distinct(g.agents)
    && g.unattributed == |RowsOf(rows, "")|
  }

  lemma GroupStep(rows: seq<Row>, r: Row, exclude: Option<string>, g: Groups)
    requires Grouping(rows, exclude, g)
    ensures Grouping(rows + [r], exclude, AddRow(g, r, exclude))
  {
    assert (rows + [r])[..|rows|] == rows;
    GroupOneMore(rows, r, exclude, g.grouped);
    if Attributed(r, exclude) && r.agent !in g.grouped {
      assert Keys(g.agents + [r.agent], GroupRow(g.grouped, r, exclude));
    }
  }

  lemma {:induction false} GroupAllGroups(rows: seq<Row>, exclude: Option<string>)
    ensures Grouping(rows, exclude, GroupAll(rows, exclude))
  {
    if rows != [] {
      var (rest, r) := (rows[..|rows| - 1], rows[|rows| - 1]);
      GroupAllGroups(rest, exclude);
      GroupStep(rest, r, exclude, GroupAll(rest, exclude));
      assert rest + [r] == rows;
    }
  }

  method GroupByAgent(rows: seq<Row>, exclude: Option<string>)
    returns (agents: seq<string>, grouped: map<string, seq<Row>>, unattributed: nat)
    ensures Grouping(rows, exclude, Groups(agents, grouped, unattributed))
    ensures Groups(agents, grouped, unattributed) == GroupAll(rows, exclude)
  {
    GroupAllGroups(rows, exclude);
    agents, grouped, unattributed := [], map[], 0;
    for k := 0 to |rows|
      invariant Groups(agents, grouped, unattributed) == GroupAll(rows[..k], exclude)
    {
      var r := rows[k];
      assert rows[..k + 1][..k] == rows[..k];
      if r.agent == "" {
        unattributed := unattributed + 1;
      } else if exclude != Some(r.agent) {
        if r.agent !in grouped {
          agents := agents + [r.agent];
          grouped := grouped[r.agent := [] + [r]];
        } else {
          grouped := grouped[r.agent := grouped[r.agent] + [r]];
        }
      }
    }
    assert rows[..|rows|] == rows;
  }

  function SlotList(iso: int -> string, rows: seq<Row>, agents: seq<string>): seq<Slot>
    requires forall a :: a in agents ==> RowsOf(rows, a) != []
  {
    if agents == [] then []
    else
      var (rest, a) := (agents[..|agents| - 1], agents[|agents| - 1]);
      assert agents == rest + [a];
      SlotList(iso, rows, rest) + [SlotOf(iso, rows, a)]
  }

  lemma {:induction false} SlotListFacts(iso: int -> string, rows: seq<Row>, exclude: Option<string>, agents: seq<string>)
    requires forall a :: a in agents ==> RowsOf(rows, a) != [] && a != "" && exclude != Some(a)
    ensures
      var slots := SlotList(iso, rows, agents);
      && |slots| == |agents| && (forall j :: 0 <= j < |slots| ==> slots[j].agent == agents[j])
      && (forall x :: x in slots ==> Neighbour(iso, rows, exclude, x))
      && Total(slots) == Tally(rows, agents)
  {
    if agents != [] {
      var (rest, a) := (agents[..|agents| - 1], agents[|agents| - 1]);
      assert agents == rest + [a] && forall b :: b in rest ==> b in agents;
      SlotListFacts(iso, rows, exclude, rest);
      assert Neighbour(iso, rows, exclude, SlotOf(iso, rows, a));
      StableSortLength(NewestFirst, RowsOf(rows, a));
      TotalAppend(SlotList(iso, rows, rest), SlotOf(iso, rows, a));
      TallyAppend(rows, rest, a);
    }
  }

  lemma SlotsCover(iso: int -> string, rows: seq<Row>, exclude: Option<string>, agents: seq<string>, slots: seq<Slot>)
    requires Distinct(agents) && |slots| == |agents|
    requires forall j :: 0 <= j < |slots| ==> slots[j].agent == agents[j]
    requires forall x :: x in slots ==> Neighbour(iso, rows, exclude, x)
    requires forall r :: r in rows && Attributed(r, exclude) ==> r.agent in agents
    ensures SlotsFor(iso, rows, exclude, slots)
  {
    forall r | r in rows && Attributed(r, exclude)
      ensures exists x :: x in slots && x.agent == r.agent
    {
      var j :| 0 <= j < |agents| && agents[j] == r.agent;
      assert slots[j] in slots;
    }
  }

  /** One slot from one agent's rows, sorted newest first. */
  method SummariseAgent(iso: int -> string, ghost feed: seq<Row>, agent: string, rows: seq<Row>) returns (slot: Slot)
    requires rows == RowsOf(feed, agent) && rows != []
    ensures Summarises(iso, agent, rows, slot) && slot == SlotOf(iso, feed, agent)
  {
    var own := StableSort(NewestFirst, rows);
    StableSortLength(NewestFirst, rows);
    SlotSummarises(iso, feed, agent);
    slot := Slot(agent, |own|, iso(own[0].stamp), FirstCheckpoint(own));
  }

  /** The two final passes. */
  method SortSlots(iso: int -> string, rows: seq<Row>, exclude: Option<string>, slots: seq<Slot>) returns (r: seq<Slot>)
    requires SlotsFor(iso, rows, exclude, slots)
    ensures SlotsFor(iso, rows, exclude, r) && Sorted(MoreRecent, r) && Total(r) == Total(slots)
  {
    var byAgent := StableSort(ByAgent, slots);
    r := StableSort(ByLastSeen, byAgent);
    KeysArePreorders(_ => 0);
    StableSortSorts(ByAgent, slots);
    StableSortSorts(ByLastSeen, byAgent);
    StableSortMembers(ByAgent, slots);
    StableSortMembers(ByLastSeen, byAgent);
    TotalSort(ByAgent, slots);
    TotalSort(ByLastSeen, byAgent);
    PassRefines(ByLastSeen, ByAgent, byAgent);
    DistinctIsPermutable(slots, r);
    assert forall x, y :: Lexicographic(ByLastSeen, ByAgent)(x, y) ==> MoreRecent(x, y);
  }

  method SlotsOfAgents(iso: int -> string, rows: seq<Row>, agents: seq<string>, grouped: map<string, seq<Row>>) returns (slots: seq<Slot>)
    requires forall a :: a in agents ==> a in grouped && grouped[a] == RowsOf(rows, a) && grouped[a] != []
    ensures slots == SlotList(iso, rows, agents)
  {
    hide Summarises, SlotOf, RowsOf;
    slots := [];
    for k := 0 to |agents|
      invariant slots == SlotList(iso, rows, agents[..k])
    {
      var slot := SummariseAgent(iso, rows, agents[k], grouped[agents[k]]);
      assert agents[..k + 1][..k] == agents[..k];
      assert SlotList(iso, rows, agents[..k + 1]) == SlotList(iso, rows, agents[..k]) + [slot];
      slots := slots + [slot];
    }
    assert agents[..|agents|] == agents;
  }

  method AgentSlots(iso: int -> string, rows: seq<Row>, exclude: Option<string>) returns (slots: seq<Slot>, unattributed: nat)
    ensures SlotsFor(iso, rows, exclude, slots) && Sorted(MoreRecent, slots)
    ensures Total(slots) + Left(rows, exclude) == |rows|
    ensures unattributed == |RowsOf(rows, "")|
  {
    var agents, grouped;
    agents, grouped, unattributed := GroupByAgent(rows, exclude);
    var unsorted := SlotsOfAgents(iso, rows, agents, grouped);
    SlotListFacts(iso, rows, exclude, agents);
    TallyConserves(rows, exclude, agents);
    SlotsCover(iso, rows, exclude, agents, unsorted);
    slots := SortSlots(iso, rows, exclude, unsorted);
  }
}
