/** The budget stage: lane order, then whole blocks as long as they fit. */
module Budget {
  import opened Text
  import opened Ordering

  /** A recalled memory; `tokens` is what the estimator says of its wrapped block. */
  datatype Candidate = Candidate(id: string, lane: string, score: real, tokens: nat)

  // ----- Lane order -----

  predicate Pinned(lane: string) {
    lane == "rules" || lane == "decisions" || lane == "knowledge"
  }

  function LaneIndex(lane: string): nat {
    if lane == "rules" then 0
    else if lane == "decisions" then 1
    else if lane == "knowledge" then 2
    else if lane == "synthesized" then 3
    else 4
  }

  /** The sort key: lane index, lane, score descending. */
  predicate LaneOrder(c: Candidate, d: Candidate) {
    LaneIndex(c.lane) < LaneIndex(d.lane)
    || (LaneIndex(c.lane) == LaneIndex(d.lane) && (Below(c.lane, d.lane) || (c.lane == d.lane && c.score >= d.score)))
  }

  lemma LaneOrderIsPreorder()
    ensures TotalPreorder(LaneOrder)
  {
    forall c, d
      ensures LaneOrder(c, d) || LaneOrder(d, c)
    {
      BelowTrichotomy(c.lane, d.lane);
    }
    forall c, d, e | LaneOrder(c, d) && LaneOrder(d, e)
      ensures LaneOrder(c, e)
    {
      if Below(c.lane, d.lane) && Below(d.lane, e.lane) {
        BelowTransitive(c.lane, d.lane, e.lane);
      }
    }
  }

  /** `assert_foreign_lanes_tail_only`: does it pass? */
  method ForeignLanesTailOnly(lanes: seq<string>) returns (ok: bool)
    ensures ok <==> forall i, j :: 0 <= i < j < |lanes| && Pinned(lanes[j]) ==> Pinned(lanes[i])
  {
    var seenForeign := false;
    for k := 0 to |lanes|
      invariant seenForeign <==> exists i :: 0 <= i < k && !Pinned(lanes[i])
      invariant forall i, j :: 0 <= i < j < k && Pinned(lanes[j]) ==> Pinned(lanes[i])
    {
      if !Pinned(lanes[k]) {
        seenForeign := true;
      } else if seenForeign {
        return false;
      }
    }
    ok := true;
  }

  ghost predicate PinnedFirst(cands: seq<Candidate>) {
    forall i, j :: 0 <= i < j < |cands| && Pinned(cands[j].lane) ==> Pinned(cands[i].lane)
  }

  /** After the lane sort the guard cannot fire: pinned lanes first, by lane, best score
      first, and equal scores of a lane in recall order. */
  lemma LaneSortKeepsThePrefix(cands: seq<Candidate>, recall: (Candidate, Candidate) -> bool)
    requires Sorted(recall, cands)
    ensures PinnedFirst(StableSort(LaneOrder, cands))
    ensures Sorted(Lexicographic(LaneOrder, recall), StableSort(LaneOrder, cands))
    ensures multiset(StableSort(LaneOrder, cands)) == multiset(cands)
  {
    LaneOrderIsPreorder();
    StableSortSorts(LaneOrder, cands);
    PassRefines(LaneOrder, recall, cands);
  }

  /** Pairwise and spelled out: rules, decisions, knowledge, synthesized, then every other
      lane by name; in one lane the better score first, and equal scores as recalled. */
  lemma LaneSortIsBestFirst(cands: seq<Candidate>, recall: (Candidate, Candidate) -> bool, i: nat, j: nat)
    requires Sorted(recall, cands) && i < j < |StableSort(LaneOrder, cands)|
    ensures
      var (c, d) := (StableSort(LaneOrder, cands)[i], StableSort(LaneOrder, cands)[j]);
      && (d.lane == "rules" ==> c.lane == "rules")
      && (d.lane == "decisions" ==> c.lane == "rules" || c.lane == "decisions")
      && (d.lane == "knowledge" ==> Pinned(c.lane))
      && (d.lane == "synthesized" ==> Pinned(c.lane) || c.lane == "synthesized")
      && (!Pinned(c.lane) && c.lane != "synthesized" ==> c.lane == d.lane || Below(c.lane, d.lane))
      && (c.lane == d.lane ==> c.score > d.score || (c.score == d.score && recall(c, d)))
  {
    hide Below;
    LaneSortKeepsThePrefix(cands, recall);
    var (c, d) := (StableSort(LaneOrder, cands)[i], StableSort(LaneOrder, cands)[j]);
    BelowTrichotomy(c.lane, d.lane);
    assert Lexicographic(LaneOrder, recall)(c, d);
  }

  // ----- Filling the budget -----

  /** Which candidates are included. */
  function Included(cands: seq<Candidate>, budget: int): (mask: seq<bool>)
    ensures |mask| == |cands|
  {
    if cands == [] then []
    else if cands[0].tokens > budget then [false] + Included(cands[1..], budget)
    else [true] + Included(cands[1..], budget - cands[0].tokens)
  }

  /** Tokens of the included ones among the first `k`. */
  function Spent(cands: seq<Candidate>, mask: seq<bool>, k: nat): nat
    requires k <= |cands| == |mask|
  {
    if k == 0 then 0 else Spent(cands, mask, k - 1) + if mask[k - 1] then cands[k - 1].tokens else 0
  }

  function Chosen(cands: seq<Candidate>, mask: seq<bool>, k: nat): (chosen: seq<Candidate>)
    requires k <= |cands| == |mask|
    ensures |chosen| <= k
  {
    if k == 0 then []
    else if mask[k - 1] then Chosen(cands, mask, k - 1) + [cands[k - 1]]
    else Chosen(cands, mask, k - 1)
  }

  lemma {:induction false} SpentTail(cands: seq<Candidate>, mask: seq<bool>, k: nat)
    requires 0 < k <= |cands| == |mask|
    ensures Spent(cands, mask, k) == (if mask[0] then cands[0].tokens else 0) + Spent(cands[1..], mask[1..], k - 1)
  {
    if k > 1 {
      SpentTail(cands, mask, k - 1);
    }
  }

  /** A block is included exactly if it fits in what the included blocks before it leave. */
  lemma {:induction false} GreedyExactly(cands: seq<Candidate>, budget: int, k: nat)
    requires k < |cands|
    ensures Included(cands, budget)[k] <==> cands[k].tokens <= budget - Spent(cands, Included(cands, budget), k)
  {
    if k > 0 {
      var mask := Included(cands, budget);
      var left := if mask[0] then budget - cands[0].tokens else budget;
      GreedyExactly(cands[1..], left, k - 1);
      SpentTail(cands, mask, k);
      assert mask[1..] == Included(cands[1..], left);
    }
  }

  lemma {:induction false} SpentGrows(cands: seq<Candidate>, mask: seq<bool>, k: nat, n: nat)
    requires k <= n <= |cands| == |mask|
    ensures Spent(cands, mask, k) <= Spent(cands, mask, n)
  {
    if k < n {
      SpentGrows(cands, mask, k, n - 1);
    }
  }

  /** Never over budget. */
  lemma {:induction false} WithinBudget(cands: seq<Candidate>, budget: nat, k: nat)
    requires k <= |cands|
    ensures Spent(cands, Included(cands, budget), k) <= budget
  {
    if k > 0 {
      WithinBudget(cands, budget, k - 1);
      GreedyExactly(cands, budget, k - 1);
    }
  }

  /** Nothing that was skipped would fit in what is left at the end. */
  lemma NothingSkippedFits(cands: seq<Candidate>, budget: int, k: nat)
    requires k < |cands| && !Included(cands, budget)[k]
    ensures cands[k].tokens > budget - Spent(cands, Included(cands, budget), |cands|)
  {
    GreedyExactly(cands, budget, k);
    SpentGrows(cands, Included(cands, budget), k, |cands|);
  }

  datatype Stats = Stats(estimatedTokens: int, blocksIncluded: nat, blocksSkipped: nat)

  function Order(cands: seq<Candidate>, lanesEnabled: bool): seq<Candidate> {
    if lanesEnabled then StableSort(LaneOrder, cands) else cands
  }

  /** `_budget_stage` */
  method BudgetStage(candidates: seq<Candidate>, budget: int, lanesEnabled: bool)
    returns (included: seq<Candidate>, stats: Stats)
    ensures
      var order := Order(candidates, lanesEnabled);
      var mask := Included(order, budget);
      && included == Chosen(order, mask, |order|)
      && stats == Stats(Spent(order, mask, |order|), |included|, |order| - |included|)
  {
    var order := Order(candidates, lanesEnabled);
    ghost var mask := Included(order, budget);
    included := [];
    var skipped: nat := 0;
    var remaining: int := budget;
    for k := 0 to |order|
      invariant included == Chosen(order, mask, k) && remaining == budget - Spent(order, mask, k)
      invariant |included| <= k && skipped == k - |included|
    {
      GreedyExactly(order, budget, k);
      if order[k].tokens > remaining {
        skipped := skipped + 1;
      } else {
        remaining := remaining - order[k].tokens;
        included := included + [order[k]];
      }
    }
    stats := Stats(budget - remaining, |included|, skipped);
  }

  // ----- Pinning rules that apply to the file -----

  function Those(cands: seq<Candidate>, matches: Candidate -> bool): seq<Candidate> {
    if cands == [] then []
    else (if matches(cands[0]) then [cands[0]] else []) + Those(cands[1..], matches)
  }

  predicate MatchedFirst(matches: Candidate -> bool, c: Candidate, d: Candidate) {
    matches(c) || !matches(d)
  }

  /** `_applyto_partition`, for any reading of which candidates match the file. */
  method ApplyToPartition(cands: seq<Candidate>, matches: Candidate -> bool)
    returns (reordered: seq<Candidate>, pinned: nat)
    ensures reordered == Those(cands, matches) + Those(cands, c => !matches(c))
    ensures pinned == |Those(cands, matches)|
  {
    var matched: seq<Candidate> := [];
    var unmatched: seq<Candidate> := [];
    for k := 0 to |cands|
      invariant matched + Those(cands[k..], matches) == Those(cands, matches)
      invariant unmatched + Those(cands[k..], c => !matches(c)) == Those(cands, c => !matches(c))
    {
      assert cands[k..][1..] == cands[k + 1..];
      if matches(cands[k]) {
        matched := matched + [cands[k]];
      } else {
        unmatched := unmatched + [cands[k]];
      }
    }
    assert cands[|cands|..] == [];
    reordered, pinned := matched + unmatched, |matched|;
  }

  lemma {:induction false} InsertMatching(matches: Candidate -> bool, x: Candidate, a: seq<Candidate>, b: seq<Candidate>)
    requires forall i :: 0 <= i < |a| ==> matches(a[i])
    requires forall i :: 0 <= i < |b| ==> !matches(b[i])
    ensures Insert((c, d) => MatchedFirst(matches, c, d), x, a + b)
         == if matches(x) then [x] + a + b else a + [x] + b
  {
    if a == [] {
      assert a + b == b;
    } else {
      assert (a + b)[0] == a[0] && (a + b)[1..] == a[1..] + b;
      if matches(x) {
        assert [x] + (a + b) == [x] + a + b;
      } else {
        InsertMatching(matches, x, a[1..], b);
        assert [a[0]] + (a[1..] + [x] + b) == a + [x] + b;
      }
    }
  }

  lemma {:induction false} ThoseMatch(cands: seq<Candidate>, matches: Candidate -> bool)
    ensures forall i :: 0 <= i < |Those(cands, matches)| ==> matches(Those(cands, matches)[i])
  {
    if cands != [] {
      ThoseMatch(cands[1..], matches);
    }
  }

  /** Partitioning is stable sorting by "matches first": order within the two groups is
      kept. */
  lemma {:induction false} PartitionIsAStableSort(cands: seq<Candidate>, matches: Candidate -> bool)
    ensures Those(cands, matches) + Those(cands, c => !matches(c))
         == StableSort((c, d) => MatchedFirst(matches, c, d), cands)
  {
    if cands != [] {
      var others := c => !matches(c);
      var (a, b) := (Those(cands[1..], matches), Those(cands[1..], others));
      PartitionIsAStableSort(cands[1..], matches);
      ThoseMatch(cands[1..], matches);
      ThoseMatch(cands[1..], others);
      InsertMatching(matches, cands[0], a, b);
    }
  }
}
