/** The cache aligner: greedy choice of dynamic spans, removal in place, whitespace
    normalisation, and the block of relocated values. */
module Aligner {
  import opened Text
  import opened Marker
  import opened Ordering

  // ----- Spans -----

  datatype Kind = Timestamp | Uuid | SessionId | Date | Token

  /** Position in the ordered pattern list. */
  function Rank(kind: Kind): nat {
    match kind
    case Timestamp => 0
    case Uuid => 1
    case SessionId => 2
    case Date => 3
    case Token => 4
  }

  function KindName(kind: Kind): string {
    match kind
    case Timestamp => "timestamp"
    case Uuid => "uuid"
    case SessionId => "session_id"
    case Date => "date"
    case Token => "token"
  }

  datatype Span = Span(kind: Kind, start: nat, end: nat)

  predicate InText(text: string, m: Span) { m.start < m.end <= |text| }

  predicate Meets(m: Span, region: (nat, nat)) { m.start < region.1 && m.end > region.0 }

  predicate Eligible(skip: set<Kind>, protected: seq<(nat, nat)>, m: Span) {
    m.kind !in skip && forall r :: r in protected ==> !Meets(m, r)
  }

  function Kept(skip: set<Kind>, protected: seq<(nat, nat)>, matches: seq<Span>): seq<Span> {
    if matches == [] then []
    else
      (if Eligible(skip, protected, matches[0]) then [matches[0]] else []) + Kept(skip, protected, matches[1..])
  }

  /** Earliest start first, longest first among equal starts. */
  predicate StartsFirst(m: Span, n: Span) {
    m.start < n.start || (m.start == n.start && m.end >= n.end)
  }

  function Greedy(sorted: seq<Span>, lastEnd: int): seq<Span> {
    if sorted == [] then []
    else if sorted[0].start >= lastEnd then [sorted[0]] + Greedy(sorted[1..], sorted[0].end)
    else Greedy(sorted[1..], lastEnd)
  }

  function Accepted(skip: set<Kind>, protected: seq<(nat, nat)>, matches: seq<Span>): seq<Span> {
    Greedy(StableSort(StartsFirst, Kept(skip, protected, matches)), -1)
  }

  /** `_extract_spans` over the raw matches of all patterns, in pattern order. */
  method ExtractSpans(matches: seq<Span>, skip: set<Kind>, protected: seq<(nat, nat)>) returns (accepted: seq<Span>)
    ensures accepted == Accepted(skip, protected, matches)
  {
    var raw: seq<Span> := [];
    for k := 0 to |matches|
      invariant raw + Kept(skip, protected, matches[k..]) == Kept(skip, protected, matches)
    {
      if Eligible(skip, protected, matches[k]) {
        raw := raw + [matches[k]];
      }
      assert matches[k..][1..] == matches[k + 1..];
    }
    assert matches[|matches|..] == [] && raw == Kept(skip, protected, matches);
    if raw == [] {
      assert StableSort(StartsFirst, raw) == [];
      return [];
    }
    raw := StableSort(StartsFirst, raw);
    accepted := [];
    var lastEnd: int := -1;
    assert raw[0..] == raw;
    for k := 0 to |raw|
      invariant accepted + Greedy(raw[k..], lastEnd) == Greedy(raw, -1)
    {
      if raw[k].start >= lastEnd {
        accepted := accepted + [raw[k]];
        lastEnd := raw[k].end;
      }
      assert raw[k..][1..] == raw[k + 1..];
    }
    assert raw[|raw|..] == [] && accepted == Greedy(raw, -1);
  }

  // ----- What the selection guarantees -----

  ghost predicate Disjoint(spans: seq<Span>) {
    forall i, j :: 0 <= i < j < |spans| ==> spans[i].end <= spans[j].start
  }

  ghost predicate Within(text: string, spans: seq<Span>) {
    Disjoint(spans) && forall i :: 0 <= i < |spans| ==> InText(text, spans[i])
  }

  lemma {:induction false} KeptMembers(skip: set<Kind>, protected: seq<(nat, nat)>, matches: seq<Span>)
    ensures forall m :: m in Kept(skip, protected, matches) <==> m in matches && Eligible(skip, protected, m)
  {
    if matches != [] {
      KeptMembers(skip, protected, matches[1..]);
      assert matches == [matches[0]] + matches[1..];
    }
  }

  lemma {:induction false} GreedyDisjoint(sorted: seq<Span>, lastEnd: int)
    requires forall m :: m in sorted ==> m.start < m.end
    ensures Disjoint(Greedy(sorted, lastEnd))
    ensures forall m :: m in Greedy(sorted, lastEnd) ==> m in sorted && m.start >= lastEnd
  {
    if sorted != [] {
      GreedyDisjoint(sorted[1..], if sorted[0].start >= lastEnd then sorted[0].end else lastEnd);
      assert sorted[0] in sorted;
    }
  }

  /** What an accepted span has over a match it displaced: it starts first, or is
      longer, or is as long and of a more specific kind. */
  predicate Displaces(a: Span, m: Span) {
    a.start <= m.start < a.end
    && (a.start == m.start ==> a.end > m.end || (a.end == m.end && Rank(a.kind) <= Rank(m.kind)))
  }

  predicate SpecificFirst(m: Span, n: Span) { Rank(m.kind) <= Rank(n.kind) }

  predicate Precedes(m: Span, n: Span) {
    StartsFirst(m, n) && (StartsFirst(n, m) ==> SpecificFirst(m, n))
  }

  lemma {:induction false} GreedyIsMaximal(sorted: seq<Span>, blocker: Span, lastEnd: int, m: Span)
    requires forall i, j :: 0 <= i < j < |sorted| ==> Precedes(sorted[i], sorted[j])
    requires forall i :: 0 <= i < |sorted| ==> sorted[i].start < sorted[i].end
    requires m in sorted && m !in Greedy(sorted, lastEnd)
    requires lastEnd == -1 || (lastEnd == blocker.end && Precedes(blocker, m))
    ensures (lastEnd != -1 && Displaces(blocker, m)) || exists a :: a in Greedy(sorted, lastEnd) && Displaces(a, m)
  {
    var first := sorted[0];
    var k :| 0 <= k < |sorted| && sorted[k] == m;
    if first.start >= lastEnd {
      assert first in Greedy(sorted, lastEnd);
      assert k != 0;
      assert m == sorted[1..][k - 1];
      GreedyIsMaximal(sorted[1..], first, first.end, m);
      assert forall a :: a in Greedy(sorted[1..], first.end) ==> a in Greedy(sorted, lastEnd);
    } else if k != 0 {
      assert m == sorted[1..][k - 1];
      GreedyIsMaximal(sorted[1..], blocker, lastEnd, m);
    }
  }

  /** The raw matches as the program collects them: pattern by pattern. */
  ghost predicate PatternByPattern(matches: seq<Span>) {
    forall i, j :: 0 <= i < j < |matches| ==> SpecificFirst(matches[i], matches[j])
  }

  lemma {:induction false} KeptKeepsOrder(skip: set<Kind>, protected: seq<(nat, nat)>, matches: seq<Span>)
    requires PatternByPattern(matches)
    ensures PatternByPattern(Kept(skip, protected, matches))
  {
    if matches != [] {
      KeptKeepsOrder(skip, protected, matches[1..]);
      KeptMembers(skip, protected, matches[1..]);
      var rest := Kept(skip, protected, matches[1..]);
      forall i | 0 <= i < |rest|
        ensures SpecificFirst(matches[0], rest[i])
      {
        assert rest[i] in matches[1..];
      }
    }
  }

  lemma CandidatesInOrder(skip: set<Kind>, protected: seq<(nat, nat)>, matches: seq<Span>)
    requires PatternByPattern(matches)
    ensures
      var sorted := StableSort(StartsFirst, Kept(skip, protected, matches));
      && (forall i, j :: 0 <= i < j < |sorted| ==> Precedes(sorted[i], sorted[j]))
      && (forall m :: m in sorted <==> m in matches && Eligible(skip, protected, m))
  {
    var kept := Kept(skip, protected, matches);
    var sorted := StableSort(StartsFirst, kept);
    KeptKeepsOrder(skip, protected, matches);
    KeptMembers(skip, protected, matches);
    assert TotalPreorder(StartsFirst);
    PassRefines(StartsFirst, SpecificFirst, kept);
    StableSortMembers(StartsFirst, kept);
    forall i, j | 0 <= i < j < |sorted|
      ensures Precedes(sorted[i], sorted[j])
    {
      assert Lexicographic(StartsFirst, SpecificFirst)(sorted[i], sorted[j]);
    }
  }

  /** The accepted spans are eligible matches in text order, pairwise disjoint and clear
      of every protected region. */
  lemma AcceptedAreDisjoint(text: string, skip: set<Kind>, protected: seq<(nat, nat)>, matches: seq<Span>)
    requires forall m :: m in matches ==> InText(text, m)
    ensures Within(text, Accepted(skip, protected, matches))
    ensures forall m :: m in Accepted(skip, protected, matches) ==> m in matches && Eligible(skip, protected, m)
  {
    var kept := Kept(skip, protected, matches);
    KeptMembers(skip, protected, matches);
    StableSortMembers(StartsFirst, kept);
    GreedyDisjoint(StableSort(StartsFirst, kept), -1);
  }

  /** Timestamp, uuid, session id, date, token: the most specific first. */
  predicate AsSpecific(a: Kind, b: Kind) {
    match a
    case Timestamp => true
    case Uuid => b != Timestamp
    case SessionId => b != Timestamp && b != Uuid
    case Date => b == Date || b == Token
    case Token => b == Token
  }

  /** `m` starts inside `a`, and if both start together `a` is longer, or as long and at
      least as specific. */
  predicate Outranks(a: Span, m: Span) {
    && a.start <= m.start < a.end
    && (a.start == m.start ==> a.end > m.end || (a.end == m.end && AsSpecific(a.kind, m.kind)))
  }

  /** No eligible match is lost without cause: one that is not accepted starts inside
      an accepted span that started earlier, or is longer, or more specific. */
  lemma OnlyDisplacedAreDropped(text: string, skip: set<Kind>, protected: seq<(nat, nat)>, matches: seq<Span>, m: Span)
    requires PatternByPattern(matches) && forall n :: n in matches ==> InText(text, n)
    requires m in matches && Eligible(skip, protected, m) && m !in Accepted(skip, protected, matches)
    ensures Displaced(Accepted(skip, protected, matches), m)
    ensures exists a :: a in Accepted(skip, protected, matches) && Outranks(a, m)
  {
    var sorted := StableSort(StartsFirst, Kept(skip, protected, matches));
    CandidatesInOrder(skip, protected, matches);
    forall i | 0 <= i < |sorted|
      ensures sorted[i].start < sorted[i].end
    {
      assert sorted[i] in matches;
    }
    GreedyIsMaximal(sorted, m, -1, m);
  }

  /** What a selection has to satisfy, without saying how it is made: eligible matches in
      text order, disjoint, and every eligible match left out is displaced by one taken. */
  ghost predicate IsSelection(skip: set<Kind>, protected: seq<(nat, nat)>, matches: seq<Span>, spans: seq<Span>) {
    && Disjoint(spans) && (forall m :: m in spans ==> m in matches && Eligible(skip, protected, m))
    && (forall m :: m in matches && Eligible(skip, protected, m) && m !in spans ==> Displaced(spans, m))
  }

  ghost predicate Displaced(spans: seq<Span>, m: Span) {
    exists a :: a in spans && Displaces(a, m)
  }

  /** Of two selections with a common beginning, the one that goes on with `m` leaves the
      other no way to do without it. */
  lemma NextIsForced(skip: set<Kind>, protected: seq<(nat, nat)>, matches: seq<Span>,
                     spans: seq<Span>, other: seq<Span>, k: nat)
    requires forall m :: m in matches ==> m.start < m.end
    requires IsSelection(skip, protected, matches, spans) && IsSelection(skip, protected, matches, other)
    requires k < |spans| && k <= |other| && spans[..k] == other[..k]
    ensures k < |other| && Precedes(other[k], spans[k])
  {
    var m := spans[k];
    assert m in spans;
    if m in other {
      var l :| 0 <= l < |other| && other[l] == m;
      SharedIsLater(spans, other, k, l);
    } else {
      assert Displaced(other, m);
      var a :| a in other && Displaces(a, m);
      var l :| 0 <= l < |other| && other[l] == a;
      SharedIsLater(spans, other, k, l);
    }
  }

  /** What meets span `k` of the one is no earlier in the other, and nothing later comes
      before it. */
  lemma SharedIsLater(spans: seq<Span>, other: seq<Span>, k: nat, l: nat)
    requires Disjoint(spans) && Disjoint(other) && k < |spans| && l < |other| && k <= |other| && spans[..k] == other[..k]
    requires forall m :: m in spans || m in other ==> m.start < m.end
    requires other[l] == spans[k] || Displaces(other[l], spans[k])
    ensures k < |other| && Precedes(other[k], spans[k])
  {
    assert spans[k] in spans && other[l] in other;
    assert forall x :: 0 <= x < k ==> spans[x] == spans[..k][x] == other[..k][x] == other[x];
    if k < l {
      assert other[k] in other && other[k].end <= other[l].start;
    }
  }

  lemma MutualPrecedence(m: Span, n: Span)
    requires Precedes(m, n) && Precedes(n, m)
    ensures m == n
  {
  }

  lemma {:induction false} SelectionsAgree(skip: set<Kind>, protected: seq<(nat, nat)>, matches: seq<Span>,
                                           spans: seq<Span>, other: seq<Span>, k: nat)
    requires forall m :: m in matches ==> m.start < m.end
    requires IsSelection(skip, protected, matches, spans) && IsSelection(skip, protected, matches, other)
    requires k <= |spans| && k <= |other| && spans[..k] == other[..k]
    ensures spans == other
    decreases |spans| - k
  {
    hide IsSelection, Precedes;
    if k < |spans| {
      NextIsForced(skip, protected, matches, spans, other, k);
      NextIsForced(skip, protected, matches, other, spans, k);
      MutualPrecedence(spans[k], other[k]);
      assert spans[..k + 1] == spans[..k] + [spans[k]] && other[..k + 1] == other[..k] + [other[k]];
      SelectionsAgree(skip, protected, matches, spans, other, k + 1);
    } else if k < |other| {
      NextIsForced(skip, protected, matches, other, spans, k);
    } else {
      assert spans == spans[..k] && other == other[..k];
    }
  }

  /** The greedy loop makes the one selection there is. */
  lemma AcceptedExactly(text: string, skip: set<Kind>, protected: seq<(nat, nat)>, matches: seq<Span>, spans: seq<Span>)
    requires PatternByPattern(matches) && forall m :: m in matches ==> InText(text, m)
    ensures spans == Accepted(skip, protected, matches) <==> IsSelection(skip, protected, matches, spans)
  {
    hide Accepted, IsSelection, Eligible, Displaces;
    var accepted := Accepted(skip, protected, matches);
    AcceptedIsSelection(text, skip, protected, matches);
    if IsSelection(skip, protected, matches, spans) {
      assert spans[..0] == accepted[..0];
      SelectionsAgree(skip, protected, matches, spans, accepted, 0);
    }
  }

  lemma AcceptedIsSelection(text: string, skip: set<Kind>, protected: seq<(nat, nat)>, matches: seq<Span>)
    requires PatternByPattern(matches) && forall m :: m in matches ==> InText(text, m)
    ensures IsSelection(skip, protected, matches, Accepted(skip, protected, matches))
  {
    hide Accepted, Eligible, Displaces;
    var accepted := Accepted(skip, protected, matches);
    AcceptedAreDisjoint(text, skip, protected, matches);
    forall m | m in matches && Eligible(skip, protected, m) && m !in accepted
      ensures Displaced(accepted, m)
    {
      OnlyDisplacedAreDropped(text, skip, protected, matches, m);
    }
  }

  // ----- Whitespace normalisation -----

  predicate Blank(c: char) { c == ' ' || c == '\t' }

  function BlankRun(s: string): (n: nat)
    ensures n <= |s|
  {
    if s == "" || !Blank(s[0]) then 0 else 1 + BlankRun(s[1..])
  }

  /** The two regex passes: runs of two or more blanks become one space; blanks
      before a line feed go. */
  datatype Pass = Collapse | TrimLines

  function Replacement(pass: Pass, run: string, after: string): string {
    match pass
    case Collapse => if |run| >= 2 then " " else run
    case TrimLines => if after != "" && after[0] == '\n' then "" else run
  }

  function Rewrite(pass: Pass, s: string): string
    decreases |s|
  {
    if s == "" then ""
    else
      var n := BlankRun(s);
      if n == 0 then [s[0]] + Rewrite(pass, s[1..])
      else Replacement(pass, s[..n], s[n..]) + Rewrite(pass, s[n..])
  }

  function Settle(s: string): string {
    Rewrite(TrimLines, Rewrite(Collapse, s))
  }

  predicate Seam(x: string, y: string) {
    x == "" || y == "" || !Blank(x[|x| - 1]) || (!Blank(y[0]) && y[0] != '\n')
  }

  lemma {:induction false} BlankRunIs(s: string)
    ensures forall i :: 0 <= i < BlankRun(s) ==> Blank(s[i])
    ensures BlankRun(s) < |s| ==> !Blank(s[BlankRun(s)])
  {
    if s != "" && Blank(s[0]) {
      BlankRunIs(s[1..]);
      assert forall i :: 1 <= i < BlankRun(s) ==> s[i] == s[1..][i - 1];
    }
  }

  lemma {:induction false} BlankRunAcross(x: string, y: string)
    ensures BlankRun(x) < |x| ==> BlankRun(x + y) == BlankRun(x)
    ensures BlankRun(x) == |x| && (y == "" || !Blank(y[0])) ==> BlankRun(x + y) == |x|
  {
    if x == "" {
      assert x + y == y;
    } else {
      assert (x + y)[1..] == x[1..] + y;
      BlankRunAcross(x[1..], y);
    }
  }

  /** The first step of a pass: one character, or one whole run. */
  function Step(s: string): (n: nat)
    requires s != ""
    ensures 0 < n <= |s|
  {
    if Blank(s[0]) then BlankRun(s) else 1
  }

  function Stepped(pass: Pass, head: string, after: string): string
    requires head != ""
  {
    if Blank(head[0]) then Replacement(pass, head, after) else head
  }

  lemma RewriteSteps(pass: Pass, s: string)
    requires s != ""
    ensures Rewrite(pass, s) == Stepped(pass, s[..Step(s)], s[Step(s)..]) + Rewrite(pass, s[Step(s)..])
  {
  }

  lemma StepAcross(x: string, y: string)
    requires x != "" && y != "" && Seam(x, y)
    ensures Step(x + y) == Step(x)
    ensures (x + y)[..Step(x)] == x[..Step(x)] && (x + y)[Step(x)..] == x[Step(x)..] + y
    ensures Seam(x[Step(x)..], y)
  {
    BlankRunIs(x);
    BlankRunAcross(x, y);
  }

  /** Each pass works on the two sides of a seam separately. */
  lemma {:induction false} RewriteSplits(pass: Pass, x: string, y: string)
    requires Seam(x, y)
    ensures Rewrite(pass, x + y) == Rewrite(pass, x) + Rewrite(pass, y)
    decreases |x|
  {
    if x == "" {
      assert x + y == y;
    } else if y == "" {
      assert x + y == x;
    } else {
      hide Rewrite, Step;
      var n := Step(x);
      StepAcross(x, y);
      RewriteSteps(pass, x);
      RewriteSteps(pass, x + y);
      RewriteSplits(pass, x[n..], y);
      SameStep(pass, x, y);
    }
  }

  lemma SameStep(pass: Pass, x: string, y: string)
    requires x != "" && y != "" && Seam(x, y)
    ensures Stepped(pass, x[..Step(x)], x[Step(x)..] + y) == Stepped(pass, x[..Step(x)], x[Step(x)..])
  {
    BlankRunIs(x);
    assert x[Step(x)..] != "" ==> (x[Step(x)..] + y)[0] == x[Step(x)..][0];
    assert x[Step(x)..] == "" ==> x[Step(x)..] + y == y;
  }

  lemma {:induction false} RewriteEnds(pass: Pass, s: string)
    requires s != ""
    ensures !Blank(s[0]) ==> Rewrite(pass, s) != "" && Rewrite(pass, s)[0] == s[0]
    ensures var r := Rewrite(pass, s); !Blank(s[|s| - 1]) ==> r != "" && r[|r| - 1] == s[|s| - 1]
    decreases |s|
  {
    hide Rewrite;
    RewriteSteps(pass, s);
    BlankRunIs(s);
    var rest := s[Step(s)..];
    if rest != "" {
      RewriteEnds(pass, rest);
      assert rest[|rest| - 1] == s[|s| - 1];
    } else {
      NothingRewritten(pass);
    }
  }

  lemma NothingRewritten(pass: Pass)
    ensures Rewrite(pass, "") == ""
  {
  }

  lemma StepInk(pass: Pass, s: string)
    requires s != ""
    ensures Ink(Stepped(pass, s[..Step(s)], s[Step(s)..])) == Ink(s[..Step(s)])
  {
    BlankRunIs(s);
    if Blank(s[0]) {
      InkOfSpace(s[..Step(s)]);
      InkOfSpace(Replacement(pass, s[..Step(s)], s[Step(s)..]));
    }
  }

  lemma {:induction false} RewriteInk(pass: Pass, s: string)
    ensures Ink(Rewrite(pass, s)) == Ink(s)
    decreases |s|
  {
    if s != "" {
      hide Rewrite, Step, Stepped, Ink;
      var n := Step(s);
      RewriteSteps(pass, s);
      StepInk(pass, s);
      RewriteInk(pass, s[n..]);
      InkConcat(Stepped(pass, s[..n], s[n..]), Rewrite(pass, s[n..]));
      InkConcat(s[..n], s[n..]);
      assert s == s[..n] + s[n..];
    }
  }

  /** What a pass leaves alone. */
  predicate StillFor(pass: Pass, s: string) {
    forall i :: 0 <= i < |s| - 1 && Blank(s[i]) ==> if pass == Collapse then !Blank(s[i + 1]) else s[i + 1] != '\n'
  }

  /** No blank is followed by a blank or a line feed. */
  predicate Still(s: string) {
    StillFor(Collapse, s) && StillFor(TrimLines, s)
  }

  lemma StillStep(pass: Pass, s: string)
    requires StillFor(pass, s) && s != ""
    ensures Stepped(pass, s[..Step(s)], s[Step(s)..]) == s[..Step(s)] && StillFor(pass, s[Step(s)..])
  {
    BlankRunIs(s);
    var n := Step(s);
    assert forall i :: 0 <= i < |s| - n ==> s[n..][i] == s[n + i];
    if Blank(s[0]) {
      assert Blank(s[n - 1]);
      assert n >= 2 ==> Blank(s[1]);
    }
  }

  lemma {:induction false} StillIsKept(pass: Pass, s: string)
    requires StillFor(pass, s)
    ensures Rewrite(pass, s) == s
    decreases |s|
  {
    if s != "" {
      hide Rewrite, Step, Stepped, StillFor;
      RewriteSteps(pass, s);
      StillStep(pass, s);
      StillIsKept(pass, s[Step(s)..]);
      assert s == s[..Step(s)] + s[Step(s)..];
    }
  }

  lemma StepShrinks(pass: Pass, s: string)
    requires s != ""
    ensures |Stepped(pass, s[..Step(s)], s[Step(s)..])| <= Step(s)
    ensures pass == Collapse && Step(s) >= 2 ==> |Stepped(pass, s[..Step(s)], s[Step(s)..])| < Step(s)
    ensures pass == TrimLines && Blank(s[0]) && Step(s) < |s| && s[Step(s)] == '\n'
      ==> |Stepped(pass, s[..Step(s)], s[Step(s)..])| < Step(s)
  {
    BlankRunIs(s);
  }

  /** Only still text keeps its length through a pass that has work to do on it. */
  lemma {:induction false} RewriteShrinks(pass: Pass, s: string, i: nat)
    ensures |Rewrite(pass, s)| <= |s|
    ensures i + 1 < |s| && Blank(s[i]) && pass == Collapse && Blank(s[i + 1]) ==> |Rewrite(pass, s)| < |s|
    ensures i + 1 < |s| && Blank(s[i]) && pass == TrimLines && s[i + 1] == '\n' ==> |Rewrite(pass, s)| < |s|
    decreases |s|
  {
    if s != "" {
      hide Rewrite, Stepped;
      var n := Step(s);
      BlankRunIs(s);
      RewriteSteps(pass, s);
      StepShrinks(pass, s);
      RewriteShrinks(pass, s[n..], if i >= n then i - n else |s|);
    }
  }

  /** Text comes through both passes unchanged exactly when it is still. */
  lemma SettledExactly(s: string)
    ensures Settle(s) == s <==> Still(s)
  {
    hide Rewrite;
    var collapsed := Rewrite(Collapse, s);
    RewriteShrinks(TrimLines, collapsed, 0);
    if StillFor(Collapse, s) {
      StillIsKept(Collapse, s);
      if StillFor(TrimLines, s) {
        StillIsKept(TrimLines, s);
      } else {
        var i :| 0 <= i < |s| - 1 && Blank(s[i]) && s[i + 1] == '\n';
        RewriteShrinks(TrimLines, s, i);
      }
    } else {
      var i :| 0 <= i < |s| - 1 && Blank(s[i]) && Blank(s[i + 1]);
      RewriteShrinks(Collapse, s, i);
    }
  }

  lemma BlankRunOf(run: string, y: string)
    requires forall i :: 0 <= i < |run| ==> Blank(run[i])
    requires y == "" || !Blank(y[0])
    ensures BlankRun(run + y) == |run|
  {
    BlankRunIs(run + y);
    assert forall i :: 0 <= i < |run| ==> (run + y)[i] == run[i];
    assert y != "" ==> (run + y)[|run|] == y[0];
  }

  lemma RunFirst(pass: Pass, run: string, y: string)
    requires run != "" && forall i :: 0 <= i < |run| ==> Blank(run[i])
    requires y == "" || !Blank(y[0])
    ensures Rewrite(pass, run + y) == Replacement(pass, run, y) + Rewrite(pass, y)
  {
    hide Rewrite, Replacement;
    BlankRunOf(run, y);
    RewriteSteps(pass, run + y);
    assert (run + y)[0] == run[0] && (run + y)[..|run|] == run && (run + y)[|run|..] == y;
  }

  lemma RunRewritten(pass: Pass, x: string, run: string, y: string)
    requires forall i :: 0 <= i < |run| ==> Blank(run[i])
    requires (x == "" || !Blank(x[|x| - 1])) && (y == "" || !Blank(y[0]))
    ensures Rewrite(pass, x + run + y) == Rewrite(pass, x) + (if run == "" then "" else Replacement(pass, run, y)) + Rewrite(pass, y)
  {
    hide Rewrite, Replacement;
    Regroup(x, run, y, "");
    RewriteSplits(pass, x, run + y);
    if run == "" {
      assert run + y == y;
    } else {
      RunFirst(pass, run, y);
      Regroup(Rewrite(pass, x), Replacement(pass, run, y), Rewrite(pass, y), "");
    }
  }

  /** What the two passes make of one run of blanks: nothing in front of a line feed, one
      space if it is two or longer, otherwise itself. Together with `SettledExactly` for
      the text between the runs, this determines them on every text. */
  lemma RunSettlesExactly(x: string, run: string, y: string)
    requires forall i :: 0 <= i < |run| ==> run[i] == ' ' || run[i] == '\t'
    requires x == "" || (x[|x| - 1] != ' ' && x[|x| - 1] != '\t')
    requires y == "" || (y[0] != ' ' && y[0] != '\t')
    ensures
      var settled := if y != "" && y[0] == '\n' then "" else if |run| >= 2 then " " else run;
      Settle(x + run + y) == Settle(x) + settled + Settle(y)
  {
    hide Rewrite;
    var once := if |run| >= 2 then " " else run;
    RunRewritten(Collapse, x, run, y);
    if x != "" { RewriteEnds(Collapse, x); } else { NothingRewritten(Collapse); }
    if y != "" { RewriteEnds(Collapse, y); } else { NothingRewritten(Collapse); }
    RunRewritten(TrimLines, Rewrite(Collapse, x), once, Rewrite(Collapse, y));
  }

  // ----- Removing the spans -----

  /** Where the static piece before span `k` begins and ends. */
  function From(spans: seq<Span>, k: nat): nat
    requires k <= |spans|
  {
    if k == 0 then 0 else spans[k - 1].end
  }

  function To(text: string, spans: seq<Span>, k: nat): nat
    requires k <= |spans|
  {
    if k == |spans| then |text| else spans[k].start
  }

  function Gap(text: string, spans: seq<Span>, k: nat): string
    requires Within(text, spans) && k <= |spans|
  {
    text[From(spans, k)..To(text, spans, k)]
  }

  /** The static text around the spans from piece `k` on: one more piece than spans. */
  function Gaps(text: string, spans: seq<Span>, k: nat): (gaps: seq<string>)
    requires Within(text, spans) && k <= |spans|
    ensures |gaps| == |spans| - k + 1
    decreases |spans| - k
  {
    [Gap(text, spans, k)] + if k == |spans| then [] else Gaps(text, spans, k + 1)
  }

  function Singles(s: string): seq<string> { seq(|s|, i requires 0 <= i < |s| => [s[i]]) }

  /** A span once overwritten: a space and then nothing. */
  function Hole(s: Span): seq<string>
    requires s.start < s.end
  {
    [" "] + Empties(s.end - s.start - 1)
  }

  function Empties(n: nat): seq<string> { seq(n, i => "") }

  /** The character list from piece `k` on once its spans are overwritten. */
  function Masked(text: string, spans: seq<Span>, k: nat): (chars: seq<string>)
    requires Within(text, spans) && k <= |spans|
    ensures |chars| == |text| - From(spans, k)
    decreases |spans| - k
  {
    Singles(Gap(text, spans, k))
    + if k == |spans| then [] else Hole(spans[k]) + Masked(text, spans, k + 1)
  }

  lemma {:induction false} ConcatAppend(a: seq<string>, b: seq<string>)
    ensures Concat(a + b) == Concat(a) + Concat(b)
  {
    if a == [] {
      assert a + b == b;
    } else {
      assert (a + b)[1..] == a[1..] + b;
      ConcatAppend(a[1..], b);
    }
  }

  lemma {:induction false} ConcatSingles(s: string)
    ensures Concat(Singles(s)) == s
  {
    if s != "" {
      assert Singles(s)[1..] == Singles(s[1..]);
      ConcatSingles(s[1..]);
    }
  }

  lemma {:induction false} ConcatEmpties(n: nat)
    ensures Concat(Empties(n)) == ""
  {
    if n > 0 {
      assert Empties(n)[1..] == Empties(n - 1);
      ConcatEmpties(n - 1);
    }
  }

  lemma ConcatHole(text: string, spans: seq<Span>, k: nat)
    requires Within(text, spans) && k < |spans|
    ensures Concat(Hole(spans[k])) == " "
  {
    var s := spans[k];
    ConcatEmpties(s.end - s.start - 1);
    assert Hole(s)[1..] == Empties(s.end - s.start - 1);
  }

  /** Overwriting in place leaves the gaps, one space where each span was. */
  lemma {:induction false} MaskedIsTheGaps(text: string, spans: seq<Span>, k: nat)
    requires Within(text, spans) && k <= |spans|
    ensures Concat(Masked(text, spans, k)) == Join(Gaps(text, spans, k), " ")
    decreases |spans| - k
  {
    hide Masked, Gaps, Gap, Join, Concat, Singles, Hole;
    if k == |spans| {
      LastPiece(text, spans);
    } else {
      MaskedIsTheGaps(text, spans, k + 1);
      MaskedStep(text, spans, k);
      GapsStep(text, spans, k);
      ConcatSingles(Gap(text, spans, k));
      ConcatHole(text, spans, k);
      ConcatAppend(Singles(Gap(text, spans, k)) + Hole(spans[k]), Masked(text, spans, k + 1));
      ConcatAppend(Singles(Gap(text, spans, k)), Hole(spans[k]));
    }
  }

  /** Joining the pieces, one piece at a time. */
  lemma GapsStep(text: string, spans: seq<Span>, k: nat)
    requires Within(text, spans) && k < |spans|
    ensures Join(Gaps(text, spans, k), " ") == Gap(text, spans, k) + " " + Join(Gaps(text, spans, k + 1), " ")
  {
    assert Gaps(text, spans, k)[1..] == Gaps(text, spans, k + 1);
  }

  /** The in-place part of `align`: right to left, each span becomes one space. */
  method RemoveSpans(text: string, spans: seq<Span>) returns (body: string)
    requires Within(text, spans)
    ensures body == Join(Gaps(text, spans, 0), " ")
  {
    hide Masked, Gaps, Join, Concat, Hole;
    var chars := new string[|text|](i requires 0 <= i < |text| => [text[i]]);
    assert chars[..] == Singles(text);
    var k := |spans|;
    NothingMasked(text, spans);
    while k > 0
      invariant 0 <= k <= |spans|
      invariant chars[..] == Singles(text[..From(spans, k)]) + Masked(text, spans, k)
    {
      k := k - 1;
      ghost var before := chars[..];
      BlankOut(chars, spans[k]);
      MaskOneMore(text, spans, k, before, chars[..]);
    }
    MaskedIsTheGaps(text, spans, 0);
    assert Singles(text[..0]) == [];
    assert chars[..] == Masked(text, spans, 0);
    body := Concat(chars[..]);
  }

  method BlankOut(chars: array<string>, s: Span)
    requires s.start < s.end <= chars.Length
    modifies chars
    ensures chars[..] == old(chars[..s.start]) + Hole(s) + old(chars[s.end..])
  {
    for i := s.start to s.end
      invariant forall j :: 0 <= j < chars.Length ==>
        chars[j] == if s.start <= j < i then (if j != s.start then "" else " ") else old(chars[j])
    {
      chars[i] := if i != s.start then "" else " ";
    }
  }

  lemma AllSingles(text: string, p: nat)
    requires p <= |text|
    ensures Singles(text) == Singles(text[..p]) + Singles(text[p..])
  {
  }

  lemma NothingMasked(text: string, spans: seq<Span>)
    requires Within(text, spans)
    ensures Singles(text) == Singles(text[..From(spans, |spans|)]) + Masked(text, spans, |spans|)
  {
    AllSingles(text, From(spans, |spans|));
  }

  lemma MaskOneMore(text: string, spans: seq<Span>, k: nat, before: seq<string>, after: seq<string>)
    requires Within(text, spans) && k < |spans| && |before| == |text|
    requires before == Singles(text[..From(spans, k + 1)]) + Masked(text, spans, k + 1)
    requires after == before[..spans[k].start] + Hole(spans[k]) + before[spans[k].end..]
    ensures after == Singles(text[..From(spans, k)]) + Masked(text, spans, k)
  {
    var (from, s) := (From(spans, k), spans[k]);
    hide Masked;
    assert before[s.end..] == Masked(text, spans, k + 1);
    assert before[..s.start] == Singles(text[..s.start]);
    AllSingles(text[..s.start], from);
    assert text[..s.start][..from] == text[..from] && text[..s.start][from..] == text[from..s.start];
    MaskedStep(text, spans, k);
  }

  lemma MaskedStep(text: string, spans: seq<Span>, k: nat)
    requires Within(text, spans) && k < |spans|
    ensures Masked(text, spans, k) == Singles(Gap(text, spans, k)) + Hole(spans[k]) + Masked(text, spans, k + 1)
  {
  }

  // ----- The aligned text -----

  const HEADER: string := "--- Dynamic context ---"

  datatype Aligned = Aligned(text: string, extracted: seq<Span>, prefixStabilized: bool, movedChars: nat)

  function Value(text: string, s: Span): string
    requires InText(text, s)
  {
    text[s.start..s.end]
  }

  function Line(text: string, s: Span): string
    requires InText(text, s)
  {
    "- " + KindName(s.kind) + ": " + Value(text, s)
  }

  function Lines(text: string, spans: seq<Span>): (lines: seq<string>)
    requires forall i :: 0 <= i < |spans| ==> InText(text, spans[i])
    ensures |lines| == |spans| && forall i :: 0 <= i < |spans| ==> lines[i] == Line(text, spans[i])
  {
    if spans == [] then [] else Lines(text, spans[..|spans| - 1]) + [Line(text, spans[|spans| - 1])]
  }

  function Moved(spans: seq<Span>): nat
    requires forall i :: 0 <= i < |spans| ==> spans[i].start < spans[i].end
  {
    if spans == [] then 0 else Moved(spans[..|spans| - 1]) + spans[|spans| - 1].end - spans[|spans| - 1].start
  }

  function Body(text: string, spans: seq<Span>): string
    requires Within(text, spans)
  {
    RStrip(Settle(Join(Gaps(text, spans, 0), " ")))
  }

  function AlignedText(text: string, spans: seq<Span>): string
    requires Within(text, spans)
  {
    if spans == [] then text
    else Body(text, spans) + "\n" + Join(["", HEADER] + Lines(text, spans), "\n") + "\n"
  }

  function ProfileSkip(profile: Option<string>): set<Kind> {
    if profile == Some("code") || profile == Some("docs") then {Token} else {}
  }

  lemma MatchesNeedText(text: string, matches: seq<Span>)
    requires forall m :: m in matches ==> InText(text, m)
    ensures matches != [] ==> text != ""
  {
    if matches != [] {
      assert InText(text, matches[0]);
    }
  }

  method DynamicLines(text: string, spans: seq<Span>) returns (lines: seq<string>)
    requires forall i :: 0 <= i < |spans| ==> InText(text, spans[i])
    ensures lines == ["", HEADER] + Lines(text, spans)
  {
    lines := ["", HEADER];
    for k := 0 to |spans|
      invariant lines == ["", HEADER] + Lines(text, spans[..k])
    {
      lines := lines + [Line(text, spans[k])];
      assert spans[..k + 1][..k] == spans[..k];
    }
    assert spans[..|spans|] == spans;
  }

  method MovedChars(spans: seq<Span>) returns (moved: nat)
    requires forall i :: 0 <= i < |spans| ==> spans[i].start < spans[i].end
    ensures moved == Moved(spans)
  {
    moved := 0;
    for k := 0 to |spans|
      invariant moved == Moved(spans[..k])
    {
      moved := moved + (spans[k].end - spans[k].start);
      assert spans[..k + 1][..k] == spans[..k];
    }
    assert spans[..|spans|] == spans;
  }

  /** `align`, given the raw matches of the dynamic-literal patterns. */
  method Align(digits: map<char, nat>, text: string, matches: seq<Span>, profile: Option<string>, skipKinds: set<Kind>)
    returns (result: Aligned)
    requires forall m :: m in matches ==> InText(text, m)
    ensures
      var spans := Accepted(ProfileSkip(profile) + skipKinds, FindAll(digits, text, 0), matches);
      && Within(text, spans)
      && result.text == AlignedText(text, spans) && result.extracted == spans
      && result.movedChars == Moved(spans) && (result.prefixStabilized <==> spans != [] && spans[0].start > 0)
    ensures forall s :: s in result.extracted ==>
      s in matches && s.kind !in skipKinds && (profile == Some("code") || profile == Some("docs") ==> s.kind != Token)
  {
    if text == "" {
      MatchesNeedText(text, matches);
      return Aligned("", [], false, 0);
    }
    var skip := ProfileSkip(profile) + skipKinds;
    var protected := FindAll(digits, text, 0);
    AcceptedAreDisjoint(text, skip, protected, matches);
    var spans := ExtractSpans(matches, skip, protected);
    if spans == [] {
      return Aligned(text, [], false, 0);
    }
    var body := RemoveSpans(text, spans);
    body := Rewrite(Collapse, body);
    body := Rewrite(TrimLines, body);
    body := RStrip(body);
    var lines := DynamicLines(text, spans);
    var moved := MovedChars(spans);
    result := Aligned(body + "\n" + Join(lines, "\n") + "\n", spans, spans[0].start > 0, moved);
  }


  // ----- What alignment keeps -----

  function Values(text: string, spans: seq<Span>, k: nat): (values: seq<string>)
    requires Within(text, spans) && k <= |spans|
    ensures |values| == |spans| - k
    decreases |spans| - k
  {
    if k == |spans| then [] else [Value(text, spans[k])] + Values(text, spans, k + 1)
  }

  function Weave(gaps: seq<string>, values: seq<string>): string
    requires |gaps| == |values| + 1
  {
    if values == [] then gaps[0] else gaps[0] + values[0] + Weave(gaps[1..], values[1..])
  }

  /** Nothing is lost: the static pieces and the listed values are the whole text. */
  lemma {:induction false} PiecesRebuildTheText(text: string, spans: seq<Span>, k: nat)
    requires Within(text, spans) && k <= |spans|
    ensures text[From(spans, k)..] == Weave(Gaps(text, spans, k), Values(text, spans, k))
    decreases |spans| - k
  {
    hide *;
    if k == |spans| {
      LastPiece(text, spans);
    } else {
      PiecesRebuildTheText(text, spans, k + 1);
      WeaveStep(text, spans, k);
      TailSplits(text, spans, k);
    }
  }

  /** The last piece, in each of the three readings. */
  lemma LastPiece(text: string, spans: seq<Span>)
    requires Within(text, spans)
    ensures Concat(Masked(text, spans, |spans|)) == Join(Gaps(text, spans, |spans|), " ")
    ensures text[From(spans, |spans|)..] == Weave(Gaps(text, spans, |spans|), Values(text, spans, |spans|))
  {
    var gap := Gap(text, spans, |spans|);
    ConcatSingles(gap);
    assert Masked(text, spans, |spans|) == Singles(gap) && Gaps(text, spans, |spans|) == [gap];
  }

  lemma WeaveStep(text: string, spans: seq<Span>, k: nat)
    requires Within(text, spans) && k < |spans|
    ensures Weave(Gaps(text, spans, k), Values(text, spans, k))
         == Gap(text, spans, k) + Value(text, spans[k]) + Weave(Gaps(text, spans, k + 1), Values(text, spans, k + 1))
  {
    var (gaps, values) := (Gaps(text, spans, k), Values(text, spans, k));
    assert gaps[1..] == Gaps(text, spans, k + 1) && values[1..] == Values(text, spans, k + 1);
  }

  lemma TailSplits(text: string, spans: seq<Span>, k: nat)
    requires Within(text, spans) && k < |spans|
    ensures text[From(spans, k)..] == Gap(text, spans, k) + Value(text, spans[k]) + text[From(spans, k + 1)..]
  {
    var (tail, n) := (text[From(spans, k)..], |Gap(text, spans, k)|);
    ThreeParts(tail, n, n + |Value(text, spans[k])|);
  }

  lemma {:induction false} MovedFrom(text: string, spans: seq<Span>, k: nat)
    requires Within(text, spans) && k <= |spans|
    ensures |Concat(Gaps(text, spans, k))| + Moved(spans) == |text| - From(spans, k) + Moved(spans[..k])
    decreases |spans| - k
  {
    if k == |spans| {
      assert spans[..k] == spans;
      assert Concat([]) == "";
    } else {
      MovedFrom(text, spans, k + 1);
      assert spans[..k + 1][..k] == spans[..k];
      assert Gaps(text, spans, k)[1..] == Gaps(text, spans, k + 1);
    }
  }

  /** Every character is counted as moved or stands in a static piece. */
  lemma MovedConserves(text: string, spans: seq<Span>)
    requires Within(text, spans)
    ensures Moved(spans) + |Concat(Gaps(text, spans, 0))| == |text|
  {
    MovedFrom(text, spans, 0);
  }

  lemma {:induction false} JoinInk(parts: seq<string>)
    ensures Ink(Join(parts, " ")) == Ink(Concat(parts))
  {
    if |parts| >= 2 {
      JoinInk(parts[1..]);
      InkConcat(parts[0] + " ", Join(parts[1..], " "));
      InkConcat(parts[0], " ");
      InkOfSpace(" ");
      InkConcat(parts[0], Concat(parts[1..]));
    } else if |parts| == 1 {
      assert Concat(parts[1..]) == "" && parts[0] + "" == parts[0];
    }
  }

  lemma RStripInk(s: string)
    ensures Ink(RStrip(s)) == Ink(s)
  {
    RStripSplits(s);
    var r := RStrip(s);
    assert s == r + s[|r|..];
    InkConcat(r, s[|r|..]);
    InkOfSpace(s[|r|..]);
  }

  /** Every character outside the spans that is not whitespace is in the body, once
      and in order, and nothing else is. */
  lemma BodyKeepsTheInk(text: string, spans: seq<Span>)
    requires Within(text, spans)
    ensures Ink(Body(text, spans)) == Ink(Concat(Gaps(text, spans, 0)))
  {
    var joined := Join(Gaps(text, spans, 0), " ");
    JoinInk(Gaps(text, spans, 0));
    RewriteInk(Collapse, joined);
    RewriteInk(TrimLines, Rewrite(Collapse, joined));
    RStripInk(Settle(joined));
  }

  function SharedPrefix(body: string): string { body + "\n" + "\n" + HEADER + "\n" }

  /** Texts with the same static pieces, whatever dynamic values stand between them,
      align to texts with the same body and header: they can differ only in the listing. */
  lemma PrefixIsStable(text: string, spans: seq<Span>, text': string, spans': seq<Span>)
    requires Within(text, spans) && Within(text', spans') && spans != []
    requires Gaps(text, spans, 0) == Gaps(text', spans', 0)
    ensures Body(text, spans) == Body(text', spans')
    ensures SharedPrefix(Body(text, spans)) <= AlignedText(text, spans)
    ensures SharedPrefix(Body(text, spans)) <= AlignedText(text', spans')
  {
    StartsWithPrefix(text, spans);
    StartsWithPrefix(text', spans');
  }

  lemma StartsWithPrefix(text: string, spans: seq<Span>)
    requires Within(text, spans) && spans != []
    ensures SharedPrefix(Body(text, spans)) <= AlignedText(text, spans)
  {
    hide Body, Lines, Join;
    Listed(Body(text, spans), HEADER, Lines(text, spans), "\n");
  }

  lemma Listed(body: string, header: string, lines: seq<string>, sep: string)
    requires lines != []
    ensures body + sep + Join(["", header] + lines, sep) + sep
         == (body + sep + sep + header + sep) + (Join(lines, sep) + sep)
  {
    var all := ["", header] + lines;
    assert all[1..] == [header] + lines && all[1..][1..] == lines;
  }

  // ----- Texts written from static pieces and values -----

  ghost predicate Woven(gaps: seq<string>, values: seq<string>, kinds: seq<Kind>) {
    |gaps| == |values| + 1 && |kinds| == |values| && forall i :: 0 <= i < |values| ==> values[i] != ""
  }

  /** Where piece `k` begins. */
  ghost function Offset(gaps: seq<string>, values: seq<string>, k: nat): nat
    requires |gaps| == |values| + 1 && k <= |values|
  {
    if k == 0 then 0 else Offset(gaps, values, k - 1) + |gaps[k - 1]| + |values[k - 1]|
  }

  ghost function ValueSpans(gaps: seq<string>, values: seq<string>, kinds: seq<Kind>): seq<Span>
    requires Woven(gaps, values, kinds)
  {
    seq(|values|, k requires 0 <= k < |values| =>
      Span(kinds[k], Offset(gaps, values, k) + |gaps[k]|, Offset(gaps, values, k + 1)))
  }

  lemma {:induction false} OffsetsAscend(gaps: seq<string>, values: seq<string>, j: nat, k: nat)
    requires |gaps| == |values| + 1 && j <= k <= |values|
    ensures Offset(gaps, values, j) <= Offset(gaps, values, k)
  {
    if j < k {
      OffsetsAscend(gaps, values, j, k - 1);
    }
  }

  lemma {:induction false} WovenFrom(gaps: seq<string>, values: seq<string>, kinds: seq<Kind>, k: nat)
    requires Woven(gaps, values, kinds) && k <= |values|
    ensures var (text, at) := (Weave(gaps, values), Offset(gaps, values, k));
      at <= |text| && text[at..] == Weave(gaps[k..], values[k..])
  {
    if k > 0 {
      var (text, at) := (Weave(gaps, values), Offset(gaps, values, k - 1));
      WovenFrom(gaps, values, kinds, k - 1);
      assert gaps[k - 1..][1..] == gaps[k..] && values[k - 1..][1..] == values[k..];
      var n := |gaps[k - 1]| + |values[k - 1]|;
      assert text[at..][n..] == text[at + n..];
    } else {
      assert gaps[0..] == gaps && values[0..] == values;
    }
  }

  lemma PieceOfWoven(gaps: seq<string>, values: seq<string>, kinds: seq<Kind>, k: nat)
    requires Woven(gaps, values, kinds) && k <= |values|
    ensures var (text, at) := (Weave(gaps, values), Offset(gaps, values, k));
      at + |gaps[k]| <= |text| && text[at..at + |gaps[k]|] == gaps[k] && (k == |values| ==> at + |gaps[k]| == |text|)
  {
    WovenFrom(gaps, values, kinds, k);
    var (text, at) := (Weave(gaps, values), Offset(gaps, values, k));
    assert Weave(gaps[k..], values[k..])[..|gaps[k]|] == gaps[k];
    assert text[at..][..|gaps[k]|] == text[at..at + |gaps[k]|];
  }

  lemma ValueSpansWithin(gaps: seq<string>, values: seq<string>, kinds: seq<Kind>)
    requires Woven(gaps, values, kinds)
    ensures Within(Weave(gaps, values), ValueSpans(gaps, values, kinds))
  {
    var (text, spans) := (Weave(gaps, values), ValueSpans(gaps, values, kinds));
    forall i | 0 <= i < |spans|
      ensures InText(text, spans[i])
    {
      WovenFrom(gaps, values, kinds, i + 1);
    }
    forall i, j | 0 <= i < j < |spans|
      ensures spans[i].end <= spans[j].start
    {
      OffsetsAscend(gaps, values, i + 1, j);
    }
  }

  lemma {:induction false} GapsOfWoven(gaps: seq<string>, values: seq<string>, kinds: seq<Kind>, k: nat)
    requires Woven(gaps, values, kinds) && k <= |values| && Within(Weave(gaps, values), ValueSpans(gaps, values, kinds))
    ensures Gaps(Weave(gaps, values), ValueSpans(gaps, values, kinds), k) == gaps[k..]
    decreases |values| - k
  {
    PieceOfWoven(gaps, values, kinds, k);
    if k < |values| {
      GapsOfWoven(gaps, values, kinds, k + 1);
    }
    assert gaps[k..] == [gaps[k]] + gaps[k + 1..];
  }

  /** Two texts written from one list of static pieces with different values between
      them align to one body and one prefix, if the spans are the values. */
  lemma WovenPrefix(gaps: seq<string>, values: seq<string>, kinds: seq<Kind>)
    requires Woven(gaps, values, kinds) && values != []
    ensures Within(Weave(gaps, values), ValueSpans(gaps, values, kinds))
    ensures
      SharedPrefix(RStrip(Settle(Join(gaps, " ")))) <= AlignedText(Weave(gaps, values), ValueSpans(gaps, values, kinds))
  {
    hide Weave, Gaps, Offset, AlignedText, SharedPrefix, Settle, RStrip;
    var (text, spans) := (Weave(gaps, values), ValueSpans(gaps, values, kinds));
    ValueSpansWithin(gaps, values, kinds);
    GapsOfWoven(gaps, values, kinds, 0);
    assert gaps[0..] == gaps;
    PrefixIsStable(text, spans, text, spans);
  }

  /** What the patterns match in a text written from static pieces and values. */
  datatype Matched = Matched(values: seq<string>, kinds: seq<Kind>, matches: seq<Span>, skip: set<Kind>)

  /** The values of the text are a selection of its matches: each is a match no marker
      touches, and every other such match is displaced by one of them. */
  ghost predicate ValuesAreSelected(digits: map<char, nat>, gaps: seq<string>, m: Matched) {
    && Woven(gaps, m.values, m.kinds) && PatternByPattern(m.matches)
    && (forall x :: x in m.matches ==> InText(Weave(gaps, m.values), x))
    && IsSelection(m.skip, FindAll(digits, Weave(gaps, m.values), 0), m.matches, ValueSpans(gaps, m.values, m.kinds))
  }

  ghost function SpansOf(digits: map<char, nat>, gaps: seq<string>, m: Matched): seq<Span>
    requires ValuesAreSelected(digits, gaps, m)
  {
    Accepted(m.skip, FindAll(digits, Weave(gaps, m.values), 0), m.matches)
  }

  /** Two texts written from one list of static pieces with different dynamic values
      between them, which are what the selection accepts if and only if they are a
      selection, align to one body and one prefix through the header. */
  lemma SameStaticTextSamePrefix(digits: map<char, nat>, gaps: seq<string>, m: Matched, m': Matched)
    requires ValuesAreSelected(digits, gaps, m) && ValuesAreSelected(digits, gaps, m') && m.values != []
    ensures
      var (text, text') := (Weave(gaps, m.values), Weave(gaps, m'.values));
      var (spans, spans') := (SpansOf(digits, gaps, m), SpansOf(digits, gaps, m'));
      var prefix := SharedPrefix(RStrip(Settle(Join(gaps, " "))));
      && Within(text, spans) && Within(text', spans')
      && prefix <= AlignedText(text, spans) && prefix <= AlignedText(text', spans')
  {
    SelectedPrefix(digits, gaps, m);
    SelectedPrefix(digits, gaps, m');
  }

  lemma SelectedPrefix(digits: map<char, nat>, gaps: seq<string>, m: Matched)
    requires ValuesAreSelected(digits, gaps, m) && m.values != []
    ensures
      var (text, spans) := (Weave(gaps, m.values), SpansOf(digits, gaps, m));
      && spans == ValueSpans(gaps, m.values, m.kinds) && Within(text, spans)
      && SharedPrefix(RStrip(Settle(Join(gaps, " ")))) <= AlignedText(text, spans)
  {
    hide IsSelection, Accepted, FindAll, ValueSpans, AlignedText, SharedPrefix, Settle, RStrip, Weave, Join, Within;
    var (text, spans) := (Weave(gaps, m.values), ValueSpans(gaps, m.values, m.kinds));
    AcceptedExactly(text, m.skip, FindAll(digits, text, 0), m.matches, spans);
    WovenPrefix(gaps, m.values, m.kinds);
  }

  /** A listing line, written out kind by kind. */
  predicate Lists(line: string, kind: Kind, value: string) {
    match kind
    case Timestamp => line == "- timestamp: " + value
    case Uuid => line == "- uuid: " + value
    case SessionId => line == "- session_id: " + value
    case Date => line == "- date: " + value
    case Token => line == "- token: " + value
  }

  lemma LineLists(text: string, s: Span)
    requires InText(text, s)
    ensures Lists(Line(text, s), s.kind, text[s.start..s.end])
  {
  }

  /** The first of the last `n` lines before the final line feed. */
  function ListingStart(aligned: string, n: nat): int {
    |Split(aligned, '\n')| - 1 - n
  }

  /** Read line by line the aligned text is the body, an empty line, the header and then,
      in span order, one line per extracted value: a dash, its kind and the value. */
  lemma ListingIsReadable(text: string, spans: seq<Span>)
    requires Within(text, spans) && spans != []
    requires forall i :: 0 <= i < |spans| ==> Free(Value(text, spans[i]), '\n')
    ensures
      var (lines, body) := (Split(AlignedText(text, spans), '\n'), Split(Body(text, spans), '\n'));
      && |lines| == |body| + |spans| + 3 && lines[..|body|] == body
      && lines[|body|] == "" && lines[|body| + 1] == "--- Dynamic context ---" && lines[|lines| - 1] == ""
      && forall k :: 0 <= k < |spans| ==>
           Lists(lines[|body| + 2 + k], spans[k].kind, text[spans[k].start..spans[k].end])
  {
    hide Body, Split, Line, Lists, AlignedText;
    AlignedLines(text, spans);
    forall k | 0 <= k < |spans|
      ensures Lists(Line(text, spans[k]), spans[k].kind, text[spans[k].start..spans[k].end])
    {
      LineLists(text, spans[k]);
    }
  }

  /** What a listing line shows: whatever comes after its first colon and space. */
  function Shown(line: string): string {
    if line == "" then "" else if line[0] == ':' then (if |line| >= 2 then line[2..] else "") else Shown(line[1..])
  }

  lemma {:induction false} ShownAfter(head: string, value: string)
    requires Free(head, ':')
    ensures Shown(head + ": " + value) == value
  {
    var line := head + ": " + value;
    if head == "" {
      assert line[2..] == value;
    } else {
      assert line[1..] == head[1..] + ": " + value;
      ShownAfter(head[1..], value);
    }
  }

  lemma LineShows(line: string, kind: Kind, value: string)
    requires Lists(line, kind, value)
    ensures Shown(line) == value
  {
    var head := match kind
      case Timestamp => "- timestamp"
      case Uuid => "- uuid"
      case SessionId => "- session_id"
      case Date => "- date"
      case Token => "- token";
    ShownAfter(head, value);
    assert line == head + ": " + value;
  }

  /** The values of the last `n` lines. */
  function ReadListing(aligned: string, n: nat): (values: seq<string>)
    requires ListingStart(aligned, n) >= 0
    ensures |values| == n
  {
    var lines := Split(aligned, '\n');
    seq(n, k requires 0 <= k < n => Shown(lines[ListingStart(aligned, n) + k]))
  }

  /** Nothing is lost: the values read off the returned text, woven into the static pieces,
      are the text that went in. */
  lemma ListingRebuildsTheText(text: string, spans: seq<Span>)
    requires Within(text, spans) && spans != []
    requires forall i :: 0 <= i < |spans| ==> Free(Value(text, spans[i]), '\n')
    ensures ListingStart(AlignedText(text, spans), |spans|) >= 0
    ensures text == Weave(Gaps(text, spans, 0), ReadListing(AlignedText(text, spans), |spans|))
  {
    hide AlignedText, Body, Split, Lists, Shown, Gaps, Weave;
    ListingIsReadable(text, spans);
    var (aligned, read) := (AlignedText(text, spans), ReadListing(AlignedText(text, spans), |spans|));
    var (lines, values) := (Split(aligned, '\n'), Values(text, spans, 0));
    forall k | 0 <= k < |spans|
      ensures read[k] == values[k]
    {
      LineShows(lines[ListingStart(aligned, |spans|) + k], spans[k].kind, text[spans[k].start..spans[k].end]);
      ValueAt(text, spans, 0, k);
    }
    assert read == values;
    PiecesRebuildTheText(text, spans, 0);
    assert text[0..] == text;
  }

  lemma {:induction false} ValueAt(text: string, spans: seq<Span>, from: nat, k: nat)
    requires Within(text, spans) && from <= k < |spans|
    ensures Values(text, spans, from)[k - from] == text[spans[k].start..spans[k].end]
    decreases k - from
  {
    if from < k {
      ValueAt(text, spans, from + 1, k);
    }
  }

  lemma AlignedLines(text: string, spans: seq<Span>)
    requires Within(text, spans) && spans != []
    requires forall i :: 0 <= i < |spans| ==> Free(Value(text, spans[i]), '\n')
    ensures Split(AlignedText(text, spans), '\n')
         == Split(Body(text, spans), '\n') + ["", HEADER] + Lines(text, spans) + [""]
  {
    hide Body, Split, Line;
    var all := ["", HEADER] + Lines(text, spans);
    forall i | 0 <= i < |all|
      ensures Free(all[i], '\n')
    {
      if i >= 2 {
        LineIsOneLine(text, spans[i - 2]);
      }
    }
    SplitJoin(all, '\n');
    SplitBlock(Body(text, spans), Join(all, ['\n']));
  }

  lemma SplitBlock(body: string, block: string)
    ensures Split(body + "\n" + block + "\n", '\n') == Split(body, '\n') + Split(block, '\n') + [""]
  {
    SplitAppend(body + ['\n'] + block, '\n', "");
    SplitAppend(body, '\n', block);
    assert body + "\n" + block + "\n" == body + ['\n'] + block + ['\n'] + "";
  }

  lemma LineIsOneLine(text: string, s: Span)
    requires InText(text, s) && Free(Value(text, s), '\n')
    ensures Free(Line(text, s), '\n')
  {
    var value := Value(text, s);
    var head := "- " + KindName(s.kind) + ": ";
    assert Free(head, '\n');
    assert Line(text, s) == head + value;
    forall i | 0 <= i < |head + value|
      ensures (head + value)[i] != '\n'
    {
      if i >= |head| {
        assert value[i - |head|] != '\n';
      }
    }
  }
}
