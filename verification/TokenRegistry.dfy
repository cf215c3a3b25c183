/** The agent-token registry: issue, rotate with grace, revoke, validate. Times are
    whole seconds; jtis are fresh when minted. */
module TokenRegistry {
  import opened Text
  import opened Ordering
  import opened TokenEnvelope
  import Scope

  const DAY: int := 86_400
  const MAX_TTL_HOURS: real := 24.0
  const MAX_GRACE_MINUTES: int := 60

  datatype Row = Row(agent: string, aud: string, scope: string, iat: int, exp: int,
                     revokedAt: Option<int>, graceUntil: Option<int>)

  /** The `agent_tokens` table, by jti. */
  type Table = map<string, Row>

  // ----- What each statement does to the table -----

  function RowOf(c: Claims): Row {
    Row(c.sub, c.aud, Join(c.scope, ","), c.iat, c.exp, None, None)
  }

  function Registered(t: Table, c: Claims): Table {
    t[c.jti := RowOf(c)]
  }

  function Revoke(row: Row, now: int): Row {
    if row.revokedAt.None? then row.(revokedAt := Some(now)) else row
  }

  function RevokedOne(t: Table, jti: string, now: int): Table {
    if jti in t then t[jti := Revoke(t[jti], now)] else t
  }

  function RevokedAll(t: Table, agent: string, now: int): Table {
    map j | j in t :: if t[j].agent == agent then Revoke(t[j], now) else t[j]
  }

  function Unrevoked(t: Table, agent: string): set<string> {
    set j | j in t && t[j].agent == agent && t[j].revokedAt.None?
  }

  function Grace(row: Row, until: int): Row {
    if row.revokedAt.None? then row.(graceUntil := Some(until)) else row
  }

  function GracedRows(t: Table, js: set<string>, until: int): Table {
    map j | j in t :: if j in js then Grace(t[j], until) else t[j]
  }

  /** Un-revoked, un-expired, un-graced. */
  predicate Eligible(row: Row, now: int) {
    row.revokedAt.None? && row.exp > now && row.graceUntil.None?
  }

  function EligibleOf(t: Table, agent: string, now: int): set<string> {
    set j | j in t && t[j].agent == agent && Eligible(t[j], now)
  }

  // ----- Issuing -----

  datatype IssueError = BadAgent | BadNode | BadTtl | BadScope(error: Scope.ScopeError)

  predicate ShortId(s: string) { ShortText(s, MAX_ID) }

  /** `int(ttl_hours * 3600)`, exactly. */
  function Lifetime(ttlHours: real): int {
    (ttlHours * 3600.0).Floor
  }

  ghost function IssueClaims(agent: string, node: string, spec: string, ttlHours: real,
                             issuer: string, now: int, jti: string): Result<Claims, IssueError>
  {
    if !ShortId(agent) then Err(BadAgent)
    else if !ShortId(node) then Err(BadNode)
    else if !(0.0 < ttlHours <= MAX_TTL_HOURS) then Err(BadTtl)
    else
      match Scope.Parse(spec)
      case Err(e) => Err(BadScope(e))
      case Ok(scope) => Ok(Claims(issuer, agent, node, scope, now, now + Lifetime(ttlHours), jti, 1))
  }

  // ----- Rotating -----

  datatype RotateError = BadGrace | NothingToRotate | NotIssued(error: IssueError)

  /** The row a rotation copies: eligible, and none eligible was issued later. */
  ghost predicate Newest(t: Table, agent: string, now: int, j: string) {
    j in EligibleOf(t, agent, now) && forall k :: k in EligibleOf(t, agent, now) ==> t[k].iat <= t[j].iat
  }

  /** The lifetime of the copied token, at most a day and at least a second, in hours. */
  function RotatedTtl(row: Row): real {
    var life := if row.exp - row.iat < DAY then row.exp - row.iat else DAY;
    var hours := life as real / 3600.0;
    if hours > 1.0 / 3600.0 then hours else 1.0 / 3600.0
  }

  ghost function RotatedClaims(row: Row, agent: string, issuer: string, now: int, jti: string): Result<Claims, IssueError> {
    IssueClaims(agent, row.aud, row.scope, RotatedTtl(row), issuer, now, jti)
  }

  /** `issued` is the outcome of issuing a copy of row `j`, the newest eligible. */
  ghost predicate Copies(t: Table, agent: string, issuer: string, now: int, jti: string, j: string,
                         issued: Result<Claims, IssueError>)
  {
    Newest(t, agent, now, j) && issued == RotatedClaims(t[j], agent, issuer, now, jti)
  }

  /** A rotation that found a token to copy: every eligible row of the agent is
      graced, and the outcome of issuing a copy of the newest is registered. */
  ghost predicate Rotated(t: Table, t': Table, agent: string, graceMinutes: int, issuer: string, now: int, jti: string,
                          issued: Result<Claims, IssueError>)
  {
    var graced := GracedRows(t, EligibleOf(t, agent, now), now + graceMinutes * 60);
    && t' == (if issued.Ok? then Registered(graced, issued.value) else graced)
    && exists j :: Copies(t, agent, issuer, now, jti, j, issued)
  }

  // ----- The store -----

  class AgentTokenStore {
    var rows: Table

    constructor ()
      ensures rows == map[]
    {
      rows := map[];
    }

    method Register(c: Claims)
      requires c.jti !in rows
      modifies this
      ensures rows == Registered(old(rows), c)
    {
      rows := rows[c.jti := Row(c.sub, c.aud, Join(c.scope, ","), c.iat, c.exp, None, None)];
    }

    method RevokeJti(jti: string, now: int) returns (flipped: bool)
      modifies this
      ensures rows == RevokedOne(old(rows), jti, now)
      ensures flipped == (jti in old(rows) && old(rows)[jti].revokedAt.None?)
    {
      flipped := jti in rows && rows[jti].revokedAt.None?;
      if flipped {
        rows := rows[jti := rows[jti].(revokedAt := Some(now))];
      } else {
        assert rows == RevokedOne(rows, jti, now);
      }
    }

    method RevokeAgent(agent: string, now: int) returns (count: nat)
      modifies this
      ensures rows == RevokedAll(old(rows), agent, now)
      ensures count == |Unrevoked(old(rows), agent)|
    {
      var live := Unrevoked(rows, agent);
      count := |live|;
      rows := map j | j in rows :: if j in live then rows[j].(revokedAt := Some(now)) else rows[j];
    }

    method SetGrace(jti: string, until: int) returns (ok: bool)
      modifies this
      ensures rows == GracedRows(old(rows), {jti}, until)
      ensures ok == (jti in old(rows) && old(rows)[jti].revokedAt.None?)
    {
      ok := jti in rows && rows[jti].revokedAt.None?;
      if ok {
        rows := rows[jti := rows[jti].(graceUntil := Some(until))];
      }
    }

    /** Un-revoked rows of the agent, latest issued first. */
    method LiveRows(agent: string) returns (live: seq<(string, Row)>)
      ensures LiveList(rows, agent, live) && Sorted(LatestFirst, live)
    {
      var left := Unrevoked(rows, agent);
      live := [];
      while left != {}
        invariant left <= Unrevoked(rows, agent)
        invariant forall p :: p in live <==> p.0 in Unrevoked(rows, agent) - left && p.1 == rows[p.0]
        invariant Distinct(live)
        decreases left
      {
        var j :| j in left;
        left := left - {j};
        live := live + [(j, rows[j])];
      }
      StableSortSorts(LatestFirst, live);
      StableSortMembers(LatestFirst, live);
      DistinctPermuted(live, StableSort(LatestFirst, live));
      live := StableSort(LatestFirst, live);
    }

    method Issue(agent: string, node: string, spec: string, ttlHours: real, issuer: string, now: int, jti: string)
      returns (r: Result<Claims, IssueError>)
      requires jti !in rows
      modifies this
      ensures r == IssueClaims(agent, node, spec, ttlHours, issuer, now, jti)
      ensures rows == if r.Ok? then Registered(old(rows), r.value) else old(rows)
    {
      if !ShortId(agent) {
        return Err(BadAgent);
      }
      if !ShortId(node) {
        return Err(BadNode);
      }
      if !(0.0 < ttlHours <= MAX_TTL_HOURS) {
        return Err(BadTtl);
      }
      var scope := Scope.ParseScope(spec);
      if scope.Err? {
        return Err(BadScope(scope.error));
      }
      var claims := Claims(issuer, agent, node, scope.value, now, now + Lifetime(ttlHours), jti, 1);
      Register(claims);
      r := Ok(claims);
    }

    /** Grace every eligible token of the agent, then mint one like the newest. */
    method Rotate(agent: string, graceMinutes: int, issuer: string, now: int, jti: string)
      returns (r: Result<(Claims, nat), RotateError>)
      requires jti !in rows
      modifies this
      ensures r == Err(BadGrace) <==> !(0 <= graceMinutes <= MAX_GRACE_MINUTES)
      ensures r == Err(NothingToRotate) <==>
        0 <= graceMinutes <= MAX_GRACE_MINUTES && EligibleOf(old(rows), agent, now) == {}
      ensures r.Err? && !r.error.NotIssued? ==> rows == old(rows)
      ensures r.Ok? ==>
        && Rotated(old(rows), rows, agent, graceMinutes, issuer, now, jti, Ok(r.value.0))
        && r.value.1 == |EligibleOf(old(rows), agent, now)|
      ensures r.Err? && r.error.NotIssued? ==>
        Rotated(old(rows), rows, agent, graceMinutes, issuer, now, jti, Err(r.error.error))
    {
      if !(0 <= graceMinutes <= MAX_GRACE_MINUTES) {
        return Err(BadGrace);
      }
      var live := LiveRows(agent);
      var current := FirstEligible(live, now);
      if current.None? {
        NoneEligible(rows, agent, now, live);
        return Err(NothingToRotate);
      }
      FirstIsNewest(rows, agent, now, live, current.value);
      ghost var (before, j) := (rows, live[current.value].0);
      var row := live[current.value].1;
      var count := GraceLive(agent, live, now, now + graceMinutes * 60);
      var issued := Issue(agent, row.aud, row.scope, RotatedTtl(row), issuer, now, jti);
      assert Copies(before, agent, issuer, now, jti, j, issued);
      if issued.Err? {
        return Err(NotIssued(issued.error));
      }
      r := Ok((issued.value, count));
    }

    method GraceLive(agent: string, live: seq<(string, Row)>, now: int, until: int) returns (count: nat)
      requires LiveList(rows, agent, live)
      modifies this
      ensures rows == GracedRows(old(rows), EligibleOf(old(rows), agent, now), until)
      ensures count == |EligibleOf(old(rows), agent, now)|
    {
      count := 0;
      ghost var before := rows;
      for k := 0 to |live|
        invariant rows == GracedRows(before, Done(live[..k], now), until) && count == |Done(live[..k], now)|
      {
        var (j, row) := live[k];
        assert live[..k + 1][..k] == live[..k];
        if Eligible(row, now) {
          NotDoneYet(before, agent, live, k, now);
          var ok := SetGrace(j, until);
          GraceOneMore(before, Done(live[..k], now), j, until);
          if ok {
            count := count + 1;
          }
        }
      }
      assert live[..|live|] == live;
      AllEligibleGraced(before, agent, now, live);
    }
  }

  lemma GraceOneMore(t: Table, done: set<string>, j: string, until: int)
    ensures GracedRows(GracedRows(t, done, until), {j}, until) == GracedRows(t, done + {j}, until)
  {
  }

  /** The jtis of the eligible entries. */
  function Done(live: seq<(string, Row)>, now: int): set<string> {
    if live == [] then {}
    else
      var (j, row) := live[|live| - 1];
      Done(live[..|live| - 1], now) + (if Eligible(row, now) then {j} else {})
  }

  lemma {:induction false} DoneMembers(live: seq<(string, Row)>, now: int)
    ensures forall j :: j in Done(live, now) <==> exists p :: p in live && p.0 == j && Eligible(p.1, now)
  {
    if live != [] {
      var rest := live[..|live| - 1];
      assert live == rest + [live[|live| - 1]];
      DoneMembers(rest, now);
    }
  }

  lemma NotDoneYet(t: Table, agent: string, live: seq<(string, Row)>, k: nat, now: int)
    requires LiveList(t, agent, live) && k < |live|
    ensures live[k].0 !in Done(live[..k], now) && live[k].0 in Unrevoked(t, agent)
  {
    DoneMembers(live[..k], now);
    assert live[k] in live;
    forall p | p in live[..k]
      ensures p.0 != live[k].0
    {
      var a :| 0 <= a < k && live[a] == p;
      assert live[a] in live && live[k] in live;
    }
  }

  /** The agent's un-revoked rows, each once. */
  ghost predicate LiveList(t: Table, agent: string, live: seq<(string, Row)>) {
    Distinct(live) && forall p :: p in live <==> p.0 in Unrevoked(t, agent) && p.1 == t[p.0]
  }

  predicate LatestFirst(x: (string, Row), y: (string, Row)) { x.1.iat >= y.1.iat }

  function FirstEligible(live: seq<(string, Row)>, now: int): (k: Option<nat>)
    ensures k.Some? ==> k.value < |live| && Eligible(live[k.value].1, now)
    ensures forall i :: 0 <= i < (if k.Some? then k.value else |live|) ==> !Eligible(live[i].1, now)
  {
    if live == [] then None
    else if Eligible(live[0].1, now) then Some(0)
    else
      var k := FirstEligible(live[1..], now);
      if k.None? then None else Some(k.value + 1)
  }

  lemma NoneEligible(t: Table, agent: string, now: int, live: seq<(string, Row)>)
    requires LiveList(t, agent, live)
    requires FirstEligible(live, now).None?
    ensures EligibleOf(t, agent, now) == {}
  {
    forall j | j in Unrevoked(t, agent)
      ensures !Eligible(t[j], now)
    {
      assert (j, t[j]) in live;
    }
  }

  lemma FirstIsNewest(t: Table, agent: string, now: int, live: seq<(string, Row)>, k: nat)
    requires LiveList(t, agent, live)
    requires Sorted(LatestFirst, live) && FirstEligible(live, now) == Some(k)
    ensures Newest(t, agent, now, live[k].0) && live[k].1 == t[live[k].0]
  {
    assert live[k] in live;
    forall j | j in EligibleOf(t, agent, now)
      ensures t[j].iat <= t[live[k].0].iat
    {
      assert (j, t[j]) in live;
      var i :| 0 <= i < |live| && live[i] == (j, t[j]);
    }
  }

  lemma AllEligibleGraced(t: Table, agent: string, now: int, live: seq<(string, Row)>)
    requires LiveList(t, agent, live)
    ensures Done(live, now) == EligibleOf(t, agent, now)
  {
    DoneMembers(live, now);
    forall j | j in EligibleOf(t, agent, now)
      ensures j in Done(live, now)
    {
      assert (j, t[j]) in live;
    }
  }
}
