/** Validation, and what holds over every run of issue, rotate and revoke. */
module TokenRuns {
  import opened Text
  import opened TokenEnvelope
  import opened TokenRegistry
  import Scope

  // ----- Validation -----

  datatype Reason =
    | MalformedToken | BadVersion | BadSig | Expired | NotYetValid | AudMismatch | UnknownJti | Revoked | GraceExpired

  datatype Verdict = Valid | Reject(reason: Reason)

  const MAX_TOKEN: nat := 8192

  /** `validate_agent_token` from the decoded claims on. */
  function ValidateClaims(t: Table, c: Claims, gateway: string, now: int): Verdict {
    if now >= c.exp then Reject(Expired)
    else if now < c.iat then Reject(NotYetValid)
    else if c.aud != gateway then Reject(AudMismatch)
    else if c.jti !in t then Reject(UnknownJti)
    else if t[c.jti].revokedAt.Some? then Reject(Revoked)
    else if t[c.jti].graceUntil.Some? && now >= t[c.jti].graceUntil.value then Reject(GraceExpired)
    else Valid
  }

  /** The whole of `validate_agent_token`, on the string that arrives. */
  ghost function ValidateToken(codec: Codec, key: Key, t: Table, token: string, gateway: string, now: int): Verdict {
    if token == "" || |token| > MAX_TOKEN then Reject(MalformedToken)
    else
      var decoded := DecodeToken(codec, key, token);
      if decoded.Ok? then ValidateClaims(t, decoded.value, gateway, now)
      else Reject(if decoded.error.BadSignature? then BadSig else if decoded.error.UnsupportedVersion? then BadVersion else MalformedToken)
  }

  // ----- Runs -----

  /** The table, every claim set ever signed by its jti, and the clock. */
  datatype State = State(rows: Table, mints: map<string, Claims>, clock: int)

  ghost predicate Init(s: State) {
    s.rows == map[] && s.mints == map[]
  }

  /** `c` is signed under a fresh jti and either stored on top of `t` or lost. */
  ghost predicate Minted(s: State, s': State, t: Table, c: Claims, stored: bool) {
    && c.jti !in s.rows && c.jti !in s.mints && ShortText(c.jti, MAX_JTI)
    && s'.mints == s.mints[c.jti := c]
    && s'.rows == (if stored then Registered(t, c) else t)
  }

  /** An issue call that succeeds; one that fails changes nothing. `stored` is
      false when the call dies between signing and storing. */
  ghost predicate Issued(s: State, s': State, agent: string, node: string, spec: string, ttlHours: real,
                         issuer: string, c: Claims, stored: bool)
  {
    && Ok(c) == IssueClaims(agent, node, spec, ttlHours, issuer, s'.clock, c.jti)
    && Minted(s, s', s.rows, c, stored)
  }

  /** A rotation: `graced` are the rows it got to, all the eligible ones when it
      ran to its end (`stored`). */
  ghost predicate Rotation(s: State, s': State, agent: string, grace: int, issuer: string,
                           graced: set<string>, j: string, c: Claims, stored: bool)
  {
    && 0 <= grace <= MAX_GRACE_MINUTES && Copies(s.rows, agent, issuer, s'.clock, c.jti, j, Ok(c))
    && graced <= EligibleOf(s.rows, agent, s'.clock)
    && (stored ==> graced == EligibleOf(s.rows, agent, s'.clock))
    && Minted(s, s', GracedRows(s.rows, graced, s'.clock + grace * 60), c, stored)
  }

  /** A rotation that died before it signed anything. */
  ghost predicate RotationCut(s: State, s': State, agent: string, grace: int, graced: set<string>) {
    && 0 <= grace <= MAX_GRACE_MINUTES && graced <= EligibleOf(s.rows, agent, s'.clock)
    && s'.rows == GracedRows(s.rows, graced, s'.clock + grace * 60) && s'.mints == s.mints
  }

  ghost predicate OneRevoked(s: State, s': State, jti: string) {
    s'.rows == RevokedOne(s.rows, jti, s'.clock) && s'.mints == s.mints
  }

  ghost predicate AllRevoked(s: State, s': State, agent: string) {
    s'.rows == RevokedAll(s.rows, agent, s'.clock) && s'.mints == s.mints
  }

  ghost predicate Mints(s: State, s': State) {
    || (exists agent, node, spec, ttl, issuer, c, stored :: Issued(s, s', agent, node, spec, ttl, issuer, c, stored))
    || (exists agent, grace, issuer, graced, j, c, stored :: Rotation(s, s', agent, grace, issuer, graced, j, c, stored))
  }

  ghost predicate Updates(s: State, s': State) {
    || (exists agent, grace, graced :: RotationCut(s, s', agent, grace, graced))
    || (exists jti :: OneRevoked(s, s', jti))
    || (exists agent :: AllRevoked(s, s', agent))
    || (s'.rows == s.rows && s'.mints == s.mints)
  }

  ghost predicate Next(s: State, s': State) {
    s.clock <= s'.clock && (Mints(s, s') || Updates(s, s'))
  }

  ghost predicate Run(states: seq<State>) {
    states != [] && Init(states[0]) && forall k :: 0 <= k < |states| - 1 ==> Next(states[k], states[k + 1])
  }

  /** What the store's rotation does is a rotation step that ran to its end. */
  lemma StoreRotates(s: State, s': State, agent: string, grace: int, issuer: string, c: Claims)
    requires Rotated(s.rows, s'.rows, agent, grace, issuer, s'.clock, c.jti, Ok(c)) && 0 <= grace <= MAX_GRACE_MINUTES
    requires c.jti !in s.rows && c.jti !in s.mints && ShortText(c.jti, MAX_JTI) && s'.mints == s.mints[c.jti := c]
    ensures exists j :: Rotation(s, s', agent, grace, issuer, EligibleOf(s.rows, agent, s'.clock), j, c, true)
  {
    hide Scope.Parse;
    var j :| Copies(s.rows, agent, issuer, s'.clock, c.jti, j, Ok(c));
    assert Rotation(s, s', agent, grace, issuer, EligibleOf(s.rows, agent, s'.clock), j, c, true);
  }

  // ----- What every run keeps -----

  /** True of any claim set from the moment it is signed. */
  ghost predicate WellMinted(c: Claims, clock: int) {
    c.v == 1 && c.iat <= clock && c.iat <= c.exp <= c.iat + DAY
  }

  /** A row mirrors its claims, plus a revocation or a grace at most an hour ahead. */
  ghost predicate Mirrors(row: Row, c: Claims, clock: int) {
    && row.agent == c.sub && row.aud == c.aud && row.scope == Join(c.scope, ",")
    && row.iat == c.iat && row.exp == c.exp
    && (row.graceUntil.Some? ==> row.graceUntil.value <= clock + MAX_GRACE_MINUTES * 60)
  }

  ghost predicate Inv(s: State) {
    && (forall j :: j in s.mints ==> s.mints[j].jti == j && WellMinted(s.mints[j], s.clock))
    && (forall j :: j in s.rows ==> j in s.mints && Mirrors(s.rows[j], s.mints[j], s.clock))
  }

  /** The texts of signed claims are what the issuer checked them to be. */
  ghost predicate GoodTexts(c: Claims) {
    ShortId(c.sub) && ShortId(c.aud) && ShortText(c.jti, MAX_JTI) && Scope.IsGrantList(c.scope)
  }

  ghost predicate TextsInv(s: State) {
    forall j :: j in s.mints ==> GoodTexts(s.mints[j])
  }

  /** A row only ever gains a revocation or a first grace deadline. */
  ghost predicate RowGrows(row: Row, row': Row) {
    && row'.agent == row.agent && row'.aud == row.aud && row'.scope == row.scope
    && row'.iat == row.iat && row'.exp == row.exp
    && (row.revokedAt.Some? ==> row'.revokedAt == row.revokedAt)
    && (row.graceUntil.Some? ==> row'.graceUntil == row.graceUntil)
  }

  ghost predicate RowsGrow(t: Table, t': Table) {
    forall j :: j in t ==> j in t' && RowGrows(t[j], t'[j])
  }

  /** Later states: no row lost, no row changed but as above, and no row for a
      token that was signed but not stored. */
  ghost predicate Grows(s: State, s': State) {
    && s.clock <= s'.clock && RowsGrow(s.rows, s'.rows)
    && (forall j :: j in s.mints ==> j in s'.mints && s'.mints[j] == s.mints[j])
    && (forall j :: j in s.mints && j in s'.rows ==> j in s.rows)
  }

  /** `t` is the table with some first deadlines and revocations added. */
  ghost predicate Marked(t: Table, t': Table, clock: int) {
    && t'.Keys == t.Keys && RowsGrow(t, t')
    && forall j :: j in t ==>
         t'[j].graceUntil == t[j].graceUntil
         || (t'[j].graceUntil.Some? && t'[j].graceUntil.value <= clock + MAX_GRACE_MINUTES * 60)
  }

  lemma MarkKeeps(s: State, s': State)
    requires Inv(s) && s.clock <= s'.clock && s'.mints == s.mints && Marked(s.rows, s'.rows, s'.clock)
    ensures Inv(s') && Grows(s, s')
  {
    forall j | j in s'.rows
      ensures j in s'.mints && Mirrors(s'.rows[j], s'.mints[j], s'.clock)
    {
      assert RowGrows(s.rows[j], s'.rows[j]) && Mirrors(s.rows[j], s.mints[j], s.clock);
    }
  }

  lemma MintKeeps(s: State, s': State, t: Table, c: Claims, stored: bool)
    requires Inv(s) && s.clock <= s'.clock && Marked(s.rows, t, s'.clock)
    requires Minted(s, s', t, c, stored) && WellMinted(c, s'.clock)
    ensures Inv(s') && Grows(s, s')
  {
    MarkKeeps(s, State(t, s.mints, s'.clock));
    StoreKeeps(State(t, s.mints, s'.clock), s', c, stored);
  }

  lemma StoreKeeps(s: State, s': State, c: Claims, stored: bool)
    requires Inv(s) && s.clock == s'.clock && WellMinted(c, s'.clock)
    requires c.jti !in s.rows && c.jti !in s.mints && s'.mints == s.mints[c.jti := c]
    requires s'.rows == if stored then Registered(s.rows, c) else s.rows
    ensures Inv(s')
  {
    assert Mirrors(RowOf(c), c, s'.clock);
  }

  lemma GraceMarks(t: Table, agent: string, now: int, grace: int, graced: set<string>)
    requires 0 <= grace <= MAX_GRACE_MINUTES && graced <= EligibleOf(t, agent, now)
    ensures Marked(t, GracedRows(t, graced, now + grace * 60), now)
  {
  }

  lemma IssueWellMinted(agent: string, node: string, spec: string, ttlHours: real, issuer: string, now: int, jti: string,
                        c: Claims)
    requires IssueClaims(agent, node, spec, ttlHours, issuer, now, jti) == Ok(c)
    ensures WellMinted(c, now) && ShortId(c.sub) && ShortId(c.aud) && Scope.IsGrantList(c.scope) && c.jti == jti
  {
    hide Scope.Parse, Scope.IsGrantList;
    Scope.OutputsAreGrantLists(spec);
    assert 0.0 < ttlHours * 3600.0 <= 86400.0;
  }

  lemma IssueKeeps(s: State, s': State, agent: string, node: string, spec: string, ttlHours: real,
                   issuer: string, c: Claims, stored: bool)
    requires Inv(s) && s.clock <= s'.clock && Issued(s, s', agent, node, spec, ttlHours, issuer, c, stored)
    ensures Inv(s') && Grows(s, s')
  {
    IssueWellMinted(agent, node, spec, ttlHours, issuer, s'.clock, c.jti, c);
    MintKeeps(s, s', s.rows, c, stored);
  }

  lemma RotationKeeps(s: State, s': State, agent: string, grace: int, issuer: string,
                      graced: set<string>, j: string, c: Claims, stored: bool)
    requires Inv(s) && s.clock <= s'.clock && Rotation(s, s', agent, grace, issuer, graced, j, c, stored)
    ensures Inv(s') && Grows(s, s')
  {
    CopyWellMinted(s, agent, issuer, s'.clock, j, c);
    GraceMarks(s.rows, agent, s'.clock, grace, graced);
    MintKeeps(s, s', GracedRows(s.rows, graced, s'.clock + grace * 60), c, stored);
  }

  lemma MintsKeep(s: State, s': State)
    requires Inv(s) && s.clock <= s'.clock && Mints(s, s')
    ensures Inv(s') && Grows(s, s')
  {
    if agent, node, spec, ttl, issuer, c, stored :| Issued(s, s', agent, node, spec, ttl, issuer, c, stored) {
      IssueKeeps(s, s', agent, node, spec, ttl, issuer, c, stored);
    } else {
      var agent, grace, issuer, graced, j, c, stored :| Rotation(s, s', agent, grace, issuer, graced, j, c, stored);
      RotationKeeps(s, s', agent, grace, issuer, graced, j, c, stored);
    }
  }

  lemma CopyWellMinted(s: State, agent: string, issuer: string, now: int, j: string, c: Claims)
    requires Copies(s.rows, agent, issuer, now, c.jti, j, Ok(c))
    ensures WellMinted(c, now) && ShortId(c.sub) && ShortId(c.aud) && Scope.IsGrantList(c.scope)
  {
    IssueWellMinted(agent, s.rows[j].aud, s.rows[j].scope, RotatedTtl(s.rows[j]), issuer, now, c.jti, c);
  }

  lemma RevokeMarks(s: State, s': State)
    requires (exists jti :: OneRevoked(s, s', jti)) || (exists agent :: AllRevoked(s, s', agent)) || s'.rows == s.rows
    ensures Marked(s.rows, s'.rows, s'.clock)
  {
  }

  lemma UpdatesKeep(s: State, s': State)
    requires Inv(s) && s.clock <= s'.clock && Updates(s, s')
    ensures Inv(s') && Grows(s, s')
  {
    if agent, grace, graced :| RotationCut(s, s', agent, grace, graced) {
      GraceMarks(s.rows, agent, s'.clock, grace, graced);
    } else {
      RevokeMarks(s, s');
    }
    MarkKeeps(s, s');
  }

  lemma NextKeepsTexts(s: State, s': State)
    requires TextsInv(s) && Next(s, s')
    ensures TextsInv(s')
  {
    hide Scope.Parse, Scope.IsGrantList, IssueClaims, RotatedClaims;
    if Mints(s, s') {
      if agent, node, spec, ttl, issuer, c, stored :| Issued(s, s', agent, node, spec, ttl, issuer, c, stored) {
        IssueWellMinted(agent, node, spec, ttl, issuer, s'.clock, c.jti, c);
      } else {
        var agent, grace, issuer, graced, j, c, stored :| Rotation(s, s', agent, grace, issuer, graced, j, c, stored);
        CopyWellMinted(s, agent, issuer, s'.clock, j, c);
      }
    } else {
      assert s'.mints == s.mints;
    }
  }

  lemma GrowsTransitive(a: State, b: State, c: State)
    requires Grows(a, b) && Grows(b, c)
    ensures Grows(a, c)
  {
    forall j | j in a.rows
      ensures j in c.rows && RowGrows(a.rows[j], c.rows[j])
    {
      assert RowGrows(a.rows[j], b.rows[j]) && RowGrows(b.rows[j], c.rows[j]);
    }
  }

  lemma {:induction false} RunKeeps(states: seq<State>, i: nat, k: nat)
    requires Run(states) && i <= k < |states|
    ensures Inv(states[k]) && TextsInv(states[k]) && Grows(states[i], states[k])
    decreases k
  {
    if k > 0 {
      var h := if i < k then i else 0;
      RunKeeps(states, h, k - 1);
      var (s, s') := (states[k - 1], states[k]);
      assert Next(s, s');
      NextKeepsTexts(s, s');
      if Mints(s, s') { MintsKeep(s, s'); } else { UpdatesKeep(s, s'); }
      GrowsTransitive(states[h], s, s');
    }
  }

  // ----- The guarantees -----

  ghost predicate IsMinted(s: State, c: Claims) {
    c.jti in s.mints && s.mints[c.jti] == c
  }

  lemma GrowsRejects(s: State, s': State, c: Claims, gateway: string, now: int, later: int)
    requires Grows(s, s') && IsMinted(s, c) && now <= later
    requires ValidateClaims(s.rows, c, gateway, now) != Valid
    requires ValidateClaims(s'.rows, c, gateway, later) == Valid
    ensures ValidateClaims(s.rows, c, gateway, now) == Reject(NotYetValid)
  {
    assert c.jti in s.rows && RowGrows(s.rows[c.jti], s'.rows[c.jti]);
  }

  /** A rejection is for good: a minted token rejected once is accepted later in
      the run only if it was rejected for not being valid yet. */
  lemma RejectedForGood(states: seq<State>, i: nat, k: nat, c: Claims, gateway: string, now: int, later: int)
    requires Run(states) && i <= k < |states| && IsMinted(states[i], c) && now <= later
    requires ValidateClaims(states[i].rows, c, gateway, now) != Valid
    requires ValidateClaims(states[k].rows, c, gateway, later) == Valid
    ensures ValidateClaims(states[i].rows, c, gateway, now) == Reject(NotYetValid)
  {
    RunKeeps(states, i, k);
    GrowsRejects(states[i], states[k], c, gateway, now, later);
  }

  lemma RevokedStaysRejected(s: State, s': State, s'': State, agent: string, c: Claims, gateway: string, now: int)
    requires Inv(s) && AllRevoked(s, s', agent) && Grows(s', s'') && IsMinted(s, c) && c.sub == agent
    ensures ValidateClaims(s''.rows, c, gateway, now) != Valid
  {
    if c.jti in s.rows {
      assert Mirrors(s.rows[c.jti], c, s.clock);
      assert s'.rows[c.jti].revokedAt.Some?;
      assert RowGrows(s'.rows[c.jti], s''.rows[c.jti]);
    }
  }

  /** Revoke-all rejects every earlier token of the agent, stored or not, at every
      later point of the run and every time. */
  lemma RevokeAllIsFinal(states: seq<State>, i: nat, k: nat, agent: string, c: Claims, gateway: string, now: int)
    requires Run(states) && i + 1 <= k < |states| && AllRevoked(states[i], states[i + 1], agent)
    requires IsMinted(states[i], c) && c.sub == agent
    ensures ValidateClaims(states[k].rows, c, gateway, now) != Valid
  {
    RunKeeps(states, 0, i);
    RunKeeps(states, i + 1, k);
    RevokedStaysRejected(states[i], states[i + 1], states[k], agent, c, gateway, now);
  }

  /** Revoking one token rejects it at every later point. */
  lemma RevokeOneIsFinal(states: seq<State>, i: nat, k: nat, c: Claims, gateway: string, now: int)
    requires Run(states) && i + 1 <= k < |states| && OneRevoked(states[i], states[i + 1], c.jti)
    requires IsMinted(states[i], c)
    ensures ValidateClaims(states[k].rows, c, gateway, now) != Valid
  {
    hide *;
    RunKeeps(states, i, i + 1);
    RunKeeps(states, i + 1, k);
    RevokedOneStaysRejected(states[i], states[i + 1], states[k], c, gateway, now);
  }

  lemma RevokedOneStaysRejected(s: State, s': State, s'': State, c: Claims, gateway: string, now: int)
    requires OneRevoked(s, s', c.jti) && Grows(s, s') && Grows(s', s'') && IsMinted(s, c)
    ensures ValidateClaims(s''.rows, c, gateway, now) != Valid
  {
    if c.jti in s.rows {
      assert RowGrows(s'.rows[c.jti], s''.rows[c.jti]);
    }
  }

  ghost predicate Untouched(s: State, s': State, j: string) {
    j in s.rows ==> j in s'.rows && s'.rows[j] == s.rows[j]
  }

  ghost predicate Rotates(s: State, s': State, agent: string) {
    || (exists grace, graced :: RotationCut(s, s', agent, grace, graced))
    || (exists grace, issuer, graced, j, c, stored :: Rotation(s, s', agent, grace, issuer, graced, j, c, stored))
  }

  /** A revocation or a rotation, cut short or not, leaves the rows of every other token
      or agent as they were. */
  lemma OthersAreUntouched(s: State, s': State, agent: string, jti: string, j: string)
    requires j in s.rows
    ensures OneRevoked(s, s', jti) && j != jti ==> Untouched(s, s', j)
    ensures s.rows[j].agent != agent && (AllRevoked(s, s', agent) || Rotates(s, s', agent)) ==> Untouched(s, s', j)
  {
    hide Copies;
  }

  /** An accepted token is less than a day old. */
  lemma AcceptedIsYoung(states: seq<State>, k: nat, c: Claims, gateway: string, now: int)
    requires Run(states) && k < |states| && IsMinted(states[k], c)
    requires ValidateClaims(states[k].rows, c, gateway, now) == Valid
    ensures 0 <= now - c.iat < DAY && c.aud == gateway
  {
    RunKeeps(states, 0, k);
    assert WellMinted(states[k].mints[c.jti], states[k].clock);
  }

  // ----- Rotation -----

  lemma LifetimeOfHours(life: int)
    requires 1 <= life <= DAY
    ensures Lifetime(if life as real / 3600.0 > 1.0 / 3600.0 then life as real / 3600.0 else 1.0 / 3600.0) == life
  {
    var hours := life as real / 3600.0;
    assert hours * 3600.0 == life as real;
    assert (life as real).Floor == life;
    if hours <= 1.0 / 3600.0 {
      assert life == 1;
      assert 1.0 / 3600.0 * 3600.0 == 1.0;
    }
  }

  predicate Near(x: real, exact: real, error: real) {
    exact - error <= x <= exact + error
  }

  /** If quotient and product are rounded, by whatever rule and as coarsely as to the
      nearest tenth of a second, the copied lifetime is the old one or a second less. */
  lemma RoundedLifetime(life: int, hours: real, seconds: real)
    requires 1 <= life <= DAY
    requires Near(hours, life as real / 3600.0, 0.1 / 3600.0) && Near(seconds, hours * 3600.0, 0.1)
    ensures life - 1 <= seconds.Floor <= life
  {
    assert life as real / 3600.0 * 3600.0 == life as real;
    assert Near(hours * 3600.0, life as real, 0.1);
    assert life as real - 0.2 <= seconds <= life as real + 0.2;
  }

  lemma TtlInRange(row: Row)
    requires row.iat < row.exp <= row.iat + DAY
    ensures 0.0 < RotatedTtl(row) <= MAX_TTL_HOURS && Lifetime(RotatedTtl(row)) == row.exp - row.iat
  {
    LifetimeOfHours(row.exp - row.iat);
  }

  lemma IssueSucceeds(agent: string, node: string, scope: seq<string>, ttlHours: real, issuer: string, now: int, jti: string)
    requires ShortId(agent) && ShortId(node) && 0.0 < ttlHours <= MAX_TTL_HOURS && Scope.IsGrantList(scope)
    ensures IssueClaims(agent, node, Join(scope, ","), ttlHours, issuer, now, jti) ==
            Ok(Claims(issuer, agent, node, scope, now, now + Lifetime(ttlHours), jti, 1))
  {
    hide Scope.Parse;
    Scope.GrantListsParse(scope);
  }

  /** The copy a rotation mints: issuing it cannot fail, and it has the audience,
      the scope and the very lifetime of the token it replaces. */
  lemma CopyIsFaithful(s: State, agent: string, issuer: string, now: int, j: string, jti: string)
    requires Inv(s) && TextsInv(s) && s.clock <= now && Newest(s.rows, agent, now, j)
    ensures j in s.mints &&
      RotatedClaims(s.rows[j], agent, issuer, now, jti) ==
        Ok(s.mints[j].(iss := issuer, iat := now, exp := now + s.rows[j].exp - s.rows[j].iat, jti := jti))
  {
    hide Scope.Parse, Scope.IsGrantList;
    var (row, c) := (s.rows[j], s.mints[j]);
    assert Mirrors(row, c, s.clock) && WellMinted(c, s.clock) && GoodTexts(c);
    TtlInRange(row);
    IssueSucceeds(agent, row.aud, c.scope, RotatedTtl(row), issuer, now, jti);
  }

  /** A completed rotation gives a deadline, `grace` minutes from now, to exactly the agent's
      rows that are neither revoked nor expired nor graced, and copies the one of them
      issued last. */
  lemma RotationGracesExactly(s: State, s': State, agent: string, grace: int, issuer: string,
                              graced: set<string>, j: string, c: Claims, x: string)
    requires Rotation(s, s', agent, grace, issuer, graced, j, c, true) && x in s.rows
    ensures
      var row := s.rows[x];
      var live := row.agent == agent && row.revokedAt.None? && row.exp > s'.clock && row.graceUntil.None?;
      && x in s'.rows && s'.rows[x] == (if live then row.(graceUntil := Some(s'.clock + 60 * grace)) else row)
      && j in s.rows && (live ==> row.iat <= s.rows[j].iat)
  {
  }

  /** After a rotation the agent has exactly one eligible token, the new one, with
      everything but issuer, times and jti from the newest eligible one before,
      and as long a life. */
  lemma OneEligibleAfterRotation(states: seq<State>, i: nat, agent: string, grace: int, issuer: string,
                                 graced: set<string>, j: string, c: Claims)
    requires Run(states) && i + 1 < |states| && Rotation(states[i], states[i + 1], agent, grace, issuer, graced, j, c, true)
    ensures
      var (s, s') := (states[i], states[i + 1]);
      && EligibleOf(s'.rows, agent, s'.clock) == {c.jti}
      && Newest(s.rows, agent, s'.clock, j) && j in s.mints
      && c == s.mints[j].(iss := issuer, iat := s'.clock, exp := s'.clock + s.mints[j].exp - s.mints[j].iat, jti := c.jti)
  {
    RunKeeps(states, 0, i);
    RunKeeps(states, i, i + 1);
    OneEligibleAfter(states[i], states[i + 1], agent, grace, issuer, graced, j, c);
  }

  lemma OneEligibleAfter(s: State, s': State, agent: string, grace: int, issuer: string,
                         graced: set<string>, j: string, c: Claims)
    requires Inv(s) && TextsInv(s) && s.clock <= s'.clock && Rotation(s, s', agent, grace, issuer, graced, j, c, true)
    ensures EligibleOf(s'.rows, agent, s'.clock) == {c.jti}
    ensures Newest(s.rows, agent, s'.clock, j) && j in s.mints
    ensures c == s.mints[j].(iss := issuer, iat := s'.clock, exp := s'.clock + s.mints[j].exp - s.mints[j].iat, jti := c.jti)
  {
    hide Scope.Parse;
    CopyIsFaithful(s, agent, issuer, s'.clock, j, c.jti);
    assert Mirrors(s.rows[j], s.mints[j], s.clock) && WellMinted(s.mints[j], s.clock);
    OnlyTheCopy(s.rows, agent, s'.clock, grace, c);
  }

  lemma OnlyTheCopy(t: Table, agent: string, now: int, grace: int, c: Claims)
    requires c.jti !in t && c.sub == agent && c.exp > now
    ensures EligibleOf(Registered(GracedRows(t, EligibleOf(t, agent, now), now + grace * 60), c), agent, now) == {c.jti}
  {
  }

  ghost predicate Graced(s: State, s': State, agent: string, grace: int) {
    forall j :: j in s.rows ==>
      j in s'.rows && s'.rows[j] == GracedRows(s.rows, EligibleOf(s.rows, agent, s'.clock), s'.clock + grace * 60)[j]
  }

  lemma RotationGraces(s: State, s': State, agent: string, grace: int, issuer: string,
                       graced: set<string>, j: string, c: Claims)
    requires Rotation(s, s', agent, grace, issuer, graced, j, c, true)
    ensures Graced(s, s', agent, grace) && 0 <= grace <= MAX_GRACE_MINUTES
  {
    hide Copies;
  }

  lemma OldRowDies(s: State, s': State, s'': State, agent: string, grace: int, c: Claims, gateway: string, now: int)
    requires Inv(s) && IsMinted(s, c) && c.sub == agent && s.clock <= s'.clock && Grows(s', s'') && Grows(s, s'')
    requires 0 <= grace <= MAX_GRACE_MINUTES && now >= s'.clock + MAX_GRACE_MINUTES * 60
    requires Graced(s, s', agent, grace)
    ensures ValidateClaims(s''.rows, c, gateway, now) != Valid
  {
    if c.jti in s.rows {
      assert Mirrors(s.rows[c.jti], c, s.clock);
      assert RowGrows(s'.rows[c.jti], s''.rows[c.jti]);
    }
  }

  /** One hour after a rotation nothing minted before it for the agent is accepted,
      whatever happens in between. */
  lemma OldTokensDieWithinTheHour(states: seq<State>, i: nat, k: nat, agent: string, grace: int, issuer: string,
                                  graced: set<string>, j: string, copy: Claims, c: Claims, gateway: string, now: int)
    requires Run(states) && i + 1 <= k < |states|
    requires Rotation(states[i], states[i + 1], agent, grace, issuer, graced, j, copy, true)
    requires IsMinted(states[i], c) && c.sub == agent
    requires now >= states[i + 1].clock + MAX_GRACE_MINUTES * 60
    ensures ValidateClaims(states[k].rows, c, gateway, now) != Valid
  {
    hide Rotation;
    RunKeeps(states, 0, i);
    RunKeeps(states, i, k);
    RunKeeps(states, i + 1, k);
    RunKeeps(states, i, i + 1);
    RotationGraces(states[i], states[i + 1], agent, grace, issuer, graced, j, copy);
    OldRowDies(states[i], states[i + 1], states[k], agent, grace, c, gateway, now);
  }

  /** Until then the grace holds: a token eligible at a rotation is accepted by its gateway
      at any later point, if nobody revoked it, exactly from its issue to its expiry or
      the end of the grace, whichever is first. */
  lemma GraceWindowExactly(states: seq<State>, i: nat, k: nat, agent: string, grace: int, issuer: string,
                           graced: set<string>, j: string, copy: Claims, c: Claims, now: int)
    requires Run(states) && i + 1 <= k < |states|
    requires Rotation(states[i], states[i + 1], agent, grace, issuer, graced, j, copy, true)
    requires IsMinted(states[i], c) && c.jti in EligibleOf(states[i].rows, agent, states[i + 1].clock)
    ensures c.jti in states[k].rows
    ensures states[k].rows[c.jti].revokedAt.None? ==>
      (ValidateClaims(states[k].rows, c, c.aud, now) == Valid
       <==> c.iat <= now < c.exp && now < states[i + 1].clock + 60 * grace)
  {
    hide *;
    RunKeeps(states, 0, i);
    RunKeeps(states, i + 1, k);
    RotationGraces(states[i], states[i + 1], agent, grace, issuer, graced, j, copy);
    GracedStays(states[i], states[i + 1], states[k], agent, grace, c, now);
  }

  lemma GracedStays(s: State, s': State, s'': State, agent: string, grace: int, c: Claims, now: int)
    requires Inv(s) && Graced(s, s', agent, grace) && Grows(s', s'') && IsMinted(s, c)
    requires c.jti in EligibleOf(s.rows, agent, s'.clock)
    ensures c.jti in s''.rows
    ensures s''.rows[c.jti].revokedAt.None? ==>
      (ValidateClaims(s''.rows, c, c.aud, now) == Valid <==> c.iat <= now < c.exp && now < s'.clock + 60 * grace)
  {
    assert RowGrows(s'.rows[c.jti], s''.rows[c.jti]);
  }

  /** The row's deadline is later in `t'`. */
  predicate Postponed(t: Table, t': Table, j: string) {
    && j in t && j in t' && t[j].graceUntil.Some? && t'[j].graceUntil.Some?
    && t[j].graceUntil.value < t'[j].graceUntil.value
  }

  /** A rotation step, cut short or not, touches only rows without a deadline. */
  lemma RotationNeverExtends(s: State, s': State, agent: string, grace: int, issuer: string,
                             graced: set<string>, j: string, c: Claims, stored: bool)
    requires Rotation(s, s', agent, grace, issuer, graced, j, c, stored) || RotationCut(s, s', agent, grace, graced)
    ensures forall x :: x in graced ==> x in s.rows && s.rows[x].graceUntil.None? && s.rows[x].revokedAt.None?
    ensures forall x :: !Postponed(s.rows, s'.rows, x)
  {
    hide Copies;
  }

  /** `set_grace` called by itself, at any point of a run, moves a deadline later exactly
      when the row is un-revoked, has one, and it is earlier; nothing a run does ever
      moves one. */
  lemma SetGraceAloneExtends(states: seq<State>, k: nat, jti: string, until: int)
    requires Run(states) && k < |states|
    ensures
      var t := states[k].rows;
      forall j :: Postponed(t, GracedRows(t, {jti}, until), j) <==>
        j == jti && j in t && t[j].revokedAt.None? && t[j].graceUntil.Some? && t[j].graceUntil.value < until
    ensures forall i, j :: 0 <= i <= k ==> !Postponed(states[i].rows, states[k].rows, j)
  {
    forall i, j | 0 <= i <= k
      ensures !Postponed(states[i].rows, states[k].rows, j)
    {
      RunKeeps(states, i, k);
      if j in states[i].rows {
        assert RowGrows(states[i].rows[j], states[k].rows[j]);
      }
    }
  }

  /** And so it revives a rejected token exactly when the token is its own, its grace
      has run out, and the new deadline has not. */
  lemma SetGraceRevivesExactly(t: Table, c: Claims, gateway: string, now: int, jti: string, until: int)
    requires ValidateClaims(t, c, gateway, now) != Valid
    ensures
      ValidateClaims(GracedRows(t, {jti}, until), c, gateway, now) == Valid <==>
        ValidateClaims(t, c, gateway, now) == Reject(GraceExpired) && jti == c.jti && now < until
  {
  }

  // ----- From claims to strings -----

  /** Over the whole path from the string: with an ideal signature an accepted
      string carries minted claims, under a day old, whose row is live. */
  lemma AcceptedStringIsMinted(codec: Codec, key: Key, states: seq<State>, k: nat, token: string, gateway: string, now: int)
    requires Run(states) && k < |states| && IdealCodec(codec) && OnlyMintedSigned(codec, key, states[k].mints.Values)
    requires ValidateToken(codec, key, states[k].rows, token, gateway, now) == Valid
    ensures exists c :: IsMinted(states[k], c) && DecodeToken(codec, key, token) == Ok(c)
              && 0 <= now - c.iat < DAY && c.aud == gateway
              && c.jti in states[k].rows && states[k].rows[c.jti].revokedAt.None?
    ensures 0 < |token| <= 8192
  {
    hide Scope.Parse, DecodeToken, EncodeToken, Run;
    RunKeeps(states, 0, k);
    OnlyMintedDecode(codec, key, token, states[k].mints.Values);
    var c :| c in states[k].mints.Values && DecodeToken(codec, key, token).value == c.(v := 1);
    var j :| j in states[k].mints && states[k].mints[j] == c;
    assert WellMinted(states[k].mints[j], states[k].clock);
    assert c.(v := 1) == c;
    AcceptedIsYoung(states, k, c, gateway, now);
  }

  /** And a stored, unmarked token is accepted by its own gateway for its whole
      life, as long as it fits the length cap and lives at least a second. */
  lemma IssuedStringIsAccepted(codec: Codec, key: Key, t: Table, c: Claims, now: int)
    requires IdealCodec(codec) && HonestKey(codec, key, c) && c.v == 1 && GoodTexts(c) && ShortId(c.iss)
    requires c.iat <= now < c.exp && c.jti in t && t[c.jti] == RowOf(c)
    requires 0 < |EncodeToken(codec, key, c)| <= MAX_TOKEN
    ensures ValidateToken(codec, key, t, EncodeToken(codec, key, c), c.aud, now) == Valid
  {
    hide Scope.IsGrantList, DecodeToken, EncodeToken;
    EnvelopeRoundTrip(codec, key, c);
    assert Acceptable(c);
  }
}
