/**
 * Refreshes of one token at the same time: `RefreshToken` of `service/auth.go` statement by
 * statement, where the lookup and the revocation of the session are two.
 */
module RefreshRace {
  import opened Wrappers
  import Sessions

  /** A session row, under its UNIQUE refresh token. */
  datatype Row = Row(user: nat, expiresAt: int, revoked: bool)

  /** How far a call has come; an answer holds the new token, or nothing. */
  datatype Stage = Called | Found | Revoked | Answered(renewed: Option<string>)

  datatype Call = Call(token: string, stage: Stage)

  datatype State = State(now: int, rows: map<string, Row>, calls: map<nat, Call>)

  datatype Step =
    | Tick(seconds: nat)
    | Arrive(i: nat, token: string)
    | LookUp(i: nat)                  // SELECT of a row neither revoked nor expired
    | Revoke(i: nat)                  // UPDATE of the row found
    | Issue(i: nat, renewed: string)  // INSERT of a session with a random token
    | Refuse(i: nat)                  // the user is banned or missing; a sign-out also ends here

  function Moved(s: State, i: nat, stage: Stage): State
    requires i in s.calls
  {
    s.(calls := s.calls[i := s.calls[i].(stage := stage)])
  }

  predicate At(s: State, i: nat, stage: Stage) {
    i in s.calls && s.calls[i].stage == stage
  }

  predicate Live(s: State, token: string) {
    token in s.rows && !s.rows[token].revoked && s.rows[token].expiresAt > s.now
  }

  predicate NextStep(s: State, s': State, step: Step) {
    match step
    case Tick(seconds) => s' == s.(now := s.now + seconds)
    case Arrive(i, token) => i !in s.calls && s' == s.(calls := s.calls[i := Call(token, Called)])
    case LookUp(i) =>
      && At(s, i, Called)
      && s' == Moved(s, i, if Live(s, s.calls[i].token) then Found else Answered(None))
    case Revoke(i) =>
      && At(s, i, Found) && s.calls[i].token in s.rows
      && var token := s.calls[i].token;
         s' == Moved(s.(rows := s.rows[token := s.rows[token].(revoked := true)]), i, Revoked)
    case Issue(i, renewed) =>
      && At(s, i, Revoked) && s.calls[i].token in s.rows && renewed !in s.rows
      && var row := Row(s.rows[s.calls[i].token].user, s.now + Sessions.THIRTY_DAYS, false);
         s' == Moved(s.(rows := s.rows[renewed := row]), i, Answered(Some(renewed)))
    case Refuse(i) => At(s, i, Revoked) && s' == Moved(s, i, Answered(None))
  }

  /** Any session table, and no call under way. */
  predicate IsRun(run: seq<State>, steps: seq<Step>) {
    && |run| == |steps| + 1 && run[0].calls == map[]
    && forall k :: 0 <= k < |steps| ==> NextStep(run[k], run[k + 1], steps[k])
  }

  /** Step `k` revokes the session of this token. */
  predicate Revokes(run: seq<State>, steps: seq<Step>, k: nat, token: string)
    requires |run| == |steps| + 1
  {
    k < |steps| && steps[k].Revoke? && steps[k].i in run[k].calls && run[k].calls[steps[k].i].token == token
  }

  /** The token's session is open at the start. */
  predicate OpenAtStart(run: seq<State>, token: string) {
    run != [] && token in run[0].rows && !run[0].rows[token].revoked
  }

  lemma {:induction false} RevokedIff(run: seq<State>, steps: seq<Step>, k: nat, token: string)
    requires IsRun(run, steps) && k < |run| && OpenAtStart(run, token)
    ensures token in run[k].rows && run[k].rows[token].expiresAt == run[0].rows[token].expiresAt
    ensures run[k].rows[token].revoked <==> exists l :: 0 <= l < k && Revokes(run, steps, l, token)
  {
    if k > 0 {
      RevokedIff(run, steps, k - 1, token);
      assert NextStep(run[k - 1], run[k - 1 + 1], steps[k - 1]);
      if run[k].rows[token].revoked && !run[k - 1].rows[token].revoked {
        assert Revokes(run, steps, k - 1, token);
      }
    }
  }

  /**
   * A lookup finds the session exactly when the token has not expired and no step before it, of
   * whichever call, revoked the session.
   */
  lemma LookUpFindsIff(run: seq<State>, steps: seq<Step>, k: nat, i: nat, token: string)
    requires IsRun(run, steps) && k < |steps| && steps[k] == LookUp(i)
    requires i in run[k].calls && run[k].calls[i].token == token && OpenAtStart(run, token)
    ensures At(run[k + 1], i, Found) <==>
      && run[0].rows[token].expiresAt > run[k].now
      && !exists l :: 0 <= l < k && Revokes(run, steps, l, token)
  {
    RevokedIff(run, steps, k, token);
    assert NextStep(run[k], run[k + 1], steps[k]);
  }

  /** The steps a call has behind it, by its stage. */
  ghost predicate Traced(run: seq<State>, steps: seq<Step>, k: nat, i: nat, a: nat, r: nat)
    requires |run| == |steps| + 1
  {
    && a < r < k < |run|
    && steps[a] == LookUp(i) && At(run[a + 1], i, Found) && i in run[a].calls
    && steps[r] == Revoke(i) && i in run[r].calls
    && i in run[k].calls && run[a].calls[i].token == run[r].calls[i].token == run[k].calls[i].token
  }

  /** The lookup that found the session. */
  lemma {:induction false} FoundBy(run: seq<State>, steps: seq<Step>, k: nat, i: nat) returns (a: nat)
    requires IsRun(run, steps) && k < |run| && At(run[k], i, Found)
    ensures a < k && steps[a] == LookUp(i) && At(run[a + 1], i, Found) && i in run[a].calls
    ensures run[a].calls[i].token == run[k].calls[i].token
  {
    assert k > 0;
    assert NextStep(run[k - 1], run[k - 1 + 1], steps[k - 1]);
    if At(run[k - 1], i, Found) {
      a := FoundBy(run, steps, k - 1, i);
    } else {
      a := k - 1;
    }
  }

  /** A call that got a new token had found the session, and revoked it. */
  lemma {:induction false} RenewedBy(run: seq<State>, steps: seq<Step>, k: nat, i: nat) returns (a: nat, r: nat)
    requires IsRun(run, steps) && k < |run| && i in run[k].calls
    requires run[k].calls[i].stage == Revoked || (run[k].calls[i].stage.Answered? && run[k].calls[i].stage.renewed.Some?)
    ensures Traced(run, steps, k, i, a, r)
  {
    assert k > 0;
    assert NextStep(run[k - 1], run[k - 1 + 1], steps[k - 1]);
    if At(run[k - 1], i, Found) {
      a := FoundBy(run, steps, k - 1, i);
      r := k - 1;
    } else {
      a, r := RenewedBy(run, steps, k - 1, i);
    }
  }

  /**
   * Two refreshes of one token can only both succeed when they overlap: each of them looked the
   * session up before the other revoked it.
   */
  lemma BothSucceedOnlyOverlapping(run: seq<State>, steps: seq<Step>, k: nat, i: nat, j: nat, token: string)
    returns (a: nat, r: nat, b: nat, q: nat)
    requires IsRun(run, steps) && k < |run| && OpenAtStart(run, token)
    requires i in run[k].calls && j in run[k].calls && i != j
    requires run[k].calls[i].token == token && run[k].calls[j].token == token
    requires run[k].calls[i].stage.Answered? && run[k].calls[i].stage.renewed.Some?
    requires run[k].calls[j].stage.Answered? && run[k].calls[j].stage.renewed.Some?
    ensures Traced(run, steps, k, i, a, r) && Traced(run, steps, k, j, b, q)
    ensures a < q && b < r
  {
    a, r := RenewedBy(run, steps, k, i);
    b, q := RenewedBy(run, steps, k, j);
    LookUpFindsIff(run, steps, a, i, token);
    LookUpFindsIff(run, steps, b, j, token);
    assert Revokes(run, steps, r, token) && Revokes(run, steps, q, token);
  }

  /** Two calls with the same token. */
  function Pair(now: int, rows: map<string, Row>, token: string, a: Stage, b: Stage): State {
    State(now, rows, map[0 := Call(token, a), 1 := Call(token, b)])
  }

  lemma BothFind(now: int, rows: map<string, Row>, token: string)
    requires Live(Pair(now, rows, token, Called, Called), token)
    ensures NextStep(State(now, rows, map[]), State(now, rows, map[0 := Call(token, Called)]), Arrive(0, token))
    ensures NextStep(State(now, rows, map[0 := Call(token, Called)]), Pair(now, rows, token, Called, Called), Arrive(1, token))
    ensures NextStep(Pair(now, rows, token, Called, Called), Pair(now, rows, token, Found, Called), LookUp(0))
    ensures NextStep(Pair(now, rows, token, Found, Called), Pair(now, rows, token, Found, Found), LookUp(1))
  {}

  lemma BothRevoke(now: int, rows: map<string, Row>, token: string, revoked: map<string, Row>)
    requires token in rows && revoked == rows[token := rows[token].(revoked := true)]
    ensures NextStep(Pair(now, rows, token, Found, Found), Pair(now, revoked, token, Revoked, Found), Revoke(0))
    ensures NextStep(Pair(now, revoked, token, Revoked, Found), Pair(now, revoked, token, Revoked, Revoked), Revoke(1))
  {
    assert revoked[token := revoked[token].(revoked := true)] == revoked;
  }

  lemma BothIssue(now: int, rows: map<string, Row>, token: string, first: string, second: string, row: Row)
    requires token in rows && first !in rows && second !in rows && first != second
    requires row == Row(rows[token].user, now + Sessions.THIRTY_DAYS, false)
    ensures NextStep(Pair(now, rows, token, Revoked, Revoked),
                     Pair(now, rows[first := row], token, Answered(Some(first)), Revoked), Issue(0, first))
    ensures NextStep(Pair(now, rows[first := row], token, Answered(Some(first)), Revoked),
                     Pair(now, rows[first := row][second := row], token, Answered(Some(first)), Answered(Some(second))),
                     Issue(1, second))
  {}

  /** And then they can: two refreshes of any open token that look it up in turn both get a new one. */
  lemma OverlappingBothSucceed(now: int, rows: map<string, Row>, token: string, first: string, second: string)
    returns (run: seq<State>, steps: seq<Step>)
    requires Live(State(now, rows, map[]), token) && first !in rows && second !in rows && first != second
    ensures IsRun(run, steps) && run[0] == State(now, rows, map[]) && |run| == 9
    ensures At(run[8], 0, Answered(Some(first))) && At(run[8], 1, Answered(Some(second)))
    ensures var row := Row(rows[token].user, now + 2592000, false);
      run[8].rows == rows[token := rows[token].(revoked := true)][first := row][second := row]
  {
    var revoked := rows[token := rows[token].(revoked := true)];
    var row := Row(rows[token].user, now + Sessions.THIRTY_DAYS, false);
    BothFind(now, rows, token);
    BothRevoke(now, rows, token, revoked);
    BothIssue(now, revoked, token, first, second, row);
    hide NextStep;
    steps := [Arrive(0, token), Arrive(1, token), LookUp(0), LookUp(1), Revoke(0), Revoke(1), Issue(0, first), Issue(1, second)];
    run := [State(now, rows, map[]), State(now, rows, map[0 := Call(token, Called)]),
            Pair(now, rows, token, Called, Called), Pair(now, rows, token, Found, Called),
            Pair(now, rows, token, Found, Found), Pair(now, revoked, token, Revoked, Found),
            Pair(now, revoked, token, Revoked, Revoked),
            Pair(now, revoked[first := row], token, Answered(Some(first)), Revoked),
            Pair(now, revoked[first := row][second := row], token, Answered(Some(first)), Answered(Some(second)))];
  }
}
