/**
 * The OAuth state parameter (`OAuthAuthorize`, `OAuthCallback` in `service/oauth.go`, rows of
 * `store/oauth_state.go`) as a protocol: authorisations and callbacks interleaved one store
 * operation at a time while the clock runs. See sections 4.1.1 and 4.1.2 of RFC 6749.
 */
module OAuthState {
  /** A row of `garance_auth.oauth_states`; the database adds ten minutes to the creation time. */
  datatype Row = Row(provider: string, redirectUri: string, expiresAt: int)

  const LIFETIME: int := 600

  /** What an authorisation request asked for, and when it was granted. */
  datatype Grant = Grant(provider: string, redirectUri: string, baseUrl: string, at: int)

  datatype Stage =
    | Called
    | Cleaned
    | Consumed(row: Row, at: int)
    | Succeeded(redirectUri: string, at: int)
    | Rejected

  datatype Callback = Callback(provider: string, token: string, stage: Stage)

  /** `granted` remembers every state value ever issued. */
  datatype State = State(now: int, rows: map<string, Row>, granted: map<string, Grant>, callbacks: map<nat, Callback>)

  datatype Step =
    | Tick(seconds: nat)
    | Authorize(provider: string, redirectUri: string, baseUrl: string, token: string)
    | Call(i: nat, provider: string, token: string)
    | Cleanup(i: nat, works: bool)      // lazy deletion of expired rows, whose error is ignored
    | Consume(i: nat)                   // DELETE ... RETURNING
    | Complete(i: nat, works: bool)     // provider check, code exchange, login, token pair

  function Moved(s: State, i: nat, stage: Stage): State
    requires i in s.callbacks
  {
    s.(callbacks := s.callbacks[i := s.callbacks[i].(stage := stage)])
  }

  ghost predicate At(s: State, i: nat) {
    i in s.callbacks
  }

  /** `allowed` stands for `isValidRedirectURI`; issued state values are 32 fresh random bytes. */
  ghost predicate NextStep(s: State, s': State, step: Step, allowed: (string, string) -> bool) {
    match step
    case Tick(seconds) => s' == s.(now := s.now + seconds)
    case Authorize(provider, redirectUri, baseUrl, token) =>
      if allowed(redirectUri, baseUrl) then
        && token !in s.granted
        && s' == s.(rows := s.rows[token := Row(provider, redirectUri, s.now + LIFETIME)],
                    granted := s.granted[token := Grant(provider, redirectUri, baseUrl, s.now)])
      else s' == s
    case Call(i, provider, token) =>
      i !in s.callbacks && s' == s.(callbacks := s.callbacks[i := Callback(provider, token, Called)])
    case Cleanup(i, works) =>
      && At(s, i) && s.callbacks[i].stage == Called
      && s' == Moved(if works then s.(rows := Unexpired(s.rows, s.now)) else s, i, Cleaned)
    case Consume(i) =>
      && At(s, i) && s.callbacks[i].stage == Cleaned
      && var token := s.callbacks[i].token;
         if token in s.rows && s.rows[token].expiresAt > s.now
         then s' == Moved(s.(rows := s.rows - {token}), i, Consumed(s.rows[token], s.now))
         else s' == Moved(s, i, Rejected)
    case Complete(i, works) =>
      && At(s, i) && s.callbacks[i].stage.Consumed?
      && var c := s.callbacks[i];
         s' == Moved(s, i, if c.stage.row.provider == c.provider && works
                           then Succeeded(c.stage.row.redirectUri, c.stage.at) else Rejected)
  }

  function Unexpired(rows: map<string, Row>, now: int): map<string, Row> {
    map token | token in rows && !(rows[token].expiresAt < now) :: rows[token]
  }

  ghost predicate Next(s: State, s': State, allowed: (string, string) -> bool) {
    exists step :: NextStep(s, s', step, allowed)
  }

  ghost predicate IsRun(run: seq<State>, allowed: (string, string) -> bool) {
    && |run| > 0 && run[0].rows == map[] && run[0].granted == map[] && run[0].callbacks == map[]
    && forall k :: 0 <= k < |run| - 1 ==> Next(run[k], run[k + 1], allowed)
  }

  // ----- the invariant ----------------------------------------------------------------------

  /** A row is what its grant made it. */
  ghost predicate RowOf(row: Row, g: Grant) {
    row == Row(g.provider, g.redirectUri, g.at + LIFETIME)
  }

  predicate Holds(c: Callback) {
    c.stage.Consumed? || c.stage.Succeeded?
  }

  ghost predicate RowsGranted(s: State, allowed: (string, string) -> bool) {
    && (forall token :: token in s.rows ==> token in s.granted && RowOf(s.rows[token], s.granted[token]))
    && (forall token :: token in s.granted ==>
          allowed(s.granted[token].redirectUri, s.granted[token].baseUrl) && s.granted[token].at <= s.now)
  }

  /** A callback that consumed a row did so while it was valid; the row is gone and nobody else has it. */
  ghost predicate ConsumedOnce(s: State) {
    && (forall i :: i in s.callbacks && Holds(s.callbacks[i]) ==>
          s.callbacks[i].token in s.granted && s.callbacks[i].token !in s.rows)
    && (forall i, j :: i in s.callbacks && j in s.callbacks && Holds(s.callbacks[i]) && Holds(s.callbacks[j]) ==>
          s.callbacks[i].token == s.callbacks[j].token ==> i == j)
  }

  ghost predicate StageTrue(c: Callback, granted: map<string, Grant>)
    requires c.token in granted
  {
    var g := granted[c.token];
    match c.stage
    case Consumed(row, at) => RowOf(row, g) && g.at <= at < g.at + LIFETIME
    case Succeeded(uri, at) => c.provider == g.provider && uri == g.redirectUri && g.at <= at < g.at + LIFETIME
    case _ => true
  }

  ghost predicate Inv(s: State, allowed: (string, string) -> bool) {
    && RowsGranted(s, allowed) && ConsumedOnce(s)
    && forall i :: i in s.callbacks && Holds(s.callbacks[i]) ==> StageTrue(s.callbacks[i], s.granted)
  }

  lemma StepKeepsInv(s: State, s': State, step: Step, allowed: (string, string) -> bool)
    requires Inv(s, allowed) && NextStep(s, s', step, allowed)
    ensures Inv(s', allowed)
  {
    match step
    case Consume(i) => ConsumeKeepsInv(s, s', i, allowed);
    case Complete(i, works) => CompleteKeepsInv(s, s', i, works, allowed);
    case Authorize(_, _, _, _) => AuthorizeKeepsInv(s, s', step, allowed);
    case Cleanup(i, works) => CleanupKeepsInv(s, s', i, works, allowed);
    case Call(_, _, _) =>
    case Tick(_) =>
  }

  lemma CleanupKeepsInv(s: State, s': State, i: nat, works: bool, allowed: (string, string) -> bool)
    requires Inv(s, allowed) && NextStep(s, s', Cleanup(i, works), allowed)
    ensures Inv(s', allowed)
  {
    forall j | j in s.callbacks && j != i ensures s'.callbacks[j] == s.callbacks[j] {}
  }

  lemma AuthorizeKeepsInv(s: State, s': State, step: Step, allowed: (string, string) -> bool)
    requires Inv(s, allowed) && NextStep(s, s', step, allowed) && step.Authorize?
    ensures Inv(s', allowed)
  {
    if s' != s {
      assert forall i :: i in s.callbacks && Holds(s.callbacks[i]) ==> s.callbacks[i].token != step.token;
    }
  }

  lemma CompleteKeepsInv(s: State, s': State, i: nat, works: bool, allowed: (string, string) -> bool)
    requires Inv(s, allowed) && NextStep(s, s', Complete(i, works), allowed)
    ensures Inv(s', allowed)
  {
    forall j | j in s.callbacks && j != i ensures s'.callbacks[j] == s.callbacks[j] {}
    assert Holds(s.callbacks[i]) && StageTrue(s.callbacks[i], s.granted);
  }

  lemma ConsumeKeepsInv(s: State, s': State, i: nat, allowed: (string, string) -> bool)
    requires Inv(s, allowed) && NextStep(s, s', Consume(i), allowed)
    ensures Inv(s', allowed)
  {
    forall j | j in s.callbacks && j != i ensures s'.callbacks[j] == s.callbacks[j] {}
    assert Holds(s'.callbacks[i]) ==> s.callbacks[i].token in s.rows;
  }

  lemma {:induction false} RunKeepsInv(run: seq<State>, allowed: (string, string) -> bool, k: nat)
    requires IsRun(run, allowed) && k < |run|
    ensures Inv(run[k], allowed)
  {
    if k > 0 {
      RunKeepsInv(run, allowed, k - 1);
      assert Next(run[k - 1], run[k - 1 + 1], allowed);
      var step :| NextStep(run[k - 1], run[k], step, allowed);
      StepKeepsInv(run[k - 1], run[k], step, allowed);
    }
  }

  /**
   * At any point of any run, a successful callback belongs to a grant: it used the grant's
   * provider, consumed the state before it expired, and returns the redirect URI that had been
   * checked at authorisation. No other callback has succeeded with the same state.
   */
  lemma StateBacksOneCallback(run: seq<State>, allowed: (string, string) -> bool, k: nat, i: nat)
    requires IsRun(run, allowed) && k < |run| && i in run[k].callbacks && run[k].callbacks[i].stage.Succeeded?
    ensures var c := run[k].callbacks[i];
      && c.token in run[k].granted
      && var g := run[k].granted[c.token];
         && c.provider == g.provider && c.stage.redirectUri == g.redirectUri
         && g.at <= c.stage.at < g.at + LIFETIME && allowed(g.redirectUri, g.baseUrl)
    ensures forall j :: j in run[k].callbacks && run[k].callbacks[j].stage.Succeeded? ==>
      run[k].callbacks[j].token == run[k].callbacks[i].token ==> j == i
  {
    RunKeepsInv(run, allowed, k);
    assert Holds(run[k].callbacks[i]);
    forall j | j in run[k].callbacks && run[k].callbacks[j].stage.Succeeded? ensures Holds(run[k].callbacks[j]) {}
  }

  // ----- when a callback succeeds -----------------------------------------------------------

  /** The step from the l-th state consumes the row of the state value. */
  ghost predicate Taken(run: seq<State>, l: nat, token: string)
    requires l + 1 < |run|
  {
    exists j :: j in run[l].callbacks && j in run[l + 1].callbacks && run[l].callbacks[j].token == token
      && run[l].callbacks[j].stage == Cleaned && run[l + 1].callbacks[j].stage.Consumed?
  }

  ghost predicate TakenBefore(run: seq<State>, k: nat, token: string)
    requires k < |run|
  {
    exists l :: 0 <= l < k && Taken(run, l, token)
  }

  lemma TakenStep(run: seq<State>, k: nat, token: string)
    requires k + 1 < |run|
    ensures TakenBefore(run, k + 1, token) <==> TakenBefore(run, k, token) || Taken(run, k, token)
  {
    hide Taken;
  }

  /** A step takes a row exactly by consuming one that has not expired. */
  lemma TakenIff(run: seq<State>, l: nat, step: Step, allowed: (string, string) -> bool, token: string)
    requires l + 1 < |run| && NextStep(run[l], run[l + 1], step, allowed)
    ensures Taken(run, l, token) <==>
      && step.Consume? && run[l].callbacks[step.i].token == token
      && token in run[l].rows && run[l].rows[token].expiresAt > run[l].now
  {
    var s, s' := run[l], run[l + 1];
    if Taken(run, l, token) {
      var j :| j in s.callbacks && j in s'.callbacks && s.callbacks[j].token == token
        && s.callbacks[j].stage == Cleaned && s'.callbacks[j].stage.Consumed?;
      assert step == Consume(j);
    }
  }

  /** The row of a state value granted less than ten minutes ago is there exactly if nobody has consumed it. */
  lemma {:induction false} RowThereIff(run: seq<State>, allowed: (string, string) -> bool, k: nat, token: string)
    requires IsRun(run, allowed) && k < |run| && token in run[k].granted
    requires run[k].now < run[k].granted[token].at + 600
    ensures token in run[k].rows <==> !TakenBefore(run, k, token)
  {
    hide TakenBefore, Taken, Inv, NextStep;
    assert k > 0;
    var l: nat := k - 1;
    assert Next(run[l], run[l + 1], allowed);
    var step :| NextStep(run[l], run[l + 1], step, allowed);
    RunKeepsInv(run, allowed, l);
    TakenStep(run, l, token);
    TakenIff(run, l, step, allowed, token);
    GrantStays(run[l], run[l + 1], step, allowed, token);
    if token in run[l].granted {
      RowKept(run[l], run[l + 1], step, allowed, token);
      RowThereIff(run, allowed, l, token);
    } else {
      NeverTaken(run, allowed, l, token);
      RowGranted(run[l], run[l + 1], step, allowed, token);
    }
  }

  lemma RowGranted(s: State, s': State, step: Step, allowed: (string, string) -> bool, token: string)
    requires Inv(s, allowed) && NextStep(s, s', step, allowed) && token !in s.granted && token in s'.granted
    ensures step.Authorize? && token in s'.rows
  {}

  /** One step removes the row of an unexpired state value only by consuming it. */
  lemma RowKept(s: State, s': State, step: Step, allowed: (string, string) -> bool, token: string)
    requires Inv(s, allowed) && NextStep(s, s', step, allowed)
    requires token in s.granted && s'.now < s.granted[token].at + 600
    ensures token in s'.granted && s'.granted[token] == s.granted[token] && s.now <= s'.now
    ensures token in s.rows ==> s.rows[token].expiresAt > s.now
    ensures token in s'.rows <==>
      token in s.rows && !(step.Consume? && s.callbacks[step.i].token == token)
  {}

  lemma GrantStays(s: State, s': State, step: Step, allowed: (string, string) -> bool, token: string)
    requires NextStep(s, s', step, allowed)
    ensures token in s.granted ==> token in s'.granted && s'.granted[token] == s.granted[token]
  {}

  lemma {:induction false} NeverTaken(run: seq<State>, allowed: (string, string) -> bool, k: nat, token: string)
    requires IsRun(run, allowed) && k < |run| && token !in run[k].granted
    ensures !TakenBefore(run, k, token)
  {
    if k > 0 {
      var l: nat := k - 1;
      assert Next(run[l], run[l + 1], allowed);
      var step :| NextStep(run[l], run[l + 1], step, allowed);
      RunKeepsInv(run, allowed, l);
      assert token in run[l].rows ==> token in run[l].granted;
      hide TakenBefore, Taken, Inv, NextStep, Next;
      TakenStep(run, l, token);
      TakenIff(run, l, step, allowed, token);
      GrantStays(run[l], run[l + 1], step, allowed, token);
      NeverTaken(run, allowed, l, token);
    }
  }

  /**
   * A callback's DELETE finds a row if and only if its state value was granted less than ten minutes ago
   * and nobody has consumed it; otherwise the callback is rejected.
   */
  lemma ConsumeFindsIff(run: seq<State>, allowed: (string, string) -> bool, k: nat, i: nat)
    requires IsRun(run, allowed) && k + 1 < |run| && NextStep(run[k], run[k + 1], Consume(i), allowed)
    ensures var s, c := run[k], run[k].callbacks[i];
      if c.token in s.granted && s.now < s.granted[c.token].at + 600 && !TakenBefore(run, k, c.token)
      then run[k + 1].callbacks[i].stage ==
             Consumed(Row(s.granted[c.token].provider, s.granted[c.token].redirectUri, s.granted[c.token].at + 600), s.now)
      else run[k + 1].callbacks[i].stage == Rejected
  {
    RunKeepsInv(run, allowed, k);
    var token := run[k].callbacks[i].token;
    if token in run[k].granted && run[k].now < run[k].granted[token].at + 600 {
      RowThereIff(run, allowed, k, token);
    }
    hide TakenBefore;
  }

  /** With its row consumed, a callback succeeds if and only if it names the row's provider and the provider's side works. */
  lemma CompleteSucceedsIff(s: State, s': State, i: nat, works: bool, allowed: (string, string) -> bool)
    requires NextStep(s, s', Complete(i, works), allowed)
    ensures var c := s.callbacks[i];
      s'.callbacks[i].stage == if c.stage.row.provider == c.provider && works
        then Succeeded(c.stage.row.redirectUri, c.stage.at) else Rejected
  {}

  /**
   * From every state of every run: a callback that has just arrived, for the provider of a state value
   * granted less than ten minutes ago that nobody has consumed, can go on to success, with the redirect
   * URI of the grant.
   */
  lemma CallbackSucceeds(run: seq<State>, allowed: (string, string) -> bool, i: nat) returns (more: seq<State>)
    requires IsRun(run, allowed)
    requires var s := run[|run| - 1];
      && i in s.callbacks && s.callbacks[i].stage == Called
      && s.callbacks[i].token in s.granted && s.callbacks[i].provider == s.granted[s.callbacks[i].token].provider
      && s.now < s.granted[s.callbacks[i].token].at + 600
    requires !TakenBefore(run, |run| - 1, run[|run| - 1].callbacks[i].token)
    ensures IsRun(run + more, allowed) && more != []
    ensures var s := run[|run| - 1];
      i in more[|more| - 1].callbacks &&
      more[|more| - 1].callbacks[i].stage == Succeeded(s.granted[s.callbacks[i].token].redirectUri, s.now)
  {
    var s := run[|run| - 1];
    var token := s.callbacks[i].token;
    RunKeepsInv(run, allowed, |run| - 1);
    RowThereIff(run, allowed, |run| - 1, token);
    var cleaned := Moved(s, i, Cleaned);
    var consumed := Moved(cleaned.(rows := cleaned.rows - {token}), i, Consumed(s.rows[token], s.now));
    var done := Moved(consumed, i, Succeeded(s.rows[token].redirectUri, s.now));
    assert NextStep(s, cleaned, Cleanup(i, false), allowed);
    assert NextStep(cleaned, consumed, Consume(i), allowed);
    assert NextStep(consumed, done, Complete(i, true), allowed);
    more := [cleaned, consumed, done];
    var whole := run + more;
    hide NextStep;
    forall k | 0 <= k < |whole| - 1
      ensures Next(whole[k], whole[k + 1], allowed)
    {
      if k < |run| - 1 {
        assert whole[k] == run[k] && whole[k + 1] == run[k + 1];
        assert Next(run[k], run[k + 1], allowed);
      } else if k == |run| - 1 {
        assert whole[k] == s && whole[k + 1] == cleaned;
      } else {
        assert whole[k] == more[k - |run|] && whole[k + 1] == more[k - |run| + 1];
      }
    }
  }
}
