/**
 * The first login through an OAuth provider (`findOrCreateOAuthUser` in `service/oauth.go`) as
 * a protocol: any number of calls, interleaved one store operation at a time, beside sign-ups
 * with a password, over tables with a UNIQUE email and a UNIQUE provider identity.
 */
module FirstLogin {
  import opened Users
  import opened Wrappers

  /** The user as the provider knows them. */
  datatype Key = Key(provider: string, providerUserId: string)

  /** The store operation a call performs next, with the user it has settled on. */
  datatype Stage =
    | LookUpIdentity
    | UpdateIdentity(uid: Uid)
    | FetchReturning(uid: Uid)
    | LookUpEmail
    | LinkExisting(uid: Uid)
    | Create
    | LookUpAgain
    | Verify(uid: Uid)
    | Link(uid: Uid)
    | Fetch(uid: Uid)
    | Returned(uid: Uid)
    | Failed

  datatype Call = Call(key: Key, stage: Stage)

  datatype State = State(users: map<Uid, User>, identities: map<Key, Uid>, calls: map<nat, Call>)

  datatype Step =
    | Login(i: nat, key: Key)
    | Proceed(i: nat, newId: Uid)       // `newId` is the id the database draws for a new user
    | SignUp(email: string, password: Option<string>, newId: Uid)

  // ----- the store --------------------------------------------------------------------------

  ghost predicate EmailTaken(users: map<Uid, User>, email: string) {
    exists uid :: HasEmail(users, uid, email)
  }

  /** `CreateIdentity`, whose error the service ignores: an existing row stays. */
  function Linked(identities: map<Key, Uid>, key: Key, uid: Uid): map<Key, Uid> {
    if key in identities then identities else identities[key := uid]
  }

  function Moved(s: State, i: nat, stage: Stage): State
    requires i in s.calls
  {
    s.(calls := s.calls[i := s.calls[i].(stage := stage)])
  }

  ghost predicate NextStep(s: State, s': State, step: Step, emailOf: Key -> string) {
    match step
    case Login(i, key) => i !in s.calls && s' == s.(calls := s.calls[i := Call(key, LookUpIdentity)])
    case SignUp(email, password, newId) =>
      && newId !in s.users && !EmailTaken(s.users, email)
      && s' == s.(users := s.users[newId := NewUser(email, password)])
    case Proceed(i, newId) => i in s.calls && Proceeds(s, s', i, s.calls[i].key, emailOf(s.calls[i].key), newId)
  }

  ghost predicate Proceeds(s: State, s': State, i: nat, key: Key, email: string, newId: Uid)
    requires i in s.calls
  {
    match s.calls[i].stage
    case LookUpIdentity =>
      s' == Moved(s, i, if key in s.identities then UpdateIdentity(s.identities[key]) else LookUpEmail)
    case UpdateIdentity(uid) => s' == Moved(s, i, FetchReturning(uid))
    case FetchReturning(uid) => s' == Moved(s, i, if uid in s.users then Returned(uid) else Failed)
    case LookUpEmail =>
      if EmailTaken(s.users, email)
      then exists uid :: HasEmail(s.users, uid, email) && s' == Moved(s, i, LinkExisting(uid))
      else s' == Moved(s, i, Create)
    case LinkExisting(uid) => s' == Moved(s.(identities := Linked(s.identities, key, uid)), i, Returned(uid))
    case Create =>
      if EmailTaken(s.users, email) then s' == Moved(s, i, LookUpAgain)
      else newId !in s.users && s' == Moved(s.(users := s.users[newId := NewUser(email, None)]), i, Verify(newId))
    case LookUpAgain =>
      if EmailTaken(s.users, email)
      then exists uid :: HasEmail(s.users, uid, email) && s' == Moved(s, i, Verify(uid))
      else s' == Moved(s, i, Failed)
    case Verify(uid) =>
      s' == Moved(if uid in s.users then s.(users := s.users[uid := s.users[uid].(verified := true)]) else s, i, Link(uid))
    case Link(uid) => s' == Moved(s.(identities := Linked(s.identities, key, uid)), i, Fetch(uid))
    case Fetch(uid) => s' == Moved(s, i, if uid in s.users then Returned(uid) else Failed)
    case Returned(_) => false
    case Failed => false
  }

  ghost predicate Next(s: State, s': State, emailOf: Key -> string) {
    exists step :: NextStep(s, s', step, emailOf)
  }

  /** Any consistent tables, and no call under way. */
  ghost predicate Init(s: State) {
    && s.calls == map[] && EmailsUnique(s.users)
    && forall key :: key in s.identities ==> s.identities[key] in s.users
  }

  ghost predicate IsRun(run: seq<State>, emailOf: Key -> string) {
    && |run| > 0 && Init(run[0])
    && forall k :: 0 <= k < |run| - 1 ==> Next(run[k], run[k + 1], emailOf)
  }

  // ----- the invariant ----------------------------------------------------------------------

  /**
   * The one user that may answer for a key: the one linked at the start, and if there was none,
   * the one with the email that the provider reports.
   */
  ghost predicate Owns(s0: State, s: State, key: Key, uid: Uid, emailOf: Key -> string) {
    && uid in s.users
    && if key in s0.identities then uid == s0.identities[key] else s.users[uid].email == emailOf(key)
  }

  ghost predicate LinksOwned(s0: State, s: State, emailOf: Key -> string) {
    && (forall key :: key in s0.identities ==> key in s.identities)
    && forall key :: key in s.identities ==> Owns(s0, s, key, s.identities[key], emailOf)
  }

  /** What a call knows at each stage. */
  ghost predicate CallSound(s0: State, s: State, call: Call, emailOf: Key -> string) {
    var key := call.key;
    match call.stage
    case LookUpIdentity => true
    case UpdateIdentity(uid) => key in s.identities && s.identities[key] == uid
    case FetchReturning(uid) => key in s.identities && s.identities[key] == uid
    case LookUpEmail => key !in s0.identities
    case LinkExisting(uid) => key !in s0.identities && Owns(s0, s, key, uid, emailOf)
    case Create => key !in s0.identities
    case LookUpAgain => key !in s0.identities && EmailTaken(s.users, emailOf(key))
    case Verify(uid) => key !in s0.identities && Owns(s0, s, key, uid, emailOf)
    case Link(uid) => key !in s0.identities && Owns(s0, s, key, uid, emailOf) && s.users[uid].verified
    case Fetch(uid) => key in s.identities && s.identities[key] == uid && uid in s.users && s.users[uid].verified
    case Returned(uid) => key in s.identities && s.identities[key] == uid
    case Failed => false
  }

  ghost predicate Inv(s0: State, s: State, emailOf: Key -> string) {
    && EmailsUnique(s.users) && LinksOwned(s0, s, emailOf)
    && forall i :: i in s.calls ==> CallSound(s0, s, s.calls[i], emailOf)
  }

  /** How the tables may change in one step. */
  ghost predicate Grows(s: State, s': State) {
    && (forall u :: u in s.users ==> u in s'.users && s'.users[u].email == s.users[u].email &&
                                     (s.users[u].verified ==> s'.users[u].verified))
    && (forall key :: key in s.identities ==> key in s'.identities && s'.identities[key] == s.identities[key])
  }

  lemma SoundWhenGrown(s0: State, s: State, s': State, call: Call, emailOf: Key -> string)
    requires CallSound(s0, s, call, emailOf) && Grows(s, s')
    ensures CallSound(s0, s', call, emailOf)
  {
    if call.stage.LookUpAgain? {
      var uid :| HasEmail(s.users, uid, emailOf(call.key));
      assert HasEmail(s'.users, uid, emailOf(call.key));
    }
  }

  /** A step keeps the tables consistent and leaves every call but its own alone. */
  lemma StepGrows(s0: State, s: State, s': State, step: Step, emailOf: Key -> string)
    requires Inv(s0, s, emailOf) && NextStep(s, s', step, emailOf)
    ensures Grows(s, s') && EmailsUnique(s'.users)
    ensures forall i :: i in s'.calls && !(step.Proceed? && i == step.i) ==>
      (i in s.calls && s'.calls[i] == s.calls[i]) || s'.calls[i].stage == LookUpIdentity
  {
    if step.Proceed? {
      ProceedGrows(s0, s, s', step.i, step.newId, emailOf);
    } else if step.SignUp? {
      assert forall u :: u in s.users ==> !HasEmail(s.users, u, step.email);
    }
  }

  /** The four ways in which one store operation may change the user table. */
  ghost predicate UsersChange(users: map<Uid, User>, users': map<Uid, User>, email: string) {
    || users' == users
    || (exists uid :: uid in users && users' == users[uid := users[uid].(verified := true)])
    || (exists uid: Uid, password :: uid !in users && !EmailTaken(users, email) && users' == users[uid := NewUser(email, password)])
  }

  lemma ProceedChanges(s: State, s': State, i: nat, key: Key, email: string, newId: Uid)
    requires i in s.calls && s.calls[i].key == key && Proceeds(s, s', i, key, email, newId)
    ensures UsersChange(s.users, s'.users, email)
    ensures s'.identities == s.identities || exists uid :: s'.identities == Linked(s.identities, key, uid)
    ensures i in s'.calls && s'.calls == s.calls[i := s'.calls[i]] && s'.calls[i].key == key
  {
    hide HasEmail, EmailTaken, Linked;
  }

  lemma UsersGrow(users: map<Uid, User>, users': map<Uid, User>, email: string)
    requires EmailsUnique(users) && UsersChange(users, users', email)
    ensures EmailsUnique(users')
    ensures forall u :: u in users ==>
      u in users' && users'[u].email == users[u].email && (users[u].verified ==> users'[u].verified)
  {
    assert !EmailTaken(users, email) ==> forall u :: u in users ==> !HasEmail(users, u, email);
  }

  lemma ProceedGrows(s0: State, s: State, s': State, i: nat, newId: Uid, emailOf: Key -> string)
    requires Inv(s0, s, emailOf) && i in s.calls && Proceeds(s, s', i, s.calls[i].key, emailOf(s.calls[i].key), newId)
    ensures Grows(s, s') && EmailsUnique(s'.users)
    ensures s'.calls.Keys == s.calls.Keys && forall j :: j in s.calls && j != i ==> s'.calls[j] == s.calls[j]
    ensures i in s'.calls && s'.calls[i].key == s.calls[i].key
  {
    assert EmailsUnique(s.users);
    hide Inv, Proceeds, EmailsUnique, UsersChange;
    ProceedChanges(s, s', i, s.calls[i].key, emailOf(s.calls[i].key), newId);
    UsersGrow(s.users, s'.users, emailOf(s.calls[i].key));
  }

  lemma ProceedSound(s0: State, s: State, s': State, i: nat, newId: Uid, emailOf: Key -> string)
    requires Inv(s0, s, emailOf) && i in s.calls && Proceeds(s, s', i, s.calls[i].key, emailOf(s.calls[i].key), newId)
    ensures i in s'.calls && CallSound(s0, s', s'.calls[i], emailOf) && LinksOwned(s0, s', emailOf)
  {
    assert CallSound(s0, s, s.calls[i], emailOf);
    if s.calls[i].stage.LinkExisting? || s.calls[i].stage.Link? {
      LinkSound(s0, s, s', i, newId, emailOf);
    } else if s.calls[i].stage.Create? || s.calls[i].stage.Verify? {
      UserSound(s0, s, s', i, newId, emailOf);
    } else {
      LookUpSound(s0, s, s', i, newId, emailOf);
    }
  }

  /** The operations that only read. */
  lemma LookUpSound(s0: State, s: State, s': State, i: nat, newId: Uid, emailOf: Key -> string)
    requires LinksOwned(s0, s, emailOf) && i in s.calls && CallSound(s0, s, s.calls[i], emailOf)
    requires Proceeds(s, s', i, s.calls[i].key, emailOf(s.calls[i].key), newId)
    requires !s.calls[i].stage.LinkExisting? && !s.calls[i].stage.Link? && !s.calls[i].stage.Create? && !s.calls[i].stage.Verify?
    ensures i in s'.calls && CallSound(s0, s', s'.calls[i], emailOf) && LinksOwned(s0, s', emailOf)
  {
    var key := s.calls[i].key;
    assert key in s.identities ==> Owns(s0, s, key, s.identities[key], emailOf);
    assert s'.users == s.users && s'.identities == s.identities;
    assert LinksOwned(s0, s', emailOf);
    hide LinksOwned;
  }

  /** The operations that write a user. */
  lemma UserSound(s0: State, s: State, s': State, i: nat, newId: Uid, emailOf: Key -> string)
    requires LinksOwned(s0, s, emailOf) && i in s.calls && CallSound(s0, s, s.calls[i], emailOf)
    requires Proceeds(s, s', i, s.calls[i].key, emailOf(s.calls[i].key), newId)
    requires s.calls[i].stage.Create? || s.calls[i].stage.Verify?
    ensures i in s'.calls && CallSound(s0, s', s'.calls[i], emailOf) && LinksOwned(s0, s', emailOf)
  {}

  /** The operations that write an identity. */
  lemma LinkSound(s0: State, s: State, s': State, i: nat, newId: Uid, emailOf: Key -> string)
    requires Inv(s0, s, emailOf) && i in s.calls && CallSound(s0, s, s.calls[i], emailOf)
    requires Proceeds(s, s', i, s.calls[i].key, emailOf(s.calls[i].key), newId)
    requires s.calls[i].stage.LinkExisting? || s.calls[i].stage.Link?
    ensures i in s'.calls && CallSound(s0, s', s'.calls[i], emailOf) && LinksOwned(s0, s', emailOf)
  {
    OwnerUnique(s0, s, s.calls[i].key, s.calls[i].stage.uid, emailOf);
  }

  /** If a key is already linked, it is linked to the user that owns it. */
  lemma OwnerUnique(s0: State, s: State, key: Key, uid: Uid, emailOf: Key -> string)
    requires Inv(s0, s, emailOf) && Owns(s0, s, key, uid, emailOf)
    ensures key in s.identities ==> s.identities[key] == uid
  {}

  lemma StepKeepsInv(s0: State, s: State, s': State, step: Step, emailOf: Key -> string)
    requires Inv(s0, s, emailOf) && NextStep(s, s', step, emailOf)
    ensures Inv(s0, s', emailOf)
  {
    StepGrows(s0, s, s', step, emailOf);
    if step.Proceed? {
      ProceedSound(s0, s, s', step.i, step.newId, emailOf);
    }
    forall i | i in s'.calls ensures CallSound(s0, s', s'.calls[i], emailOf) {
      if !(step.Proceed? && i == step.i) && s'.calls[i].stage != LookUpIdentity {
        SoundWhenGrown(s0, s, s', s.calls[i], emailOf);
      }
    }
  }

  lemma {:induction false} RunKeepsInv(run: seq<State>, emailOf: Key -> string, k: nat)
    requires IsRun(run, emailOf) && k < |run|
    ensures Inv(run[0], run[k], emailOf)
  {
    if k > 0 {
      RunKeepsInv(run, emailOf, k - 1);
      assert Next(run[k - 1], run[k - 1 + 1], emailOf);
      var step :| NextStep(run[k - 1], run[k], step, emailOf);
      StepKeepsInv(run[0], run[k - 1], run[k], step, emailOf);
    }
  }

  /**
   * At any point of any run: no call has failed, all calls for one key that returned a user
   * returned the same one, the key's identity row points to that user, and at most one user has
   * the email.
   */
  lemma LoginsAgree(run: seq<State>, emailOf: Key -> string, k: nat, i: nat, j: nat)
    requires IsRun(run, emailOf) && k < |run| && i in run[k].calls && j in run[k].calls
    requires run[k].calls[i].key == run[k].calls[j].key
    ensures run[k].calls[i].stage != Failed
    ensures run[k].calls[i].stage.Returned? ==>
      var key, uid := run[k].calls[i].key, run[k].calls[i].stage.uid;
      && key in run[k].identities && run[k].identities[key] == uid
      && Owns(run[0], run[k], key, uid, emailOf)
      && (run[k].calls[j].stage.Returned? ==> run[k].calls[j].stage.uid == uid)
    ensures forall u, v :: u in run[k].users && v in run[k].users && run[k].users[u].email == run[k].users[v].email ==> u == v
  {
    RunKeepsInv(run, emailOf, k);
    assert CallSound(run[0], run[k], run[k].calls[i], emailOf);
    assert CallSound(run[0], run[k], run[k].calls[j], emailOf);
  }

  // ----- completion -------------------------------------------------------------------------

  /** A new user has the email the provider reports, no password, and is neither verified nor banned yet; an old one stays. */
  lemma CreateOutcome(s: State, s': State, i: nat, newId: Uid, emailOf: Key -> string)
    requires NextStep(s, s', Proceed(i, newId), emailOf) && s.calls[i].stage.Create?
    ensures var email := emailOf(s.calls[i].key);
      && s'.identities == s.identities
      && (EmailTaken(s.users, email) ==> s'.users == s.users && s'.calls[i].stage == LookUpAgain)
      && (!EmailTaken(s.users, email) ==>
            && newId !in s.users && s'.users == s.users[newId := User(email, None, false, false)]
            && s'.calls[i].stage == Verify(newId))
  {}

  /** How many operations a call may still take. */
  function Left(stage: Stage): nat {
    match stage
    case LookUpIdentity => 7
    case LookUpEmail => 6
    case Create => 5
    case LookUpAgain => 4
    case Verify(_) => 3
    case UpdateIdentity(_) => 2
    case Link(_) => 2
    case FetchReturning(_) => 1
    case LinkExisting(_) => 1
    case Fetch(_) => 1
    case Returned(_) => 0
    case Failed => 0
  }

  lemma {:induction false} UnusedId(users: set<Uid>) returns (bound: Uid)
    ensures forall u :: u in users ==> u < bound
    decreases |users|
  {
    if users == {} {
      bound := 0;
    } else {
      var u :| u in users;
      bound := UnusedId(users - {u});
      assert forall v :: v in users ==> v == u || v in users - {u};
      if bound <= u {
        bound := u + 1;
      }
    }
  }

  /** What moves a call on without a step backwards. */
  ghost predicate MovesOn(s: State, s': State, i: nat, newId: Uid, emailOf: Key -> string) {
    && i in s.calls && Proceeds(s, s', i, s.calls[i].key, emailOf(s.calls[i].key), newId)
    && i in s'.calls && s'.calls[i].key == s.calls[i].key && Left(s'.calls[i].stage) < Left(s.calls[i].stage)
  }

  /** The lookups of an email find what there is. */
  lemma LookUpMoves(s: State, i: nat, emailOf: Key -> string) returns (s': State)
    requires i in s.calls && (s.calls[i].stage.LookUpEmail? || s.calls[i].stage.LookUpAgain?)
    requires s.calls[i].stage.LookUpAgain? ==> EmailTaken(s.users, emailOf(s.calls[i].key))
    ensures MovesOn(s, s', i, 0, emailOf)
  {
    if uid :| HasEmail(s.users, uid, emailOf(s.calls[i].key)) {
      s' := Moved(s, i, if s.calls[i].stage.LookUpEmail? then LinkExisting(uid) else Verify(uid));
    } else {
      s' := Moved(s, i, Create);
    }
  }

  lemma CreateMoves(s: State, i: nat, emailOf: Key -> string) returns (s': State, newId: Uid)
    requires i in s.calls && s.calls[i].stage.Create?
    ensures MovesOn(s, s', i, newId, emailOf)
  {
    newId := UnusedId(s.users.Keys);
    hide HasEmail;
    if EmailTaken(s.users, emailOf(s.calls[i].key)) {
      s' := Moved(s, i, LookUpAgain);
    } else {
      s' := Moved(s.(users := s.users[newId := NewUser(emailOf(s.calls[i].key), None)]), i, Verify(newId));
    }
  }

  lemma OtherMoves(s: State, i: nat, emailOf: Key -> string) returns (s': State)
    requires i in s.calls && !s.calls[i].stage.LookUpEmail? && !s.calls[i].stage.LookUpAgain? && !s.calls[i].stage.Create?
    requires !s.calls[i].stage.Returned? && !s.calls[i].stage.Failed?
    ensures MovesOn(s, s', i, 0, emailOf)
  {
    hide EmailTaken, HasEmail;
    var key := s.calls[i].key;
    match s.calls[i].stage {
      case LookUpIdentity =>
        s' := Moved(s, i, if key in s.identities then UpdateIdentity(s.identities[key]) else LookUpEmail);
      case UpdateIdentity(uid) => s' := Moved(s, i, FetchReturning(uid));
      case FetchReturning(uid) => s' := Moved(s, i, if uid in s.users then Returned(uid) else Failed);
      case LinkExisting(uid) => s' := Moved(s.(identities := Linked(s.identities, key, uid)), i, Returned(uid));
      case Verify(uid) =>
        s' := Moved(if uid in s.users then s.(users := s.users[uid := s.users[uid].(verified := true)]) else s, i, Link(uid));
      case Link(uid) => s' := Moved(s.(identities := Linked(s.identities, key, uid)), i, Fetch(uid));
      case Fetch(uid) => s' := Moved(s, i, if uid in s.users then Returned(uid) else Failed);
    }
  }

  /** A call that has not returned can take its next operation. */
  lemma CanProceed(s0: State, s: State, i: nat, emailOf: Key -> string) returns (s': State)
    requires Inv(s0, s, emailOf) && i in s.calls && !s.calls[i].stage.Returned?
    ensures Next(s, s', emailOf) && i in s'.calls && s'.calls[i].key == s.calls[i].key
    ensures Left(s'.calls[i].stage) < Left(s.calls[i].stage)
  {
    assert CallSound(s0, s, s.calls[i], emailOf);
    var newId: Uid := 0;
    hide Inv, Owns, EmailTaken, Proceeds;
    if s.calls[i].stage.LookUpEmail? || s.calls[i].stage.LookUpAgain? {
      s' := LookUpMoves(s, i, emailOf);
    } else if s.calls[i].stage.Create? {
      s', newId := CreateMoves(s, i, emailOf);
    } else {
      s' := OtherMoves(s, i, emailOf);
    }
    assert NextStep(s, s', Proceed(i, newId), emailOf);
  }

  /**
   * From every state of every run, every call can go on to return a user, whatever the others have
   * done so far.
   */
  lemma {:induction false} LoginCompletes(run: seq<State>, emailOf: Key -> string, i: nat) returns (whole: seq<State>)
    requires IsRun(run, emailOf) && i in run[|run| - 1].calls
    ensures IsRun(whole, emailOf) && run <= whole
    ensures i in whole[|whole| - 1].calls && whole[|whole| - 1].calls[i].stage.Returned?
    ensures whole[|whole| - 1].calls[i].key == run[|run| - 1].calls[i].key
    decreases Left(run[|run| - 1].calls[i].stage)
  {
    var s := run[|run| - 1];
    if s.calls[i].stage.Returned? {
      whole := run;
    } else {
      RunKeepsInv(run, emailOf, |run| - 1);
      var s' := CanProceed(run[0], s, i, emailOf);
      var longer := run + [s'];
      hide Inv, Next, Init;
      forall k | 0 <= k < |longer| - 1
        ensures Next(longer[k], longer[k + 1], emailOf)
      {
        if k < |run| - 1 {
          assert longer[k] == run[k] && longer[k + 1] == run[k + 1];
          assert Next(run[k], run[k + 1], emailOf);
        }
      }
      whole := LoginCompletes(longer, emailOf, i);
    }
  }
}
