/**
 * Applying migrations (`migrate_apply` in `api/routes.rs`) as a protocol: any number of calls,
 * interleaved one SQL statement at a time, over the tracking table with its UNIQUE file name.
 */
module MigrateApply {
  datatype Request = Request(filename: string, sql: string)

  datatype Response = Created | Conflict | Invalid | Internal

  /** How far a call has come. `Executed` and `Recorded` are inside its open transaction. */
  datatype Stage =
    | Started
    | Checked
    | Executed
    | Recorded
    | Committed
    | Answered(response: Response)

  datatype Call = Call(request: Request, stage: Stage)

  /** A committed row of `garance_platform.migrations`, with the call that wrote it. */
  datatype Row = Row(checksum: string, writer: nat)

  /** `applied` lists, in commit order, the calls whose SQL has taken effect. */
  datatype State = State(calls: map<nat, Call>, tracking: map<string, Row>, applied: seq<nat>)

  datatype Step =
    | Arrive(i: nat, request: Request)
    | Check(i: nat)             // SELECT from the tracking table
    | Execute(i: nat)           // BEGIN and the migration's SQL
    | Reject(i: nat)            // the migration's SQL fails, the transaction is rolled back
    | Record(i: nat)            // INSERT into the tracking table
    | Commit(i: nat)
    | CommitUnheard(i: nat)     // COMMIT takes effect but its answer is lost
    | Reload(i: nat)            // schema reload, triggers and grants, then the answer
    | Fail(i: nat)              // the database connection fails: an open transaction is rolled back

  function FileOf(s: State, i: nat): string
    requires i in s.calls
  {
    s.calls[i].request.filename
  }

  function Moved(s: State, i: nat, stage: Stage): State
    requires i in s.calls
  {
    s.(calls := s.calls[i := s.calls[i].(stage := stage)])
  }

  /** Another open transaction has inserted a row for the same file; an INSERT waits for it. */
  ghost predicate RowPending(s: State, i: nat)
    requires i in s.calls
  {
    exists j :: j in s.calls && j != i && s.calls[j].stage == Recorded && FileOf(s, j) == FileOf(s, i)
  }

  function WithCommit(s: State, i: nat, hash: string -> string): State
    requires i in s.calls
  {
    s.(tracking := s.tracking[FileOf(s, i) := Row(hash(s.calls[i].request.sql), i)], applied := s.applied + [i])
  }

  ghost predicate At(s: State, i: nat, stage: Stage) {
    i in s.calls && s.calls[i].stage == stage
  }

  ghost predicate NextStep(s: State, s': State, step: Step, hash: string -> string) {
    match step
    case Arrive(i, request) => i !in s.calls && s' == s.(calls := s.calls[i := Call(request, Started)])
    case Check(i) =>
      && At(s, i, Started)
      && s' == Moved(s, i, if FileOf(s, i) in s.tracking then Answered(Conflict) else Checked)
    case Execute(i) => At(s, i, Checked) && s' == Moved(s, i, Executed)
    case Reject(i) => At(s, i, Checked) && s' == Moved(s, i, Answered(Invalid))
    case Record(i) =>
      && At(s, i, Executed) && !RowPending(s, i)
      && s' == Moved(s, i, if FileOf(s, i) in s.tracking then Answered(Internal) else Recorded)
    case Commit(i) => At(s, i, Recorded) && s' == Moved(WithCommit(s, i, hash), i, Committed)
    case CommitUnheard(i) => At(s, i, Recorded) && s' == Moved(WithCommit(s, i, hash), i, Answered(Internal))
    case Reload(i) => At(s, i, Committed) && s' == Moved(s, i, Answered(Created))
    case Fail(i) => i in s.calls && !s.calls[i].stage.Answered? && s' == Moved(s, i, Answered(Internal))
  }

  ghost predicate Next(s: State, s': State, hash: string -> string) {
    exists step :: NextStep(s, s', step, hash)
  }

  /** No call has arrived and nothing is tracked. */
  ghost predicate Init(s: State) {
    s == State(map[], map[], [])
  }

  ghost predicate IsRun(run: seq<State>, hash: string -> string) {
    && |run| > 0 && Init(run[0])
    && forall k :: 0 <= k < |run| - 1 ==> Next(run[k], run[k + 1], hash)
  }

  // ----- the invariant ----------------------------------------------------------------------

  /** The SQL of each file has taken effect at most once. */
  ghost predicate AppliedOnce(s: State) {
    && (forall k :: 0 <= k < |s.applied| ==> s.applied[k] in s.calls)
    && forall k, l :: 0 <= k < l < |s.applied| ==> FileOf(s, s.applied[k]) != FileOf(s, s.applied[l])
  }

  /** The committed effects and the tracking rows match one to one. */
  ghost predicate TrackingMatches(s: State, hash: string -> string) {
    && (forall k :: 0 <= k < |s.applied| ==>
          && s.applied[k] in s.calls && FileOf(s, s.applied[k]) in s.tracking
          && s.tracking[FileOf(s, s.applied[k])].writer == s.applied[k])
    && (forall f :: f in s.tracking ==>
          var i := s.tracking[f].writer;
          i in s.applied && i in s.calls && FileOf(s, i) == f && s.tracking[f].checksum == hash(s.calls[i].request.sql))
  }

  /** Uncommitted rows have distinct names that are not tracked yet. */
  ghost predicate PendingDistinct(s: State) {
    && (forall i :: At(s, i, Recorded) ==> FileOf(s, i) !in s.tracking)
    && (forall i, j :: At(s, i, Recorded) && At(s, j, Recorded) && FileOf(s, i) == FileOf(s, j) ==> i == j)
  }

  /** What an answer says about the call's own migration. */
  ghost predicate AnswersTruthful(s: State) {
    forall i :: i in s.calls ==>
      match s.calls[i].stage
      case Committed => i in s.applied
      case Answered(Created) => i in s.applied
      case Answered(Conflict) => i !in s.applied && FileOf(s, i) in s.tracking
      case Answered(Internal) => true
      case _ => i !in s.applied
  }

  ghost predicate Inv(s: State, hash: string -> string) {
    AppliedOnce(s) && TrackingMatches(s, hash) && PendingDistinct(s) && AnswersTruthful(s)
  }

  lemma StepKeepsInv(s: State, s': State, step: Step, hash: string -> string)
    requires Inv(s, hash) && NextStep(s, s', step, hash)
    ensures Inv(s', hash)
  {
    match step
    case Commit(i) => CommitKeepsInv(s, s', i, Committed, hash);
    case CommitUnheard(i) => CommitKeepsInv(s, s', i, Answered(Internal), hash);
    case _ =>
      QuietStep(s, s', step, hash);
      QuietKeeps(s, s', hash);
      AnswersStayTruthful(s, s', step, hash);
  }

  /** What every step but a commit leaves alone; a row becomes pending only when its name is free. */
  ghost predicate Quiet(s: State, s': State) {
    && s'.applied == s.applied && s'.tracking == s.tracking
    && (forall j :: j in s.calls ==> j in s'.calls && s'.calls[j].request == s.calls[j].request)
    && (forall j :: At(s', j, Recorded) && !At(s, j, Recorded) ==>
          j in s.calls && !RowPending(s, j) && FileOf(s, j) !in s.tracking)
    && (forall j, l :: At(s', j, Recorded) && At(s', l, Recorded) && j != l ==>
          At(s, j, Recorded) || At(s, l, Recorded))
  }

  lemma QuietStep(s: State, s': State, step: Step, hash: string -> string)
    requires NextStep(s, s', step, hash) && !step.Commit? && !step.CommitUnheard?
    ensures Quiet(s, s')
  {}

  lemma QuietKeeps(s: State, s': State, hash: string -> string)
    requires Inv(s, hash) && Quiet(s, s')
    ensures AppliedOnce(s') && TrackingMatches(s', hash) && PendingDistinct(s')
  {
    hide AnswersTruthful;
    forall i | At(s', i, Recorded) ensures i in s.calls && FileOf(s, i) !in s.tracking {
      if At(s, i, Recorded) {
        assert FileOf(s, i) !in s.tracking;
      }
    }
  }

  lemma AnswersStayTruthful(s: State, s': State, step: Step, hash: string -> string)
    requires Inv(s, hash) && NextStep(s, s', step, hash) && !step.Commit? && !step.CommitUnheard?
    ensures AnswersTruthful(s')
  {
    if step.Arrive? {
      assert forall k :: 0 <= k < |s.applied| ==> s.applied[k] in s.calls;
    }
  }

  lemma CommitKeepsInv(s: State, s': State, i: nat, stage: Stage, hash: string -> string)
    requires Inv(s, hash) && At(s, i, Recorded)
    requires stage == Committed || stage == Answered(Internal)
    requires s' == Moved(WithCommit(s, i, hash), i, stage)
    ensures Inv(s', hash)
  {
    CommitOnce(s, s', i, stage, hash);
    CommitMatches(s, s', i, stage, hash);
    CommitPending(s, s', i, stage, hash);
    CommitTruthful(s, s', i, stage, hash);
    hide AppliedOnce, TrackingMatches, PendingDistinct, AnswersTruthful;
  }

  lemma CommitOnce(s: State, s': State, i: nat, stage: Stage, hash: string -> string)
    requires Inv(s, hash) && At(s, i, Recorded) && s' == Moved(WithCommit(s, i, hash), i, stage)
    ensures AppliedOnce(s')
  {
    hide AnswersTruthful;
    assert s'.applied == s.applied + [i] && s'.applied[|s.applied|] == i;
    forall k | 0 <= k < |s.applied| ensures s.applied[k] in s.calls && FileOf(s, s.applied[k]) != FileOf(s, i) {
      assert FileOf(s, s.applied[k]) in s.tracking;
    }
  }

  lemma CommitPending(s: State, s': State, i: nat, stage: Stage, hash: string -> string)
    requires Inv(s, hash) && At(s, i, Recorded) && s' == Moved(WithCommit(s, i, hash), i, stage)
    requires stage != Recorded
    ensures PendingDistinct(s')
  {
    hide AppliedOnce, TrackingMatches, AnswersTruthful;
    forall j | At(s', j, Recorded) ensures j != i && At(s, j, Recorded) && FileOf(s', j) == FileOf(s, j) {}
  }

  lemma CommitTruthful(s: State, s': State, i: nat, stage: Stage, hash: string -> string)
    requires Inv(s, hash) && At(s, i, Recorded) && s' == Moved(WithCommit(s, i, hash), i, stage)
    requires stage == Committed || stage == Answered(Internal)
    ensures AnswersTruthful(s')
  {
    hide AppliedOnce, TrackingMatches, PendingDistinct;
    assert s'.applied == s.applied + [i] && s'.applied[|s.applied|] == i;
    assert forall j :: j in s.applied <==> j in s'.applied && (j != i || j in s.applied);
  }

  lemma CommitMatches(s: State, s': State, i: nat, stage: Stage, hash: string -> string)
    requires Inv(s, hash) && At(s, i, Recorded) && s' == Moved(WithCommit(s, i, hash), i, stage)
    ensures TrackingMatches(s', hash)
  {
    assert s'.applied == s.applied + [i] && s'.applied[|s.applied|] == i;
    forall k | 0 <= k < |s'.applied|
      ensures s'.applied[k] in s'.calls && FileOf(s', s'.applied[k]) in s'.tracking
      ensures s'.tracking[FileOf(s', s'.applied[k])].writer == s'.applied[k]
    {
      if k < |s.applied| {
        assert s'.applied[k] == s.applied[k];
        assert FileOf(s, s.applied[k]) in s.tracking;
      }
    }
    forall f | f in s'.tracking
      ensures var w := s'.tracking[f].writer;
        w in s'.applied && w in s'.calls && FileOf(s', w) == f && s'.tracking[f].checksum == hash(s'.calls[w].request.sql)
    {
      if f != FileOf(s, i) {
        assert f in s.tracking;
      }
    }
  }

  lemma {:induction false} RunKeepsInv(run: seq<State>, hash: string -> string, k: nat)
    requires IsRun(run, hash) && k < |run|
    ensures Inv(run[k], hash)
  {
    if k > 0 {
      RunKeepsInv(run, hash, k - 1);
      assert Next(run[k - 1], run[k - 1 + 1], hash);
      var step :| NextStep(run[k - 1], run[k], step, hash);
      StepKeepsInv(run[k - 1], run[k], step, hash);
    }
  }

  /** The call's file is tracked, and not by the call itself. */
  ghost predicate Lost(s: State, i: nat) {
    i in s.calls && FileOf(s, i) in s.tracking && i !in s.applied
  }

  lemma LoserStep(s: State, s': State, hash: string -> string, i: nat)
    requires Inv(s, hash) && Next(s, s', hash) && Lost(s, i)
    ensures Lost(s', i)
  {
    hide AppliedOnce, TrackingMatches, AnswersTruthful;
    var step :| NextStep(s, s', step, hash);
  }

  lemma {:induction false} LostForever(run: seq<State>, hash: string -> string, k: nat, l: nat, i: nat)
    requires IsRun(run, hash) && k <= l < |run| && Lost(run[k], i)
    ensures Lost(run[l], i)
    decreases l
  {
    hide Lost, Inv, NextStep, Init;
    if k < l {
      LostForever(run, hash, k, l - 1, i);
      RunKeepsInv(run, hash, l - 1);
      assert Next(run[l - 1], run[l - 1 + 1], hash);
      LoserStep(run[l - 1], run[l], hash, i);
    }
  }

  /** A call whose file is tracked by another call never takes effect, however the run goes on. */
  lemma LoserNeverApplies(run: seq<State>, hash: string -> string, k: nat, l: nat, i: nat)
    requires IsRun(run, hash) && k <= l < |run| && Lost(run[k], i)
    ensures Lost(run[l], i) && run[l].calls[i].stage != Answered(Created)
  {
    LostForever(run, hash, k, l, i);
    RunKeepsInv(run, hash, l);
    hide IsRun, AppliedOnce, TrackingMatches, PendingDistinct;
  }

  /**
   * At most once: at any point of any run, two calls whose SQL took effect are for different
   * files, the tracking table has exactly the applied files, and a call answered with success
   * took effect while one answered with a conflict did not.
   */
  lemma MigrationsApplyOnce(run: seq<State>, hash: string -> string, k: nat, i: nat, j: nat)
    requires IsRun(run, hash) && k < |run|
    requires i in run[k].calls && j in run[k].calls && FileOf(run[k], i) == FileOf(run[k], j)
    ensures i in run[k].applied && j in run[k].applied ==> i == j
    ensures run[k].calls[i].stage == Answered(Created) && run[k].calls[j].stage == Answered(Created) ==> i == j
    ensures FileOf(run[k], i) in run[k].tracking <==>
      exists w :: w in run[k].applied && w in run[k].calls && FileOf(run[k], w) == FileOf(run[k], i)
    ensures forall a, b :: 0 <= a < b < |run[k].applied| ==> run[k].applied[a] != run[k].applied[b]
  {
    RunKeepsInv(run, hash, k);
    if i in run[k].applied && j in run[k].applied {
      var a :| 0 <= a < |run[k].applied| && run[k].applied[a] == i;
      var b :| 0 <= b < |run[k].applied| && run[k].applied[b] == j;
      assert a == b;
    }
  }

  // ----- the outcome of each statement ------------------------------------------------------

  /** The SQL of some call for the file has taken effect. */
  ghost predicate FileApplied(s: State, file: string) {
    exists j :: j in s.applied && j in s.calls && FileOf(s, j) == file
  }

  lemma TrackedIffApplied(s: State, hash: string -> string, file: string)
    requires TrackingMatches(s, hash)
    ensures file in s.tracking <==> FileApplied(s, file)
  {
    if j :| j in s.applied && j in s.calls && FileOf(s, j) == file {
      var k :| 0 <= k < |s.applied| && s.applied[k] == j;
    }
  }

  /** The check answers with a conflict if and only if the file has been applied; otherwise the call goes on. */
  lemma CheckConflictsIff(run: seq<State>, hash: string -> string, k: nat, i: nat)
    requires IsRun(run, hash) && k + 1 < |run| && NextStep(run[k], run[k + 1], Check(i), hash)
    ensures At(run[k + 1], i, if FileApplied(run[k], FileOf(run[k], i)) then Answered(Conflict) else Checked)
    ensures run[k + 1].tracking == run[k].tracking && run[k + 1].applied == run[k].applied
  {
    RunKeepsInv(run, hash, k);
    TrackedIffApplied(run[k], hash, FileOf(run[k], i));
  }

  /**
   * The insertion into the tracking table is refused if and only if another call's row for the file has
   * been committed; otherwise the call holds its row.
   */
  lemma RecordRefusedIff(run: seq<State>, hash: string -> string, k: nat, i: nat)
    requires IsRun(run, hash) && k + 1 < |run| && NextStep(run[k], run[k + 1], Record(i), hash)
    ensures i !in run[k].applied
    ensures At(run[k + 1], i, if FileApplied(run[k], FileOf(run[k], i)) then Answered(Internal) else Recorded)
    ensures run[k + 1].tracking == run[k].tracking && run[k + 1].applied == run[k].applied
  {
    RunKeepsInv(run, hash, k);
    TrackedIffApplied(run[k], hash, FileOf(run[k], i));
    hide AppliedOnce, TrackingMatches, PendingDistinct;
  }

  /** Until its commit, a call has no effect; the commit adds the call and its row, whether or not its answer arrives. */
  lemma CommitTakesEffect(s: State, s': State, step: Step, hash: string -> string)
    requires NextStep(s, s', step, hash)
    ensures step.Commit? || step.CommitUnheard? ==>
      && step.i in s.calls && s'.applied == s.applied + [step.i]
      && s'.tracking == s.tracking[FileOf(s, step.i) := Row(hash(s.calls[step.i].request.sql), step.i)]
      && At(s', step.i, if step.Commit? then Committed else Answered(Internal))
    ensures !step.Commit? && !step.CommitUnheard? ==> s'.applied == s.applied && s'.tracking == s.tracking
  {}

  /** The states of a call on its way to success, from its check to its answer. */
  function Completion(s: State, i: nat, hash: string -> string): (states: seq<State>)
    requires i in s.calls
    ensures |states| == 5
  {
    var recorded := Moved(Moved(Moved(s, i, Checked), i, Executed), i, Recorded);
    var committed := Moved(WithCommit(recorded, i, hash), i, Committed);
    [Moved(s, i, Checked), Moved(Moved(s, i, Checked), i, Executed), recorded, committed,
     Moved(committed, i, Answered(Created))]
  }

  /**
   * From every state of every run: a call whose file is not tracked, and for whose file no other open
   * transaction holds a row, can go on to success, and then exactly its own SQL has taken effect in
   * addition, and the tracking row has that SQL's checksum.
   */
  lemma MigrationCompletes(run: seq<State>, hash: string -> string, i: nat) returns (more: seq<State>)
    requires IsRun(run, hash)
    requires var s := run[|run| - 1];
      At(s, i, Started) && FileOf(s, i) !in s.tracking && !RowPending(s, i)
    ensures IsRun(run + more, hash) && more != []
    ensures var s, last := run[|run| - 1], more[|more| - 1];
      && At(last, i, Answered(Created)) && last.applied == s.applied + [i]
      && last.tracking == s.tracking[FileOf(s, i) := Row(hash(s.calls[i].request.sql), i)]
      && last.calls.Keys == s.calls.Keys && forall j :: j in s.calls && j != i ==> last.calls[j] == s.calls[j]
  {
    var s := run[|run| - 1];
    more := Completion(s, i, hash);
    CompletionSteps(s, i, hash);
    CompletionEnds(s, i, hash);
    var whole := run + more;
    hide Completion, Next;
    forall k | 0 <= k < |whole| - 1
      ensures Next(whole[k], whole[k + 1], hash)
    {
      if k < |run| - 1 {
        assert whole[k] == run[k] && whole[k + 1] == run[k + 1];
      } else if k == |run| - 1 {
        assert whole[k] == s && whole[k + 1] == more[0];
      } else {
        assert whole[k] == more[k - |run|] && whole[k + 1] == more[k - |run| + 1];
      }
    }
  }

  lemma CompletionSteps(s: State, i: nat, hash: string -> string)
    requires At(s, i, Started) && FileOf(s, i) !in s.tracking && !RowPending(s, i)
    ensures var more := Completion(s, i, hash);
      Next(s, more[0], hash) && forall k :: 0 <= k < 4 ==> Next(more[k], more[k + 1], hash)
  {
    var more := Completion(s, i, hash);
    assert NextStep(s, more[0], Check(i), hash);
    assert NextStep(more[0], more[1], Execute(i), hash);
    assert NextStep(more[1], more[2], Record(i), hash) by {
      StillFree(s, more[1], i);
    }
    assert NextStep(more[2], more[3], Commit(i), hash);
    assert NextStep(more[3], more[4], Reload(i), hash);
    hide NextStep, Completion;
  }

  lemma CompletionEnds(s: State, i: nat, hash: string -> string)
    requires At(s, i, Started)
    ensures var last := Completion(s, i, hash)[4];
      && At(last, i, Answered(Created)) && last.applied == s.applied + [i]
      && last.tracking == s.tracking[FileOf(s, i) := Row(hash(s.calls[i].request.sql), i)]
      && last.calls.Keys == s.calls.Keys && forall j :: j in s.calls && j != i ==> last.calls[j] == s.calls[j]
  {}

  lemma StillFree(s: State, s': State, i: nat)
    requires i in s.calls && !RowPending(s, i) && FileOf(s, i) !in s.tracking
    requires s' == Moved(Moved(s, i, Checked), i, Executed)
    ensures i in s'.calls && !RowPending(s', i) && FileOf(s', i) !in s'.tracking
  {
    forall j | j in s'.calls && j != i
      ensures s'.calls[j] == s.calls[j]
    {}
  }

  /** The race is real: two calls for one file can both pass the check of the tracking table. */
  lemma BothPassTheCheck(request: Request, hash: string -> string) returns (run: seq<State>)
    ensures IsRun(run, hash) && |run| == 5
    ensures At(run[4], 0, Checked) && At(run[4], 1, Checked) && FileOf(run[4], 0) == FileOf(run[4], 1) == request.filename
  {
    var s0 := State(map[], map[], []);
    var s1 := s0.(calls := s0.calls[0 := Call(request, Started)]);
    var s2 := s1.(calls := s1.calls[1 := Call(request, Started)]);
    var s3 := Moved(s2, 0, Checked);
    var s4 := Moved(s3, 1, Checked);
    run := [s0, s1, s2, s3, s4];
    assert NextStep(s0, s1, Arrive(0, request), hash);
    assert NextStep(s1, s2, Arrive(1, request), hash);
    assert NextStep(s2, s3, Check(0), hash);
    assert NextStep(s3, s4, Check(1), hash);
  }
}
