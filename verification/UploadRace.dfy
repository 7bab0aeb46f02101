/**
 * Uploads at the same time: `Upload` of `service/storage.go` statement by statement, after the checks
 * of the bucket. The object is put, the row with its UNIQUE name inserted, and the object removed
 * again if the insertion fails.
 */
module UploadRace {
  import FileStore

  /** How far a call has come: `Recorded`, `Cleaned` and `Unavailable` are answers. */
  datatype Stage = Called | Stored | Rejected | Recorded | Cleaned | Unavailable

  datatype Call = Call(file: string, content: FileStore.Bytes, stage: Stage)

  /** Rows by file name, each with the call that inserted it, and objects. */
  datatype State = State(rows: map<string, nat>, objects: map<string, FileStore.Bytes>, calls: map<nat, Call>)

  datatype Step =
    | Arrive(i: nat, file: string, content: FileStore.Bytes)
    | Put(i: nat)
    | PutFails(i: nat)
    | Insert(i: nat)
    | Clean(i: nat)

  function Moved(s: State, i: nat, stage: Stage): State
    requires i in s.calls
  {
    s.(calls := s.calls[i := s.calls[i].(stage := stage)])
  }

  predicate At(s: State, i: nat, stage: Stage) {
    i in s.calls && s.calls[i].stage == stage
  }

  predicate NextStep(s: State, s': State, step: Step) {
    match step
    case Arrive(i, file, content) => i !in s.calls && s' == s.(calls := s.calls[i := Call(file, content, Called)])
    case Put(i) =>
      && At(s, i, Called)
      && s' == Moved(s.(objects := s.objects[s.calls[i].file := s.calls[i].content]), i, Stored)
    case PutFails(i) => At(s, i, Called) && s' == Moved(s, i, Unavailable)
    case Insert(i) =>
      && At(s, i, Stored)
      && var file := s.calls[i].file;
         s' == if file in s.rows then Moved(s, i, Rejected) else Moved(s.(rows := s.rows[file := i]), i, Recorded)
    case Clean(i) => At(s, i, Rejected) && s' == Moved(s.(objects := s.objects - {s.calls[i].file}), i, Cleaned)
  }

  // ----- what the calls have done -----------------------------------------------------------

  predicate Uploads(s: State, i: nat, file: string) {
    i in s.calls && s.calls[i].file == file
  }

  /** The call has put its object. */
  predicate HasPut(s: State, i: nat, file: string) {
    Uploads(s, i, file) && s.calls[i].stage != Called && s.calls[i].stage != Unavailable
  }

  predicate Answered(s: State, i: nat) {
    i in s.calls && (s.calls[i].stage == Recorded || s.calls[i].stage == Cleaned || s.calls[i].stage == Unavailable)
  }

  /** The call alone has put an object under the file's name. */
  ghost predicate Alone(s: State, i: nat, file: string) {
    HasPut(s, i, file) && forall j :: HasPut(s, j, file) ==> j == i
  }

  /** The object of a row is there, with the bytes of the call that inserted the row. */
  predicate Intact(s: State, file: string) {
    && file in s.rows && s.rows[file] in s.calls
    && file in s.objects && s.objects[file] == s.calls[s.rows[file]].content
  }

  /** The files that are there at the start count as uploads that were answered; nothing else is under way. */
  ghost predicate Init(s: State) {
    && (forall i :: i in s.calls ==> s.calls[i].stage == Recorded)
    && (forall file, i :: Uploads(s, i, file) <==> file in s.rows && s.rows[file] == i)
    && (forall file :: file in s.rows ==> Intact(s, file))
  }

  // ----- one file's invariant ---------------------------------------------------------------

  ghost predicate RowsRecorded(s: State, file: string) {
    && (forall i :: Uploads(s, i, file) ==> (s.calls[i].stage == Recorded <==> file in s.rows && s.rows[file] == i))
    && (file in s.rows ==> Uploads(s, s.rows[file], file))
  }

  ghost predicate RefusedByRow(s: State, file: string) {
    forall i :: Uploads(s, i, file) && (s.calls[i].stage == Rejected || s.calls[i].stage == Cleaned) ==> file in s.rows
  }

  ghost predicate AloneKept(s: State, file: string) {
    forall i :: Alone(s, i, file) ==> file in s.objects && s.objects[file] == s.calls[i].content
  }

  /** After a removal, an object can only come from a call that will remove it again. */
  ghost predicate RemovedForGood(s: State, file: string) {
    forall i :: Uploads(s, i, file) && s.calls[i].stage == Cleaned && file in s.objects ==>
      exists j :: Uploads(s, j, file) && (s.calls[j].stage == Stored || s.calls[j].stage == Rejected)
  }

  ghost predicate Inv(s: State, file: string) {
    RowsRecorded(s, file) && RefusedByRow(s, file) && AloneKept(s, file) && RemovedForGood(s, file)
  }

  lemma InitInv(s: State, file: string)
    requires Init(s)
    ensures Inv(s, file)
  {
    forall i | Alone(s, i, file)
      ensures file in s.objects && s.objects[file] == s.calls[i].content
    {
      assert Uploads(s, i, file) && Intact(s, file);
    }
  }

  /** Every statement of every call keeps what is true of a file. */
  lemma StepKeepsInv(s: State, s': State, step: Step, file: string)
    requires Inv(s, file) && NextStep(s, s', step)
    ensures Inv(s', file)
  {
    StepKeepsRows(s, s', step, file);
    StepKeepsAlone(s, s', step, file);
    StepKeepsRemoved(s, s', step, file);
  }

  lemma StepKeepsRows(s: State, s': State, step: Step, file: string)
    requires RowsRecorded(s, file) && RefusedByRow(s, file) && NextStep(s, s', step)
    ensures RowsRecorded(s', file) && RefusedByRow(s', file)
  {}

  lemma StepKeepsAlone(s: State, s': State, step: Step, file: string)
    requires Inv(s, file) && NextStep(s, s', step)
    ensures AloneKept(s', file)
  {
    forall i | Alone(s', i, file)
      ensures file in s'.objects && s'.objects[file] == s'.calls[i].content
    {
      if step != Put(i) {
        AloneBefore(s, s', step, i, file);
        assert s.calls[i].content == s'.calls[i].content;
      }
    }
  }

  /** A call that is alone after a step other than its own put was alone before, and the object is untouched. */
  lemma AloneBefore(s: State, s': State, step: Step, i: nat, file: string)
    requires RowsRecorded(s, file) && RefusedByRow(s, file) && NextStep(s, s', step) && step != Put(i) && Alone(s', i, file)
    ensures Alone(s, i, file) && s.calls[i].content == s'.calls[i].content
    ensures file in s.objects <==> file in s'.objects
    ensures file in s.objects ==> s.objects[file] == s'.objects[file]
  {
    assert forall j :: HasPut(s, j, file) ==> HasPut(s', j, file);
    assert HasPut(s', i, file) && HasPut(s, i, file);
    if (step.Put? || step.Clean?) && s.calls[step.i].file == file {
      assert HasPut(s', step.i, file);
      assert step == Clean(i);
      assert HasPut(s, s.rows[file], file);
    }
  }

  lemma StepKeepsRemoved(s: State, s': State, step: Step, file: string)
    requires Inv(s, file) && NextStep(s, s', step)
    ensures RemovedForGood(s', file)
  {
    forall i | Uploads(s', i, file) && s'.calls[i].stage == Cleaned && file in s'.objects
      ensures exists j :: Uploads(s', j, file) && (s'.calls[j].stage == Stored || s'.calls[j].stage == Rejected)
    {
      if step.Put? && s.calls[step.i].file == file {
        assert Uploads(s', step.i, file) && s'.calls[step.i].stage == Stored;
      } else {
        assert Uploads(s, i, file) && s.calls[i].stage == Cleaned && file in s.objects;
        var j :| Uploads(s, j, file) && (s.calls[j].stage == Stored || s.calls[j].stage == Rejected);
        assert Uploads(s', j, file);
      }
    }
  }

  ghost predicate IsRun(run: seq<State>, steps: seq<Step>) {
    && |run| == |steps| + 1 && Init(run[0])
    && forall k :: 0 <= k < |steps| ==> NextStep(run[k], run[k + 1], steps[k])
  }

  lemma {:induction false} RunKeepsInv(run: seq<State>, steps: seq<Step>, k: nat, file: string)
    requires IsRun(run, steps) && k < |run|
    ensures Inv(run[k], file)
  {
    hide Inv, NextStep, Init;
    if k == 0 {
      InitInv(run[0], file);
    } else {
      RunKeepsInv(run, steps, k - 1, file);
      assert NextStep(run[k - 1], run[k - 1 + 1], steps[k - 1]);
      StepKeepsInv(run[k - 1], run[k], steps[k - 1], file);
    }
  }

  /**
   * Under every interleaving of the statements, when every call for a file has been answered and the
   * file has its row: its object is there, with the bytes of the upload that succeeded, if and only
   * if no other call for the file has put an object. If another has, the object is gone.
   */
  lemma UploadSurvivesIff(run: seq<State>, steps: seq<Step>, k: nat, file: string)
    requires IsRun(run, steps) && k < |run| && file in run[k].rows
    requires forall i :: Uploads(run[k], i, file) ==> Answered(run[k], i)
    ensures Uploads(run[k], run[k].rows[file], file)
    ensures Intact(run[k], file) <==> Alone(run[k], run[k].rows[file], file)
    ensures file in run[k].objects <==> Intact(run[k], file)
  {
    RunKeepsInv(run, steps, k, file);
    var s := run[k];
    var winner := s.rows[file];
    if i :| HasPut(s, i, file) && i != winner {
      assert Uploads(s, i, file) && s.calls[i].stage == Cleaned;
    }
  }

  // ----- two uploads of a new file ----------------------------------------------------------

  /** Two calls for one file. */
  function Pair(rows: map<string, nat>, objects: map<string, FileStore.Bytes>, file: string,
                a: FileStore.Bytes, b: FileStore.Bytes, x: Stage, y: Stage): State {
    State(rows, objects, map[0 := Call(file, a, x), 1 := Call(file, b, y)])
  }

  /** Neither call overwrites a row, one of them succeeds, and the object it is the row of is gone. */
  lemma NewFileIsLost(file: string, a: FileStore.Bytes, b: FileStore.Bytes) returns (run: seq<State>, steps: seq<Step>)
    ensures IsRun(run, steps) && run[0] == State(map[], map[], map[]) && |run| == 8
    ensures steps[2..] == [Put(0), Put(1), Insert(0), Insert(1), Clean(1)]
    ensures run[7].rows == map[file := 0] && At(run[7], 0, Recorded) && At(run[7], 1, Cleaned)
    ensures file !in run[7].objects
  {
    steps := [Arrive(0, file, a), Arrive(1, file, b), Put(0), Put(1), Insert(0), Insert(1), Clean(1)];
    run := [State(map[], map[], map[]), State(map[], map[], map[0 := Call(file, a, Called)]),
            Pair(map[], map[], file, a, b, Called, Called), Pair(map[], map[file := a], file, a, b, Stored, Called),
            Pair(map[], map[file := b], file, a, b, Stored, Stored),
            Pair(map[file := 0], map[file := b], file, a, b, Recorded, Stored),
            Pair(map[file := 0], map[file := b], file, a, b, Recorded, Rejected),
            Pair(map[file := 0], map[], file, a, b, Recorded, Cleaned)];
    BothArrive(file, a, b);
    BothPut(file, a, b);
    OneRecorded(file, a, b);
    assert Init(run[0]);
    hide NextStep;
  }

  lemma BothArrive(file: string, a: FileStore.Bytes, b: FileStore.Bytes)
    ensures NextStep(State(map[], map[], map[]), State(map[], map[], map[0 := Call(file, a, Called)]), Arrive(0, file, a))
    ensures NextStep(State(map[], map[], map[0 := Call(file, a, Called)]), Pair(map[], map[], file, a, b, Called, Called),
                     Arrive(1, file, b))
  {}

  lemma BothPut(file: string, a: FileStore.Bytes, b: FileStore.Bytes)
    ensures NextStep(Pair(map[], map[], file, a, b, Called, Called),
                     Pair(map[], map[file := a], file, a, b, Stored, Called), Put(0))
    ensures NextStep(Pair(map[], map[file := a], file, a, b, Stored, Called),
                     Pair(map[], map[file := b], file, a, b, Stored, Stored), Put(1))
  {}

  lemma OneRecorded(file: string, a: FileStore.Bytes, b: FileStore.Bytes)
    ensures NextStep(Pair(map[], map[file := b], file, a, b, Stored, Stored),
                     Pair(map[file := 0], map[file := b], file, a, b, Recorded, Stored), Insert(0))
    ensures NextStep(Pair(map[file := 0], map[file := b], file, a, b, Recorded, Stored),
                     Pair(map[file := 0], map[file := b], file, a, b, Recorded, Rejected), Insert(1))
    ensures NextStep(Pair(map[file := 0], map[file := b], file, a, b, Recorded, Rejected),
                     Pair(map[file := 0], map[], file, a, b, Recorded, Cleaned), Clean(1))
  {
    assert map[file := b] - {file} == map[];
  }
}
