/** One execution of a batch: inference/batch.go, executeBatch and finalizeBatch, as the steps
    of a coordinator and one worker per request, interleaved in any order. */
module BatchModel {

  datatype BatchResult = BatchResult(index: int, success: bool, payload: string)

  const ZERO := BatchResult(0, false, "")

  datatype Status = Pending | Running | Complete | Failed | Partial

  /** Where a worker is: not started, before the semaphore, executing, with a result in hand,
      after storing it, after leaving the semaphore, signed off. */
  datatype Worker = Unborn | Waiting | Executing | Holding(result: BatchResult) | Stored | Released | Done

  datatype State = State(
    status: Status, completed: bool, workers: seq<Worker>, results: seq<BatchResult>, writes: seq<nat>,
    succeeded: int, failed: int, progress: real, semaphore: int, waitGroup: int)

  const CAPACITY := 10

  datatype Step =
    | Start
    | Spawn(i: nat)
    | Acquire(i: nat)
    | Execute(i: nat, success: bool, payload: string)
    | Commit(i: nat)
    | Release(i: nat)
    | SignOff(i: nat)
    | Finalize

  function Initial(n: nat): State {
    State(Pending, false, seq(n, _ => Unborn), seq(n, _ => ZERO), seq(n, _ => 0), 0, 0, 0.0, 0, 0)
  }

  predicate Enabled(s: State, step: Step) {
    match step
    case Start => s.status == Pending
    case Spawn(i) =>
      && s.status == Running && i < |s.workers| && s.workers[i].Unborn?
      && forall j :: 0 <= j < i ==> !s.workers[j].Unborn?
    case Acquire(i) => i < |s.workers| && s.workers[i].Waiting? && s.semaphore < CAPACITY
    case Execute(i, _, _) => i < |s.workers| && s.workers[i].Executing?
    case Commit(i) => i < |s.workers| && s.workers[i].Holding?
    case Release(i) => i < |s.workers| && s.workers[i].Stored?
    case SignOff(i) => i < |s.workers| && s.workers[i].Released?
    case Finalize =>
      && s.status == Running && s.waitGroup == 0
      && forall i :: 0 <= i < |s.workers| ==> !s.workers[i].Unborn?
  }

  function Percent(done: int, total: int): real
    requires total > 0
  {
    done as real / total as real * 100.0
  }

  function FinalStatus(succeeded: int, failed: int): Status {
    if failed == 0 then Complete else if succeeded == 0 then Failed else Partial
  }

  /** The atomic effect of a step. */
  function After(s: State, step: Step): State
    requires Enabled(s, step) && |s.results| == |s.writes| == |s.workers|
  {
    match step
    case Start => s.(status := Running)
    case Spawn(i) => s.(workers := s.workers[i := Waiting], waitGroup := s.waitGroup + 1)
    case Acquire(i) => s.(workers := s.workers[i := Executing], semaphore := s.semaphore + 1)
    case Execute(i, success, payload) => s.(workers := s.workers[i := Holding(BatchResult(i, success, payload))])
    case Commit(i) =>
      var r := s.workers[i].result;
      var succeeded := if r.success then s.succeeded + 1 else s.succeeded;
      var failed := if r.success then s.failed else s.failed + 1;
      s.(workers := s.workers[i := Stored], results := s.results[i := r], writes := s.writes[i := s.writes[i] + 1],
         succeeded := succeeded, failed := failed, progress := Percent(succeeded + failed, |s.workers|))
    case Release(i) => s.(workers := s.workers[i := Released], semaphore := s.semaphore - 1)
    case SignOff(i) => s.(workers := s.workers[i := Done], waitGroup := s.waitGroup - 1)
    case Finalize => s.(status := FinalStatus(s.succeeded, s.failed), completed := true, progress := 100.0)
  }

  // ----- Counting

  /** How many of the workers satisfy `p`. */
  function Count(ws: seq<Worker>, p: Worker -> bool): (n: nat)
    ensures n <= |ws|
  {
    if ws == [] then 0 else Count(ws[..|ws| - 1], p) + if p(ws[|ws| - 1]) then 1 else 0
  }

  lemma {:induction false} CountUpdate(ws: seq<Worker>, p: Worker -> bool, i: nat, w: Worker)
    requires i < |ws|
    ensures Count(ws[i := w], p) == Count(ws, p) - (if p(ws[i]) then 1 else 0) + (if p(w) then 1 else 0)
  {
    var n := |ws| - 1;
    if i < n {
      CountUpdate(ws[..n], p, i, w);
      assert ws[i := w][..n] == ws[..n][i := w];
    } else {
      assert ws[i := w][..n] == ws[..n];
    }
  }

  lemma {:induction false} CountZero(ws: seq<Worker>, p: Worker -> bool)
    ensures Count(ws, p) == 0 <==> forall i :: 0 <= i < |ws| ==> !p(ws[i])
  {
    if ws != [] {
      CountZero(ws[..|ws| - 1], p);
    }
  }

  predicate InFlight(w: Worker) { w.Executing? || w.Holding? || w.Stored? }

  predicate Pendent(w: Worker) { !w.Unborn? && !w.Done? }

  predicate Written(w: Worker) { w.Stored? || w.Released? || w.Done? }

  /** How many slots hold a written result with the given outcome. */
  function Outcomes(results: seq<BatchResult>, writes: seq<nat>, success: bool): (n: nat)
    requires |results| == |writes|
    ensures n <= |results|
  {
    if results == [] then 0
    else
      var k := |results| - 1;
      Outcomes(results[..k], writes[..k], success) + if writes[k] > 0 && results[k].success == success then 1 else 0
  }

  lemma {:induction false} OutcomesWrite(results: seq<BatchResult>, writes: seq<nat>, success: bool, i: nat,
                                         r: BatchResult)
    requires i < |results| == |writes| && writes[i] == 0
    ensures Outcomes(results[i := r], writes[i := 1], success) ==
            Outcomes(results, writes, success) + if r.success == success then 1 else 0
  {
    var k := |results| - 1;
    if i < k {
      OutcomesWrite(results[..k], writes[..k], success, i, r);
      assert results[i := r][..k] == results[..k][i := r] && writes[i := 1][..k] == writes[..k][i := 1];
    } else {
      assert results[i := r][..k] == results[..k] && writes[i := 1][..k] == writes[..k];
    }
  }

  lemma {:induction false} OutcomesAll(results: seq<BatchResult>, writes: seq<nat>)
    requires |results| == |writes|
    ensures Outcomes(results, writes, true) + Outcomes(results, writes, false) <= |results|
    ensures Outcomes(results, writes, true) + Outcomes(results, writes, false) == |results| <==>
            forall i :: 0 <= i < |writes| ==> writes[i] > 0
  {
    if results != [] {
      var k := |results| - 1;
      OutcomesAll(results[..k], writes[..k]);
      if forall i :: 0 <= i < k ==> writes[..k][i] > 0 {
        assert forall i :: 0 <= i < k ==> writes[i] > 0;
      } else {
        var i :| 0 <= i < k && !(writes[..k][i] > 0);
        assert !(writes[i] > 0);
      }
    }
  }

  lemma {:induction false} OutcomesNone(results: seq<BatchResult>, writes: seq<nat>, success: bool)
    requires |results| == |writes|
    ensures Outcomes(results, writes, success) == 0 <==>
            forall i :: 0 <= i < |writes| && writes[i] > 0 ==> results[i].success != success
  {
    if results != [] {
      var k := |results| - 1;
      OutcomesNone(results[..k], writes[..k], success);
      assert forall i :: 0 <= i < k ==> writes[..k][i] == writes[i] && results[..k][i] == results[i];
    }
  }

  // ----- The invariant

  ghost predicate Shaped(s: State, n: nat) {
    |s.workers| == |s.results| == |s.writes| == n
  }

  /** What each slot holds: nothing before its worker stores, one write with the slot's own index after. */
  ghost predicate SlotsInv(s: State)
    requires |s.results| == |s.writes| == |s.workers|
  {
    forall i :: 0 <= i < |s.workers| ==>
      && s.writes[i] == (if Written(s.workers[i]) then 1 else 0)
      && (s.writes[i] == 0 ==> s.results[i] == ZERO)
      && (s.writes[i] == 1 ==> s.results[i].index == i)
      && (s.workers[i].Holding? ==> s.workers[i].result.index == i)
  }

  ghost predicate CountersInv(s: State)
    requires |s.results| == |s.writes| == |s.workers|
  {
    && s.succeeded == Outcomes(s.results, s.writes, true)
    && s.failed == Outcomes(s.results, s.writes, false)
    && s.semaphore == Count(s.workers, InFlight) <= CAPACITY
    && s.waitGroup == Count(s.workers, Pendent)
  }

  ghost predicate StatusInv(s: State)
    requires |s.results| == |s.writes| == |s.workers|
  {
    && (s.completed <==> s.status != Pending && s.status != Running)
    && (s.completed || s.workers == [] || s.progress == Percent(s.succeeded + s.failed, |s.workers|))
    && (s.workers == [] && !s.completed ==> s.progress == 0.0)
    && (s.completed ==> s.progress == 100.0 && s.status == FinalStatus(s.succeeded, s.failed)
                        && forall i :: 0 <= i < |s.workers| ==> s.workers[i] == Done)
    && (s.status == Pending ==> forall i :: 0 <= i < |s.workers| ==> s.workers[i] == Unborn)
  }

  ghost predicate Inv(s: State, n: nat) {
    Shaped(s, n) && SlotsInv(s) && CountersInv(s) && StatusInv(s)
  }

  lemma CountAllUnborn(n: nat, p: Worker -> bool)
    requires !p(Unborn)
    ensures Count(seq(n, _ => Unborn), p) == 0
  {
    CountZero(seq(n, _ => Unborn), p);
  }

  lemma InitialInv(n: nat)
    ensures Inv(Initial(n), n)
  {
    CountAllUnborn(n, InFlight);
    CountAllUnborn(n, Pendent);
    var s := Initial(n);
    OutcomesNone(s.results, s.writes, true);
    OutcomesNone(s.results, s.writes, false);
  }

  /** Only a running batch has a worker on its way. */
  lemma Busy(s: State, i: nat, n: nat)
    requires Inv(s, n) && i < n && !s.workers[i].Unborn? && !s.workers[i].Done?
    ensures s.status == Running && !s.completed
  {
  }

  /** A worker moves on without storing. */
  lemma MoveKeepsInv(s: State, s': State, i: nat, w: Worker, n: nat)
    requires Inv(s, n) && i < n && s.status == Running
    requires s' == s.(workers := s.workers[i := w], semaphore := s'.semaphore, waitGroup := s'.waitGroup)
    requires Written(w) == Written(s.workers[i]) && (w.Holding? ==> w.result.index == i)
    requires s'.semaphore == s.semaphore + (if InFlight(w) then 1 else 0) - (if InFlight(s.workers[i]) then 1 else 0)
    requires s'.semaphore <= CAPACITY
    requires s'.waitGroup == s.waitGroup + (if Pendent(w) then 1 else 0) - (if Pendent(s.workers[i]) then 1 else 0)
    ensures Inv(s', n)
  {
    CountUpdate(s.workers, InFlight, i, w);
    CountUpdate(s.workers, Pendent, i, w);
  }

  lemma CommitKeepsOutcomes(s: State, i: nat, n: nat, success: bool)
    requires Shaped(s, n) && SlotsInv(s) && Enabled(s, Commit(i))
    ensures var s' := After(s, Commit(i));
            Outcomes(s'.results, s'.writes, success) ==
            Outcomes(s.results, s.writes, success) + if s.workers[i].result.success == success then 1 else 0
  {
    assert s.writes[i] == 0;
    OutcomesWrite(s.results, s.writes, success, i, s.workers[i].result);
  }

  lemma CommitKeepsCounts(s: State, i: nat, n: nat)
    requires Shaped(s, n) && Enabled(s, Commit(i))
    ensures var s' := After(s, Commit(i));
            && Count(s'.workers, InFlight) == Count(s.workers, InFlight)
            && Count(s'.workers, Pendent) == Count(s.workers, Pendent)
  {
    CountUpdate(s.workers, InFlight, i, Stored);
    CountUpdate(s.workers, Pendent, i, Stored);
  }

  lemma CommitKeepsCounters(s: State, i: nat, n: nat)
    requires Shaped(s, n) && SlotsInv(s) && CountersInv(s) && Enabled(s, Commit(i))
    ensures CountersInv(After(s, Commit(i)))
  {
    CommitKeepsCounts(s, i, n);
    CommitKeepsOutcomes(s, i, n, true);
    CommitKeepsOutcomes(s, i, n, false);
  }

  lemma CommitKeepsInv(s: State, i: nat, n: nat)
    requires Inv(s, n) && Enabled(s, Commit(i))
    ensures Inv(After(s, Commit(i)), n)
  {
    CommitKeepsCounters(s, i, n);
    Busy(s, i, n);
    var s' := After(s, Commit(i));
    assert SlotsInv(s');
  }

  lemma FinalizeKeepsInv(s: State, n: nat)
    requires Inv(s, n) && Enabled(s, Finalize)
    ensures Inv(After(s, Finalize), n)
  {
    CountZero(s.workers, Pendent);
  }

  lemma WorkerStepKeepsInv(s: State, step: Step, n: nat)
    requires Inv(s, n) && Enabled(s, step) && !step.Start? && !step.Commit? && !step.Finalize?
    ensures Inv(After(s, step), n)
  {
    var i, s' := step.i, After(s, step);
    if !step.Spawn? {
      Busy(s, i, n);
    }
    MoveKeepsInv(s, s', i, s'.workers[i], n);
  }

  lemma StepKeepsInv(s: State, step: Step, n: nat)
    requires Inv(s, n) && Enabled(s, step)
    ensures Inv(After(s, step), n)
  {
    match step
    case Start =>
    case Finalize => FinalizeKeepsInv(s, n);
    case Commit(i) => CommitKeepsInv(s, i, n);
    case _ => WorkerStepKeepsInv(s, step, n);
  }

  // ----- Runs

  ghost predicate Takes(s: State, step: Step, s': State)
    requires |s.results| == |s.writes| == |s.workers|
  {
    Enabled(s, step) && s' == After(s, step)
  }

  ghost predicate IsRun(states: seq<State>, steps: seq<Step>, n: nat) {
    && |states| == |steps| + 1 && states[0] == Initial(n)
    && (forall i :: 0 <= i < |states| ==> Shaped(states[i], n))
    && forall i, j :: 0 <= i < j < |states| && j == i + 1 ==> Takes(states[i], steps[i], states[j])
  }

  lemma {:induction false} RunInv(states: seq<State>, steps: seq<Step>, n: nat, k: nat)
    requires IsRun(states, steps, n) && k < |states|
    ensures Inv(states[k], n)
  {
    if k == 0 {
      InitialInv(n);
    } else {
      RunInv(states, steps, n, k - 1);
      assert Takes(states[k - 1], steps[k - 1], states[k]);
      StepKeepsInv(states[k - 1], steps[k - 1], n);
    }
  }

  /** Conservation in every reachable state: each slot is written at most once, and then with its
      own request's result; the counters add up to the slots written and count the outcomes; at
      most ten requests are in flight. */
  lemma Conservation(states: seq<State>, steps: seq<Step>, n: nat, k: nat)
    requires IsRun(states, steps, n) && k < |states|
    ensures var s := states[k];
            && (forall i :: 0 <= i < n ==> s.writes[i] <= 1 && (s.writes[i] == 1 ==> s.results[i].index == i))
            && s.succeeded == Outcomes(s.results, s.writes, true)
            && s.failed == Outcomes(s.results, s.writes, false)
            && 0 <= s.succeeded + s.failed <= n
            && Count(s.workers, InFlight) <= CAPACITY
  {
    RunInv(states, steps, n, k);
    OutcomesAll(states[k].results, states[k].writes);
  }

  lemma PercentMonotone(x: int, y: int, n: int)
    requires 0 <= x <= y <= n && n > 0
    ensures 0.0 <= Percent(x, n) <= Percent(y, n) <= 100.0
  {
    assert 0.0 <= x as real / n as real <= y as real / n as real <= 1.0;
  }

  lemma ProgressBound(s: State, n: nat)
    requires Inv(s, n)
    ensures 0 <= s.succeeded + s.failed <= n && s.progress <= 100.0
  {
    OutcomesAll(s.results, s.writes);
    if n > 0 {
      PercentMonotone(s.succeeded + s.failed, n, n);
    }
  }

  lemma CommitProgress(s: State, i: nat, n: nat)
    requires Inv(s, n) && Enabled(s, Commit(i))
    ensures s.progress <= After(s, Commit(i)).progress
  {
    Busy(s, i, n);
    CommitKeepsInv(s, i, n);
    ProgressBound(s, n);
    ProgressBound(After(s, Commit(i)), n);
    PercentMonotone(s.succeeded + s.failed, s.succeeded + s.failed + 1, n);
  }

  lemma StepProgress(s: State, step: Step, n: nat)
    requires Inv(s, n) && Enabled(s, step)
    ensures s.progress <= After(s, step).progress
  {
    match step
    case Commit(i) => CommitProgress(s, i, n);
    case Finalize => ProgressBound(s, n);
    case _ =>
  }

  lemma RunProgress(states: seq<State>, steps: seq<Step>, n: nat, k: nat)
    requires IsRun(states, steps, n) && k < |steps|
    ensures states[k].progress <= states[k + 1].progress
  {
    RunInv(states, steps, n, k);
    assert Takes(states[k], steps[k], states[k + 1]);
    StepProgress(states[k], steps[k], n);
  }

  /** Progress never decreases. */
  lemma {:induction false} ProgressMonotone(states: seq<State>, steps: seq<Step>, n: nat, i: nat, j: nat)
    requires IsRun(states, steps, n) && i <= j < |states|
    ensures states[i].progress <= states[j].progress
    decreases j
  {
    if i < j {
      ProgressMonotone(states, steps, n, i, j - 1);
      RunProgress(states, steps, n, j - 1);
    }
  }

  /** Once finalized, every slot has been written exactly once and the status is what the
      outcomes dictate. */
  lemma FinalOutcome(states: seq<State>, steps: seq<Step>, n: nat, k: nat)
    requires IsRun(states, steps, n) && k < |states| && states[k].completed
    ensures var s := states[k];
            && (forall i :: 0 <= i < n ==> s.writes[i] == 1 && s.results[i].index == i)
            && s.succeeded + s.failed == n && s.progress == 100.0
            && (s.status == Complete <==> forall i :: 0 <= i < n ==> s.results[i].success)
            && (s.status == Failed <==> n > 0 && forall i :: 0 <= i < n ==> !s.results[i].success)
            && (s.status == Partial <==>
                (exists i :: 0 <= i < n && s.results[i].success) && exists i :: 0 <= i < n && !s.results[i].success)
  {
    RunInv(states, steps, n, k);
    var s := states[k];
    OutcomesAll(s.results, s.writes);
    OutcomesNone(s.results, s.writes, true);
    OutcomesNone(s.results, s.writes, false);
  }

  // ----- Every run ends, and ends finalized

  function Stage(w: Worker): nat {
    match w
    case Unborn => 0
    case Waiting => 1
    case Executing => 2
    case Holding(_) => 3
    case Stored => 4
    case Released => 5
    case Done => 6
  }

  function Stages(ws: seq<Worker>): (n: nat)
    ensures n <= 6 * |ws|
  {
    if ws == [] then 0 else Stages(ws[..|ws| - 1]) + Stage(ws[|ws| - 1])
  }

  lemma {:induction false} StagesUpdate(ws: seq<Worker>, i: nat, w: Worker)
    requires i < |ws|
    ensures Stages(ws[i := w]) == Stages(ws) - Stage(ws[i]) + Stage(w)
  {
    var n := |ws| - 1;
    if i < n {
      StagesUpdate(ws[..n], i, w);
      assert ws[i := w][..n] == ws[..n][i := w];
    } else {
      assert ws[i := w][..n] == ws[..n];
    }
  }

  /** Steps taken so far. */
  function Age(s: State): int {
    (if s.status == Pending then 0 else 1) + Stages(s.workers) + if s.completed then 1 else 0
  }

  lemma StepAges(s: State, step: Step, n: nat)
    requires Shaped(s, n) && StatusInv(s) && Enabled(s, step)
    ensures Age(After(s, step)) == Age(s) + 1
  {
    if !step.Start? && !step.Finalize? {
      StagesUpdate(s.workers, step.i, After(s, step).workers[step.i]);
    }
  }

  lemma RunAges(states: seq<State>, steps: seq<Step>, n: nat, k: nat)
    requires IsRun(states, steps, n) && k < |steps|
    ensures Age(states[k + 1]) == Age(states[k]) + 1
  {
    RunInv(states, steps, n, k);
    assert Takes(states[k], steps[k], states[k + 1]);
    StepAges(states[k], steps[k], n);
  }

  lemma {:induction false} AgeCounts(states: seq<State>, steps: seq<Step>, n: nat, k: nat)
    requires IsRun(states, steps, n) && k < |states|
    ensures Age(states[k]) == k
  {
    if k == 0 {
      StagesUnborn(n);
    } else {
      AgeCounts(states, steps, n, k - 1);
      RunAges(states, steps, n, k - 1);
    }
  }

  lemma {:induction false} StagesUnborn(n: nat)
    ensures Stages(seq(n, _ => Unborn)) == 0
  {
    if n > 0 {
      assert seq(n, _ => Unborn)[..n - 1] == seq(n - 1, _ => Unborn);
      StagesUnborn(n - 1);
    }
  }

  /** No run gets stuck: a state that is not finalized has a step to take. */
  lemma SomeStepEnabled(s: State, n: nat) returns (step: Step)
    requires Inv(s, n) && !s.completed
    ensures Enabled(s, step)
  {
    if s.status == Pending {
      return Start;
    }
    if i :| 0 <= i < n && s.workers[i].Unborn? && forall j :: 0 <= j < i ==> !s.workers[j].Unborn? {
      return Spawn(i);
    }
    NoUnborn(s.workers, n);
    CountZero(s.workers, Pendent);
    if s.waitGroup == 0 {
      return Finalize;
    }
    if i :| 0 <= i < n && s.workers[i].Executing? { return Execute(i, true, ""); }
    if i :| 0 <= i < n && s.workers[i].Holding? { return Commit(i); }
    if i :| 0 <= i < n && s.workers[i].Stored? { return Release(i); }
    if i :| 0 <= i < n && s.workers[i].Released? { return SignOff(i); }
    CountZero(s.workers, InFlight);
    var i :| 0 <= i < n && Pendent(s.workers[i]);
    return Acquire(i);
  }

  lemma {:induction false} NoUnborn(ws: seq<Worker>, n: nat)
    requires n <= |ws|
    requires forall i :: 0 <= i < n && ws[i].Unborn? ==> exists j :: 0 <= j < i && ws[j].Unborn?
    ensures forall i :: 0 <= i < n ==> !ws[i].Unborn?
  {
    if n > 0 {
      NoUnborn(ws, n - 1);
    }
  }

  /** A run has at most 6n + 2 steps, and one that can go no further has finalized the batch. */
  lemma RunsFinalize(states: seq<State>, steps: seq<Step>, n: nat)
    requires IsRun(states, steps, n)
    ensures |steps| <= 6 * n + 2
    ensures (forall step :: !Enabled(states[|steps|], step)) ==> states[|steps|].completed
  {
    var s := states[|steps|];
    AgeCounts(states, steps, n, |steps|);
    RunInv(states, steps, n, |steps|);
    if !s.completed {
      var step := SomeStepEnabled(s, n);
    }
  }
}

/** The steps that touch shared data, as the source has them: each runs under the processor's lock. */
module Batch {
  import opened BatchModel

  class BatchExecution {
    var status: Status
    var completed: bool
    const results: array<BatchResult>
    var succeeded: int
    var failed: int
    var progress: real

    constructor (total: nat)
      ensures fresh(results) && Shows(Initial(total))
    {
      status, completed, succeeded, failed, progress := Pending, false, 0, 0, 0.0;
      results := new BatchResult[total](_ => ZERO);
      new;
      assert results[..] == Initial(total).results;
    }

    /** The object holds the shared part of `s`. */
    ghost predicate Shows(s: State)
      reads this, results
    {
      && s.status == status && s.completed == completed && s.results == results[..]
      && |s.workers| == |s.writes| == |s.results|
      && s.succeeded == succeeded && s.failed == failed && s.progress == progress
    }

    method Start()
      modifies this
      ensures forall s :: old(Shows(s)) && Enabled(s, Step.Start) ==> Shows(After(s, Step.Start))
    {
      status := Running;
    }

    method Commit(index: nat, result: BatchResult)
      requires index < results.Length
      modifies this, results
      ensures forall s :: old(Shows(s)) && Enabled(s, Step.Commit(index)) && s.workers[index].result == result ==>
                Shows(After(s, Step.Commit(index)))
    {
      results[index] := result;
      if result.success {
        succeeded := succeeded + 1;
      } else {
        failed := failed + 1;
      }
      var done := succeeded + failed;
      progress := done as real / results.Length as real * 100.0;
    }

    method Finalize()
      modifies this
      ensures forall s :: old(Shows(s)) && Enabled(s, Step.Finalize) ==> Shows(After(s, Step.Finalize))
    {
      completed := true;
      progress := 100.0;
      if failed == 0 {
        status := Complete;
      } else if succeeded == 0 {
        status := Failed;
      } else {
        status := Partial;
      }
    }
  }
}
