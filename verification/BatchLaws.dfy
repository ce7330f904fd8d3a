/** Where the results and the progress of a batch come from: inference/batch.go. */
module BatchLaws {
  import opened BatchModel

  // ----- Results

  /** Among the first `k` steps one executed request `r.index` with this outcome. */
  ghost predicate Executed(steps: seq<Step>, k: nat, r: BatchResult)
    requires k <= |steps|
  {
    exists j :: 0 <= j < k && steps[j].Execute? && r == BatchResult(steps[j].i, steps[j].success, steps[j].payload)
  }

  /** Results in hand and results stored are what executions of their own requests gave. */
  ghost predicate Sourced(s: State, steps: seq<Step>, k: nat)
    requires k <= |steps| && |s.results| == |s.writes| == |s.workers|
  {
    forall i :: 0 <= i < |s.workers| ==>
      && (s.workers[i].Holding? ==> s.workers[i].result.index == i && Executed(steps, k, s.workers[i].result))
      && (s.writes[i] > 0 ==> s.results[i].index == i && Executed(steps, k, s.results[i]))
  }

  lemma ExecutedStays(steps: seq<Step>, k: nat, r: BatchResult)
    requires k < |steps| && Executed(steps, k, r)
    ensures Executed(steps, k + 1, r)
  {
  }

  lemma StepSourced(s: State, steps: seq<Step>, k: nat)
    requires k < |steps| && |s.results| == |s.writes| == |s.workers| && Enabled(s, steps[k])
    requires Sourced(s, steps, k)
    ensures Sourced(After(s, steps[k]), steps, k + 1)
  {
    var s' := After(s, steps[k]);
    forall i | 0 <= i < |s'.workers|
      ensures s'.workers[i].Holding? ==> s'.workers[i].result.index == i && Executed(steps, k + 1, s'.workers[i].result)
      ensures s'.writes[i] > 0 ==> s'.results[i].index == i && Executed(steps, k + 1, s'.results[i])
    {
      if s.workers[i].Holding? {
        ExecutedStays(steps, k, s.workers[i].result);
      }
      if s.writes[i] > 0 {
        ExecutedStays(steps, k, s.results[i]);
      }
      if steps[k].Execute? && steps[k].i == i {
        assert Executed(steps, k + 1, BatchResult(i, steps[k].success, steps[k].payload));
      }
    }
  }

  /** In every interleaving what a slot holds once it is written is the outcome of an execution of its own request. */
  lemma {:induction false} RunResults(states: seq<State>, steps: seq<Step>, n: nat, k: nat)
    requires IsRun(states, steps, n) && k < |states|
    ensures Sourced(states[k], steps, k)
  {
    if k > 0 {
      RunResults(states, steps, n, k - 1);
      assert Takes(states[k - 1], steps[k - 1], states[k]);
      StepSourced(states[k - 1], steps, k - 1);
    }
  }

  /** No request is executed twice. */
  lemma {:induction false} ExecutedBefore(states: seq<State>, steps: seq<Step>, n: nat, k: nat, j: nat)
    requires IsRun(states, steps, n) && j < k < |states| && steps[j].Execute?
    ensures steps[j].i < n && Stage(states[k].workers[steps[j].i]) >= 3
    decreases k
  {
    assert Takes(states[k - 1], steps[k - 1], states[k]);
    if j < k - 1 {
      ExecutedBefore(states, steps, n, k - 1, j);
    }
  }

  lemma ExecutedOnce(states: seq<State>, steps: seq<Step>, n: nat, j: nat, k: nat)
    requires IsRun(states, steps, n) && j < k < |steps| && steps[j].Execute? && steps[k].Execute?
    ensures steps[j].i != steps[k].i
  {
    ExecutedBefore(states, steps, n, k, j);
    assert Takes(states[k], steps[k], states[k + 1]);
  }

  // ----- Progress and capacity

  /** Until it is finalized a batch has made as many hundredths of progress as hundredths of its slots are written. */
  lemma RunProgressIs(states: seq<State>, steps: seq<Step>, n: nat, k: nat)
    requires IsRun(states, steps, n) && k < |states| && n > 0 && !states[k].completed
    ensures states[k].progress == (states[k].succeeded + states[k].failed) as real / n as real * 100.0
  {
    RunInv(states, steps, n, k);
  }

  /** Workers that hold a place: from entering the section of at most ten until they leave it. */
  function Places(ws: seq<Worker>): nat {
    if ws == [] then 0
    else
      var last := ws[|ws| - 1];
      Places(ws[..|ws| - 1]) + if last.Executing? || last.Holding? || last.Stored? then 1 else 0
  }

  lemma {:induction false} PlacesCount(ws: seq<Worker>)
    ensures Places(ws) == Count(ws, InFlight)
  {
    if ws != [] {
      PlacesCount(ws[..|ws| - 1]);
    }
  }

  /** In every reachable state at most ten workers hold a place, and one that waits can enter exactly if fewer do. */
  lemma TenPlaces(states: seq<State>, steps: seq<Step>, n: nat, k: nat, i: nat)
    requires IsRun(states, steps, n) && k < |states| && i < n
    ensures Places(states[k].workers) <= 10
    ensures Enabled(states[k], Acquire(i)) <==> states[k].workers[i].Waiting? && Places(states[k].workers) < 10
  {
    RunInv(states, steps, n, k);
    PlacesCount(states[k].workers);
  }
}
