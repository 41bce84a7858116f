/**
 * The setup wizard's cascade runner: for each step, check; if that fails,
 * ask whether to configure it, install, on failure ask whether to skip,
 * retry once or abort, and verify after a successful install.
 *
 * What the steps and the prompts answer is given up front as a script per
 * step; the runner's calls on the steps are recorded as a trace.
 */
module SetupRunner {
  import opened Wrappers

  /** The answer to "failed. What to do?"; `Dismissed` is the prompt cancelled. */
  datatype Action = SkipAndContinue | Retry | Abort | Dismissed

  /**
   * What one step answers: its check, the confirmation prompt, the first
   * install, the failure prompt, the second install (after Retry) and its
   * verify. An answer the runner never asks for is ignored.
   */
  datatype Script = Script(name: string, check: bool, confirm: bool, install: bool,
                           action: Action, retry: bool, verify: bool)

  datatype Status = Ok | Skipped | Failed | Warn {
    function Name(): string {
      match this
      case Ok => "ok"
      case Skipped => "skipped"
      case Failed => "failed"
      case Warn => "warn"
    }
  }

  /** A call the runner makes on step number `step`. */
  datatype Call = Check(step: nat) | Install(step: nat) | Verify(step: nat)

  /**
   * The status one step ends with (None: the run is aborted) and the calls
   * made on it, in order: the check always comes first, the run aborts only
   * on an explicit Abort after a failed install, a step fails only after a
   * failed retry, and verify is called only on a step that ends Ok or Warn.
   */
  function StepSpec(s: Script, i: nat): (r: (Option<Status>, seq<Call>))
    ensures r.1 != [] && r.1[0] == Check(i) && |r.1| <= 4
    ensures forall c | c in r.1 :: c.step == i
    ensures r.0.None? <==> !s.check && s.confirm && !s.install && s.action == Abort
    ensures r.0 == Some(Failed) ==> s.action == Retry && r.1 == [Check(i), Install(i), Install(i)]
    ensures Verify(i) in r.1 ==> r.0 == Some(Ok) || r.0 == Some(Warn)
    ensures s.check ==> r == (Some(Ok), [Check(i)])
  {
    if s.check then (Some(Ok), [Check(i)])
    else if !s.confirm then (Some(Skipped), [Check(i)])
    else if !s.install && s.action == Abort then (None, [Check(i), Install(i)])
    else if !s.install && s.action == Retry && !s.retry then (Some(Failed), [Check(i), Install(i), Install(i)])
    else if !s.install && s.action != Retry then (Some(Skipped), [Check(i), Install(i)])
    else
      var installs := if s.install then [Install(i)] else [Install(i), Install(i)];
      (Some(if s.verify then Ok else Warn), [Check(i)] + installs + [Verify(i)])
  }

  datatype Trace = Trace(results: seq<(string, Status)>, calls: seq<Call>, aborted: bool)

  /** The results and calls of running the steps in order, stopping at an abort. */
  function RunSpec(steps: seq<Script>): (t: Trace)
    ensures |t.results| <= |steps|
    ensures t.aborted ==> |t.results| < |steps|
    ensures steps != [] ==> t.calls != []
    decreases |steps|
  {
    if steps == [] then Trace([], [], false)
    else
      var n := |steps| - 1;
      var t := RunSpec(steps[..n]);
      if t.aborted then t
      else
        var (st, cs) := StepSpec(steps[n], n);
        match st
        case None => Trace(t.results, t.calls + cs, true)
        case Some(status) => Trace(t.results + [(steps[n].name, status)], t.calls + cs, false)
  }

  /** What `run_steps` returns: false on abort, else whether no step failed. */
  function Succeeded(steps: seq<Script>): bool {
    var t := RunSpec(steps);
    !t.aborted && forall j | 0 <= j < |t.results| :: t.results[j].1 != Failed
  }

  /** Once the run is aborted, later steps change nothing. */
  lemma {:induction false} AbortIsFinal(steps: seq<Script>, i: nat)
    requires i <= |steps| && RunSpec(steps[..i]).aborted
    ensures RunSpec(steps) == RunSpec(steps[..i])
    decreases |steps| - i
  {
    if i < |steps| {
      assert steps[..i + 1][..i] == steps[..i];
      AbortIsFinal(steps, i + 1);
    } else {
      assert steps[..i] == steps;
    }
  }

  /** One more step extends the trace by what that step does. */
  lemma RunStep(steps: seq<Script>, i: nat)
    requires i < |steps| && !RunSpec(steps[..i]).aborted
    ensures var t := RunSpec(steps[..i]);
      var st := StepSpec(steps[i], i);
      RunSpec(steps[..i + 1]) ==
        if st.0.None? then Trace(t.results, t.calls + st.1, true)
        else Trace(t.results + [(steps[i].name, st.0.value)], t.calls + st.1, false)
  {
    assert steps[..i + 1][..i] == steps[..i];
  }

  /** The body of `run_steps`' loop for one step: the prompts, installs and verify, in the source's order. */
  method RunOne(s: Script, i: nat) returns (status: Option<Status>, cs: seq<Call>)
    ensures (status, cs) == StepSpec(s, i)
  {
    if s.check {
      return Some(Ok), [Check(i)];
    }
    if !s.confirm {
      return Some(Skipped), [Check(i)];
    }
    var installs := [Install(i)];
    var success := s.install;
    if !success {
      if s.action == Abort {
        return None, [Check(i), Install(i)];
      }
      if s.action == Retry {
        installs := [Install(i), Install(i)];
        success := s.retry;
        if !success {
          return Some(Failed), [Check(i), Install(i), Install(i)];
        }
      } else {
        return Some(Skipped), [Check(i), Install(i)];
      }
    }
    cs := [Check(i)] + installs + [Verify(i)];
    status := if s.verify then Some(Ok) else Some(Warn);
  }

  /** `run_steps`: the loop over the steps, returning early on Abort. */
  method RunSteps(steps: seq<Script>) returns (ok: bool, results: seq<(string, Status)>, calls: seq<Call>)
    ensures results == RunSpec(steps).results && calls == RunSpec(steps).calls
    ensures ok == Succeeded(steps)
  {
    results := [];
    calls := [];
    for i := 0 to |steps|
      invariant RunSpec(steps[..i]) == Trace(results, calls, false)
    {
      RunStep(steps, i);
      var status, cs := RunOne(steps[i], i);
      calls := calls + cs;
      if status.None? {
        AbortIsFinal(steps, i + 1);
        return false, results, calls;
      }
      results := results + [(steps[i].name, status.value)];
    }
    assert steps[..|steps|] == steps;
    ok := true;
    for j := 0 to |results|
      invariant ok <==> forall k | 0 <= k < j :: results[k].1 != Failed
    {
      if results[j].1 == Failed {
        ok := false;
      }
    }
  }

  // ----- properties of a run -----

  /** A run that is not aborted has one result per step, named after the step, in order. */
  lemma {:induction false} OneResultPerStep(steps: seq<Script>)
    requires !RunSpec(steps).aborted
    ensures |RunSpec(steps).results| == |steps|
    ensures forall i | 0 <= i < |steps| :: RunSpec(steps).results[i].0 == steps[i].name
    decreases |steps|
  {
    if steps != [] {
      var n := |steps| - 1;
      assert forall i | 0 <= i < n :: steps[..n][i] == steps[i];
      OneResultPerStep(steps[..n]);
    }
  }

  /** The calls name the steps in order: never a call on an earlier step after one on a later. */
  lemma {:induction false} CallsInStepOrder(steps: seq<Script>)
    ensures forall a, b | 0 <= a < b < |RunSpec(steps).calls| ::
      RunSpec(steps).calls[a].step <= RunSpec(steps).calls[b].step
    ensures forall a | 0 <= a < |RunSpec(steps).calls| :: RunSpec(steps).calls[a].step < |steps|
    decreases |steps|
  {
    if steps != [] {
      var n := |steps| - 1;
      CallsInStepOrder(steps[..n]);
    }
  }

  /** The step at which the run aborts is the last one touched: nothing after it is checked or installed. */
  lemma AbortTouchesNothingLater(steps: seq<Script>, j: nat)
    requires j < |steps| && !RunSpec(steps[..j]).aborted && StepSpec(steps[j], j).0.None?
    ensures RunSpec(steps).aborted && !Succeeded(steps)
    ensures forall a | 0 <= a < |RunSpec(steps).calls| :: RunSpec(steps).calls[a].step <= j
    ensures |RunSpec(steps).results| == j
  {
    assert steps[..j + 1][..j] == steps[..j];
    AbortIsFinal(steps, j + 1);
    CallsInStepOrder(steps[..j + 1]);
    OneResultPerStep(steps[..j]);
  }

  /** Every call on step `j` is one the step's own script calls for. */
  lemma {:induction false} CallsOfStep(steps: seq<Script>, j: nat)
    ensures forall a | 0 <= a < |RunSpec(steps).calls| && RunSpec(steps).calls[a].step == j ::
      j < |steps| && RunSpec(steps).calls[a] in StepSpec(steps[j], j).1
    decreases |steps|
  {
    if steps != [] {
      var n := |steps| - 1;
      CallsOfStep(steps[..n], j);
      CallsInStepOrder(steps[..n]);
      if j < n {
        assert steps[..n][j] == steps[j];
      }
    }
  }

  /** A step already configured is only checked: the run never installs or verifies it. */
  lemma ConfiguredStepOnlyChecked(steps: seq<Script>, j: nat)
    requires j < |steps| && steps[j].check
    ensures forall a | 0 <= a < |RunSpec(steps).calls| && RunSpec(steps).calls[a].step == j ::
      RunSpec(steps).calls[a] == Check(j)
  {
    CallsOfStep(steps, j);
  }

  function Installs(calls: seq<Call>): nat {
    if calls == [] then 0 else (if calls[0].Install? then 1 else 0) + Installs(calls[1..])
  }

  /** The first install succeeded, or it failed, the answer was Retry and the second one succeeded. */
  predicate Installed(s: Script) {
    s.install || (s.action == Retry && s.retry)
  }

  /**
   * Install is called at most twice, and twice exactly when the first
   * install failed and the answer was Retry; verify is called exactly when
   * an install succeeded, and its answer decides between ok and warn.
   */
  lemma InstallAndVerify(s: Script, i: nat)
    ensures var (st, cs) := StepSpec(s, i);
      && cs[0] == Check(i)
      && Installs(cs) <= 2
      && (Installs(cs) == 2 <==> !s.check && s.confirm && !s.install && s.action == Retry)
      && (Verify(i) in cs <==> !s.check && s.confirm && Installed(s))
      && (Verify(i) in cs ==> st == Some(if s.verify then Ok else Warn))
  {
    assert Installs([Verify(i)]) == 0;
    assert Installs([Install(i), Verify(i)]) == 1;
    assert Installs([Install(i), Install(i), Verify(i)]) == 2;
    assert Installs([Install(i)]) == 1;
    assert Installs([Install(i), Install(i)]) == 2;
    var cs := StepSpec(s, i).1;
    if !s.check && s.confirm {
      assert cs[1] == Install(i);
      assert Installs(cs) == 1 + Installs(cs[2..]);
    }
  }

  /** A run whose every check passes succeeds without installing anything. */
  lemma {:induction false} AllConfiguredSucceeds(steps: seq<Script>)
    requires forall i | 0 <= i < |steps| :: steps[i].check
    ensures Succeeded(steps)
    ensures |RunSpec(steps).calls| == |steps| && forall a | 0 <= a < |steps| :: RunSpec(steps).calls[a] == Check(a)
    ensures |RunSpec(steps).results| == |steps| && forall j | 0 <= j < |steps| :: RunSpec(steps).results[j].1 == Ok
    decreases |steps|
  {
    if steps != [] {
      var n := |steps| - 1;
      assert forall i | 0 <= i < n :: steps[..n][i] == steps[i];
      AllConfiguredSucceeds(steps[..n]);
      var t := RunSpec(steps[..n]);
      assert StepSpec(steps[n], n) == (Some(Ok), [Check(n)]);
      var r := RunSpec(steps);
      assert r == Trace(t.results + [(steps[n].name, Ok)], t.calls + [Check(n)], false);
      forall a | 0 <= a < |steps|
        ensures r.calls[a] == Check(a) && r.results[a].1 == Ok
      {
        if a < n {
          assert r.calls[a] == t.calls[a] && r.results[a] == t.results[a];
        }
      }
    }
  }
}
