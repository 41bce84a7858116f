/**
 * The subprocess executor of the runtime: result shaping for one process run
 * (`run`) and the registry of background jobs (`submit`, `get_job`, `wait`,
 * `cancel`, `_execute_job`, `_evict_old_jobs`).
 *
 * The process itself, the background thread, the lock and the clock are not
 * modelled: the process outcome and every timestamp are parameters, and each
 * block the source runs under its lock is one method of the registry class.
 */
module Executor {
  import opened Wrappers
  import opened Strings

  datatype JobStatus = Pending | Running | Completed | Failed | Cancelled | Timeout {
    predicate IsTerminal() {
      Completed? || Failed? || Cancelled? || Timeout?
    }
  }

  /** The job lifecycle: Pending -> Running -> Completed | Failed | Timeout, and Pending -> Cancelled. */
  predicate Advances(before: JobStatus, after: JobStatus) {
    || before == after
    || (before == Pending && after != Pending)
    || (before == Running && (after == Completed || after == Failed || after == Timeout))
  }

  datatype ExecResult = ExecResult(
    returncode: int,
    stdout: string,
    stderr: string,
    timeMs: nat,
    timedOut: bool,
    truncated: bool)

  /** What one `subprocess.run` call ends with. */
  datatype ProcessOutcome =
    | Exited(rc: int, out: string, err: string)
    | Expired                  // TimeoutExpired: the timeout elapsed first
    | NotFound                 // FileNotFoundError: the program does not exist
    | Raised(message: string)  // any other exception, with its message

  const DEFAULT_TIMEOUT: int := 30
  const DEFAULT_MAX_OUTPUT: int := 64 * 1024
  const DEFAULT_MAX_JOBS: int := 100

  /** Python's `value or default` for an optional int: None and 0 fall back. */
  function OrDefault(value: Option<int>, default: int): int {
    if value.Some? && value.value != 0 then value.value else default
  }

  /** The ExecResult that `run` builds from a process outcome, with the timeout and cap already resolved. */
  function Shape(command: seq<string>, outcome: ProcessOutcome, timeout: int, cap: int, elapsed: nat): (r: ExecResult)
    requires !outcome.Raised?
    requires outcome.NotFound? ==> command != []
    ensures cap >= 0 ==> |r.stdout| <= cap
    ensures cap >= 0 && outcome.Exited? ==> |r.stderr| <= cap
    ensures r.truncated <==> outcome.Exited? && (|outcome.out| > cap || |outcome.err| > cap)
    ensures r.timedOut <==> outcome.Expired?
    ensures outcome.Exited? ==> r.returncode == outcome.rc && StartsWith(outcome.out, r.stdout) && StartsWith(outcome.err, r.stderr)
    ensures outcome.Exited? && !r.truncated ==> r.stdout == outcome.out && r.stderr == outcome.err
    ensures !outcome.Exited? ==> r.returncode == -1 && r.stdout == "" && !r.truncated
    ensures outcome.Expired? ==> r.stderr == "Process timed out after " + IntToString(timeout) + "s"
    ensures outcome.NotFound? ==> r.stderr == "Command not found: " + command[0]
    ensures r.timeMs == elapsed
  {
    match outcome
    case Exited(rc, out, err) =>
      ExecResult(rc, PyPrefix(out, cap), PyPrefix(err, cap), elapsed, false, |out| > cap || |err| > cap)
    case Expired =>
      ExecResult(-1, "", "Process timed out after " + IntToString(timeout) + "s", elapsed, true, false)
    case NotFound =>
      ExecResult(-1, "", "Command not found: " + command[0], elapsed, false, false)
  }

  type JobId = string

  datatype Job = Job(
    id: JobId,
    command: seq<string>,
    status: JobStatus,
    result: Option<ExecResult>,
    inputData: Option<string>,
    createdAt: nat,
    startedAt: Option<nat>,
    completedAt: Option<nat>,
    timeoutS: int,
    maxOutput: int)

  /** The status a finished run leaves its job in: terminal, never Cancelled, a timeout winning over the exit code. */
  function FinalStatus(r: ExecResult): (s: JobStatus)
    ensures s.IsTerminal() && !s.Cancelled?
    ensures s.Timeout? <==> r.timedOut
    ensures s.Completed? <==> !r.timedOut && r.returncode == 0
  {
    if r.timedOut then Timeout else if r.returncode == 0 then Completed else Failed
  }

  /** What a job's status says about its other fields. */
  predicate Consistent(j: Job) {
    && (j.result.Some? <==> (j.status.Completed? || j.status.Failed? || j.status.Timeout?))
    && (j.startedAt.Some? <==> (j.status.Running? || j.result.Some?))
    && (j.completedAt.Some? <==> j.result.Some?)
    && (j.result.Some? ==> FinalStatus(j.result.value) == j.status)
  }

  // ----- eviction order: terminal jobs, oldest first, ties in insertion order -----

  /** No element occurs twice. */
  predicate Distinct(s: seq<JobId>) {
    forall x | x in s :: multiset(s)[x] <= 1
  }

  function AsSet(s: seq<JobId>): set<JobId> {
    set x | x in s
  }

  /** A terminal job's id with its creation time: what the eviction sort looks at. */
  type Entry = (JobId, nat)

  predicate SortedByAge(s: seq<Entry>) {
    forall i, j | 0 <= i < j < |s| :: s[i].1 <= s[j].1
  }

  /** Inserts `e` after every entry that is not younger (keeps the sort stable). */
  function Insert(e: Entry, s: seq<Entry>): (r: seq<Entry>)
    ensures |r| == |s| + 1 && e in r
  {
    if s == [] then [e]
    else if e.1 < s[0].1 then [e] + s
    else [s[0]] + Insert(e, s[1..])
  }

  /** Python's stable `sorted(..., key=lambda j: j.created_at)`. */
  function SortByAge(s: seq<Entry>): (r: seq<Entry>)
    ensures |r| == |s|
  {
    if s == [] then []
    else Insert(s[|s| - 1], SortByAge(s[..|s| - 1]))
  }

  lemma {:induction false} InsertPermutes(e: Entry, s: seq<Entry>)
    ensures multiset(Insert(e, s)) == multiset(s) + multiset{e}
  {
    if s != [] && e.1 >= s[0].1 {
      InsertPermutes(e, s[1..]);
      assert s == [s[0]] + s[1..];
    }
  }

  lemma {:induction false} InsertMembers(e: Entry, s: seq<Entry>)
    ensures forall y | y in Insert(e, s) :: y == e || y in s
  {
    if s != [] && e.1 >= s[0].1 {
      InsertMembers(e, s[1..]);
    }
  }

  /** An entry no younger than a sorted sequence's entries can go in front of it. */
  lemma SortedCons(x: Entry, r: seq<Entry>)
    requires SortedByAge(r) && forall y | y in r :: x.1 <= y.1
    ensures SortedByAge([x] + r)
  {
    var t := [x] + r;
    forall i, j | 0 <= i < j < |t| ensures t[i].1 <= t[j].1 {
      if i > 0 {
        assert t[i] == r[i - 1] && t[j] == r[j - 1];
      } else {
        assert t[j] == r[j - 1] && t[j] in r;
      }
    }
  }

  lemma {:induction false} InsertSorted(e: Entry, s: seq<Entry>)
    requires SortedByAge(s)
    ensures SortedByAge(Insert(e, s))
  {
    if s == [] {
      assert Insert(e, s) == [e];
    } else if e.1 < s[0].1 {
      forall y | y in s ensures e.1 <= y.1 {
        var k :| 0 <= k < |s| && s[k] == y;
        assert k == 0 || s[0].1 <= s[k].1;
      }
      SortedCons(e, s);
    } else {
      var tail := s[1..];
      assert SortedByAge(tail) by {
        forall i, j | 0 <= i < j < |tail| ensures tail[i].1 <= tail[j].1 {
          assert tail[i] == s[i + 1] && tail[j] == s[j + 1];
        }
      }
      InsertSorted(e, tail);
      InsertMembers(e, tail);
      forall y | y in Insert(e, tail) ensures s[0].1 <= y.1 {
        if y != e {
          var k :| 0 <= k < |tail| && tail[k] == y;
          assert s[k + 1] == y;
        }
      }
      SortedCons(s[0], Insert(e, tail));
    }
  }

  lemma {:induction false} SortByAgeCorrect(s: seq<Entry>)
    ensures multiset(SortByAge(s)) == multiset(s)
    ensures SortedByAge(SortByAge(s))
    decreases |s|
  {
    if s != [] {
      var init := s[..|s| - 1];
      SortByAgeCorrect(init);
      InsertPermutes(s[|s| - 1], SortByAge(init));
      InsertSorted(s[|s| - 1], SortByAge(init));
      assert s == init + [s[|s| - 1]];
    }
  }

  /** The terminal jobs with their creation times, in the registry's insertion order. */
  function TerminalEntries(order: seq<JobId>, jobs: map<JobId, Job>): (r: seq<Entry>)
    ensures |r| <= |order|
    ensures forall e | e in r :: e.0 in jobs && jobs[e.0].status.IsTerminal() && e.1 == jobs[e.0].createdAt
    ensures forall x | x in order && x in jobs && jobs[x].status.IsTerminal() :: (x, jobs[x].createdAt) in r
    decreases |order|
  {
    if order == [] then []
    else
      var rest := TerminalEntries(order[1..], jobs);
      var x := order[0];
      assert forall y | y in order :: y == x || y in order[1..];
      if x in jobs && jobs[x].status.IsTerminal() then [(x, jobs[x].createdAt)] + rest else rest
  }

  /** The ids of a sequence of entries. */
  function Ids(s: seq<Entry>): (r: seq<JobId>)
    ensures |r| == |s|
    ensures forall i | 0 <= i < |s| :: r[i] == s[i].0
  {
    if s == [] then [] else [s[0].0] + Ids(s[1..])
  }

  function Min(a: int, b: int): int { if a <= b then a else b }

  /** The jobs `_evict_old_jobs` deletes, in deletion order. */
  function Victims(jobs: map<JobId, Job>, order: seq<JobId>, maxJobs: int): (v: seq<JobId>)
    ensures |jobs| < maxJobs ==> v == []
    ensures |jobs| >= maxJobs ==> |v| <= |jobs| - maxJobs + 1
  {
    if |jobs| < maxJobs then []
    else
      var sorted := SortByAge(TerminalEntries(order, jobs));
      var k := |jobs| - maxJobs + 1;
      Ids(sorted[..Min(k, |sorted|)])
  }

  /**
   * Eviction removes only terminal jobs, only once the registry is full, at most
   * `len(jobs) - max_jobs + 1` of them, each no younger than any terminal job it keeps.
   */
  lemma VictimsAreOldestTerminal(jobs: map<JobId, Job>, order: seq<JobId>, maxJobs: int)
    ensures var v := Victims(jobs, order, maxJobs);
      && (|jobs| < maxJobs ==> v == [])
      && (forall x | x in v :: x in jobs && jobs[x].status.IsTerminal())
      && (|jobs| >= maxJobs ==> |v| == Min(|jobs| - maxJobs + 1, |TerminalEntries(order, jobs)|))
      && (forall x, y | x in v && y in order && y in jobs && jobs[y].status.IsTerminal() && y !in v ::
            jobs[x].createdAt <= jobs[y].createdAt)
  {
    var v := Victims(jobs, order, maxJobs);
    if |jobs| >= maxJobs {
      var sorted := SortByAge(TerminalEntries(order, jobs));
      TerminalSorted(order, jobs);
      var prefix := sorted[..Min(|jobs| - maxJobs + 1, |sorted|)];
      assert v == Ids(prefix);
      forall x | x in v ensures x in jobs && jobs[x].status.IsTerminal() {
        var i :| 0 <= i < |v| && v[i] == x;
        assert prefix[i] in sorted;
      }
      forall x, y | x in v && y in order && y in jobs && jobs[y].status.IsTerminal()
        ensures y in v || jobs[x].createdAt <= jobs[y].createdAt
      {
        var i :| 0 <= i < |v| && v[i] == x;
        var j :| 0 <= j < |sorted| && sorted[j] == (y, jobs[y].createdAt);
        assert prefix[i] == sorted[i] && sorted[i] in sorted;
        if j < |prefix| {
          assert prefix[j] == sorted[j];
          assert v[j] == prefix[j].0 == y;
        } else {
          assert sorted[i].1 <= sorted[j].1;
          assert sorted[i].0 == x && sorted[i].1 == jobs[x].createdAt;
        }
      }
    }
  }

  /** The eviction order holds exactly the terminal jobs, each with its creation time, oldest first. */
  lemma TerminalSorted(order: seq<JobId>, jobs: map<JobId, Job>)
    ensures var sorted := SortByAge(TerminalEntries(order, jobs));
      && |sorted| == |TerminalEntries(order, jobs)|
      && SortedByAge(sorted)
      && (forall e | e in sorted :: e.0 in jobs && jobs[e.0].status.IsTerminal() && e.1 == jobs[e.0].createdAt)
      && (forall x | x in order && x in jobs && jobs[x].status.IsTerminal() :: (x, jobs[x].createdAt) in sorted)
  {
    var term := TerminalEntries(order, jobs);
    var sorted := SortByAge(term);
    SortByAgeCorrect(term);
    assert |sorted| == |term| by {
      assert |multiset(sorted)| == |multiset(term)|;
    }
    forall e | e in sorted
      ensures e.0 in jobs && jobs[e.0].status.IsTerminal() && e.1 == jobs[e.0].createdAt
    {
      assert e in multiset(sorted);
    }
    forall x | x in order && x in jobs && jobs[x].status.IsTerminal()
      ensures (x, jobs[x].createdAt) in sorted
    {
      assert (x, jobs[x].createdAt) in multiset(term);
    }
  }

  /** `order` without the ids in `gone`. */
  function Without(order: seq<JobId>, gone: set<JobId>): (r: seq<JobId>)
    ensures forall x :: x in r <==> x in order && x !in gone
    ensures multiset(r) <= multiset(order)
    decreases |order|
  {
    if order == [] then []
    else
      var rest := Without(order[1..], gone);
      assert order == [order[0]] + order[1..];
      if order[0] in gone then rest else [order[0]] + rest
  }

  lemma WithoutKeepsDistinct(order: seq<JobId>, gone: set<JobId>)
    requires Distinct(order)
    ensures Distinct(Without(order, gone))
  {
    forall x | x in Without(order, gone) ensures multiset(Without(order, gone))[x] <= 1 {
      assert multiset(Without(order, gone))[x] <= multiset(order)[x];
    }
  }

  lemma {:induction false} WithoutMore(order: seq<JobId>, gone: set<JobId>, x: JobId)
    ensures Without(Without(order, gone), {x}) == Without(order, gone + {x})
    decreases |order|
  {
    if order != [] {
      WithoutMore(order[1..], gone, x);
    }
  }

  lemma AsSetGrows(s: seq<JobId>, i: nat)
    requires i < |s|
    ensures AsSet(s[..i + 1]) == AsSet(s[..i]) + {s[i]}
  {
    assert s[..i + 1] == s[..i] + [s[i]];
  }

  /** No job of `before` moved backwards in `after`, and no terminal job changed. */
  predicate AdvancedFrom(before: map<JobId, Job>, after: map<JobId, Job>) {
    forall id | id in after && id in before ::
      && Advances(before[id].status, after[id].status)
      && (before[id].status.IsTerminal() ==> after[id] == before[id])
  }

  /** Advancing twice is advancing, for the jobs kept throughout. */
  lemma AdvancedFromTrans(a: map<JobId, Job>, b: map<JobId, Job>, c: map<JobId, Job>)
    requires AdvancedFrom(a, b) && AdvancedFrom(b, c)
    requires forall id | id in a && id in c :: id in b
    ensures AdvancedFrom(a, c)
  {
  }

  lemma WithoutNothing(order: seq<JobId>)
    ensures Without(order, {}) == order
  {
  }

  lemma AppendFresh(order: seq<JobId>, id: JobId)
    requires Distinct(order) && id !in order
    ensures Distinct(order + [id])
  {
    assert multiset(order)[id] == 0;
    assert multiset(order + [id]) == multiset(order) + multiset{id};
  }

  /** The registry invariant: `order` lists each job exactly once, and each job is keyed by its id and consistent. */
  ghost predicate WellFormedRegistry(jobs: map<JobId, Job>, order: seq<JobId>) {
    && Distinct(order)
    && (forall id :: id in jobs <==> id in order)
    && (forall id | id in jobs :: jobs[id].id == id && Consistent(jobs[id]))
  }

  lemma WithoutKeepsWellFormed(jobs: map<JobId, Job>, order: seq<JobId>, gone: set<JobId>)
    requires WellFormedRegistry(jobs, order)
    ensures WellFormedRegistry(jobs - gone, Without(order, gone))
  {
    WithoutKeepsDistinct(order, gone);
  }

  /** Adding a consistent job under a fresh id, at the end of the order, keeps the registry well formed. */
  lemma AddKeepsWellFormed(jobs: map<JobId, Job>, order: seq<JobId>, job: Job)
    requires WellFormedRegistry(jobs, order) && job.id !in jobs && Consistent(job)
    ensures WellFormedRegistry(jobs[job.id := job], order + [job.id])
  {
    AppendFresh(order, job.id);
  }

  /** The deletion loop of `_evict_old_jobs`, on the registry's contents. */
  method DeleteJobs(jobs: map<JobId, Job>, order: seq<JobId>, victims: seq<JobId>)
    returns (remaining: map<JobId, Job>, kept: seq<JobId>)
    ensures remaining == jobs - AsSet(victims)
    ensures kept == Without(order, AsSet(victims))
  {
    remaining, kept := jobs, order;
    WithoutNothing(order);
    assert AsSet(victims[..0]) == {};
    for i := 0 to |victims|
      invariant remaining == jobs - AsSet(victims[..i])
      invariant kept == Without(order, AsSet(victims[..i]))
    {
      WithoutMore(order, AsSet(victims[..i]), victims[i]);
      AsSetGrows(victims, i);
      remaining := remaining - {victims[i]};
      kept := Without(kept, {victims[i]});
    }
    assert victims[..|victims|] == victims;
  }

  /**
   * `run` raises instead of returning: an exception other than TimeoutExpired
   * or FileNotFoundError, or a missing program with an empty command, whose
   * `command[0]` in the message raises in turn.
   */
  predicate RunRaises(command: seq<string>, outcome: ProcessOutcome) {
    outcome.Raised? || (outcome.NotFound? && command == [])
  }

  /** What `wait` does with one look at the registry. */
  datatype WaitStep =
    | Unknown                          // `wait` returns None
    | Finished(result: Option<ExecResult>)  // `wait` returns job.result
    | KeepPolling                      // `wait` sleeps and looks again

  class SubprocessExecutor {
    const defaultTimeout: int
    const maxOutput: int
    const maxJobs: int
    var jobs: map<JobId, Job>
    /** The insertion order of `jobs`, which a Python dict keeps. */
    var order: seq<JobId>

    ghost predicate Valid()
      reads this
    {
      WellFormedRegistry(jobs, order)
    }

    /** No job moved backwards in its lifecycle and no terminal job changed. */
    twostate predicate OnlyAdvanced()
      reads this
    {
      AdvancedFrom(old(jobs), jobs)
    }

    constructor (defaultTimeout: int, maxOutput: int, maxJobs: int)
      ensures Valid()
      ensures this.defaultTimeout == defaultTimeout && this.maxOutput == maxOutput && this.maxJobs == maxJobs
      ensures jobs == map[] && order == []
    {
      this.defaultTimeout := defaultTimeout;
      this.maxOutput := maxOutput;
      this.maxJobs := maxJobs;
      jobs := map[];
      order := [];
    }

    /** `run`: the ExecResult for one process outcome; a None or 0 timeout or cap falls back to the executor's. */
    function Run(command: seq<string>, outcome: ProcessOutcome, timeoutS: Option<int>, cap: Option<int>, elapsed: nat): (r: ExecResult)
      requires !outcome.Raised?
      requires outcome.NotFound? ==> command != []
      ensures r == Shape(command, outcome, OrDefault(timeoutS, defaultTimeout), OrDefault(cap, maxOutput), elapsed)
      ensures (cap == None || cap == Some(0)) && maxOutput >= 0 ==> |r.stdout| <= maxOutput
      ensures cap.Some? && cap.value > 0 ==> |r.stdout| <= cap.value
    {
      Shape(command, outcome, OrDefault(timeoutS, defaultTimeout), OrDefault(cap, maxOutput), elapsed)
    }

    /** `get_job`. */
    function GetJob(id: JobId): (r: Option<Job>)
      reads this
      ensures r.Some? <==> id in jobs
      ensures r.Some? ==> r.value == jobs[id]
    {
      if id in jobs then Some(jobs[id]) else None
    }

    /** One iteration of `wait`'s polling loop. */
    function Poll(id: JobId): (r: WaitStep)
      reads this
      ensures id !in jobs <==> r == Unknown
      ensures r.Finished? <==> id in jobs && jobs[id].status.IsTerminal()
      ensures Valid() && id in jobs && jobs[id].status.Cancelled? ==> r == Finished(None)
      ensures Valid() && r.Finished? && !jobs[id].status.Cancelled? ==> r.result.Some?
    {
      if id !in jobs then Unknown
      else if jobs[id].status.IsTerminal() then Finished(jobs[id].result)
      else KeepPolling
    }

    /** `_evict_old_jobs`, run under the lock by `submit`. */
    method EvictOldJobs() returns (victims: seq<JobId>)
      requires Valid()
      modifies this
      ensures Valid() && OnlyAdvanced()
      ensures victims == Victims(old(jobs), old(order), maxJobs)
      ensures jobs == old(jobs) - AsSet(victims)
      ensures order == Without(old(order), AsSet(victims))
    {
      victims := Victims(jobs, order, maxJobs);
      if |jobs| < maxJobs {
        assert AsSet(victims) == {};
        assert jobs - {} == jobs;
        WithoutNothing(order);
        return;
      }
      var remaining, kept := DeleteJobs(jobs, order, victims);
      WithoutKeepsWellFormed(jobs, order, AsSet(victims));
      jobs, order := remaining, kept;
    }

    /** `submit`: eviction, then a new Pending job under `id` (a fresh uuid in the source). */
    method Submit(id: JobId, command: seq<string>, inputData: Option<string>, timeoutS: Option<int>, now: nat)
      requires Valid() && id !in jobs
      modifies this
      ensures Valid() && OnlyAdvanced()
      ensures var gone := AsSet(Victims(old(jobs), old(order), maxJobs));
        && jobs == (old(jobs) - gone)[id := Job(id, command, Pending, None, inputData, now, None, None,
                                                OrDefault(timeoutS, defaultTimeout), maxOutput)]
        && order == Without(old(order), gone) + [id]
    {
      var job := Job(id, command, Pending, None, inputData, now, None, None, OrDefault(timeoutS, defaultTimeout), maxOutput);
      var victims := EvictOldJobs();
      assert id !in jobs;
      AddKeepsWellFormed(jobs, order, job);
      jobs := jobs[id := job];
      order := order + [id];
    }

    /** `cancel`: only a Pending job can be cancelled. */
    method Cancel(id: JobId) returns (cancelled: bool)
      requires Valid()
      modifies this
      ensures Valid() && OnlyAdvanced()
      ensures cancelled <==> id in old(jobs) && old(jobs)[id].status.Pending?
      ensures jobs == if cancelled then old(jobs)[id := old(jobs)[id].(status := Cancelled)] else old(jobs)
      ensures order == old(order)
    {
      cancelled := id in jobs && jobs[id].status.Pending?;
      if cancelled {
        jobs := jobs[id := jobs[id].(status := Cancelled)];
      }
    }

    /** The first locked block of `_execute_job`: a cancelled job is left alone, any other starts running. */
    method StartJob(id: JobId, now: nat) returns (started: bool)
      requires Valid()
      requires id in jobs ==> jobs[id].status.Pending? || jobs[id].status.Cancelled?
      modifies this
      ensures Valid() && OnlyAdvanced()
      ensures started <==> id in old(jobs) && old(jobs)[id].status.Pending?
      ensures jobs == if started then old(jobs)[id := old(jobs)[id].(status := Running, startedAt := Some(now))] else old(jobs)
      ensures order == old(order)
    {
      started := id in jobs && !jobs[id].status.Cancelled?;
      if started {
        jobs := jobs[id := jobs[id].(status := Running, startedAt := Some(now))];
      }
    }

    /** The second locked block of `_execute_job`: record the result and the final status. */
    method FinishJob(id: JobId, result: ExecResult, now: nat)
      requires Valid() && id in jobs && jobs[id].status.Running?
      modifies this
      ensures Valid() && OnlyAdvanced()
      ensures jobs == old(jobs)[id := old(jobs)[id].(result := Some(result), completedAt := Some(now), status := FinalStatus(result))]
      ensures order == old(order)
    {
      jobs := jobs[id := jobs[id].(result := Some(result), completedAt := Some(now), status := FinalStatus(result))];
    }

    /**
     * `_execute_job` with the process outcome and the clock readings as
     * parameters. When `run` raises, the thread dies between the two locked
     * blocks: the job stays Running with no result, and `wait` polls forever.
     */
    method ExecuteJob(id: JobId, outcome: ProcessOutcome, startedAt: nat, elapsed: nat, completedAt: nat) returns (ran: bool)
      requires Valid()
      requires id in jobs ==> jobs[id].status.Pending? || jobs[id].status.Cancelled?
      modifies this
      ensures Valid() && OnlyAdvanced()
      ensures ran <==> id in old(jobs) && old(jobs)[id].status.Pending?
      ensures !ran ==> jobs == old(jobs)
      ensures ran && !RunRaises(old(jobs)[id].command, outcome) ==>
        var j := old(jobs)[id];
        var r := Run(j.command, outcome, Some(j.timeoutS), Some(j.maxOutput), elapsed);
        jobs == old(jobs)[id := j.(status := FinalStatus(r), result := Some(r),
                                   startedAt := Some(startedAt), completedAt := Some(completedAt))]
      ensures ran && RunRaises(old(jobs)[id].command, outcome) ==>
        jobs == old(jobs)[id := old(jobs)[id].(status := Running, startedAt := Some(startedAt))]
      ensures ran && RunRaises(old(jobs)[id].command, outcome) ==> Poll(id) == KeepPolling
      ensures order == old(order)
    {
      ghost var before := jobs;
      ran := StartJob(id, startedAt);
      if ran {
        ghost var mid := jobs;
        assert mid[id] == before[id].(status := Running, startedAt := Some(startedAt));
        RunStartedJob(id, outcome, elapsed, completedAt);
        AdvancedFromTrans(before, mid, jobs);
      }
    }

    /** The part of `_execute_job` after the job is marked Running: nothing more happens when `run` raises. */
    method RunStartedJob(id: JobId, outcome: ProcessOutcome, elapsed: nat, completedAt: nat)
      requires Valid() && id in jobs && jobs[id].status.Running?
      modifies this
      ensures Valid() && OnlyAdvanced()
      ensures RunRaises(old(jobs)[id].command, outcome) ==> jobs == old(jobs)
      ensures !RunRaises(old(jobs)[id].command, outcome) ==>
        var j := old(jobs)[id];
        var r := Run(j.command, outcome, Some(j.timeoutS), Some(j.maxOutput), elapsed);
        jobs == old(jobs)[id := j.(result := Some(r), completedAt := Some(completedAt), status := FinalStatus(r))]
      ensures order == old(order)
    {
      var j := jobs[id];
      if RunRaises(j.command, outcome) {
        return;
      }
      var r := Run(j.command, outcome, Some(j.timeoutS), Some(j.maxOutput), elapsed);
      FinishJob(id, r, completedAt);
    }
  }
}
