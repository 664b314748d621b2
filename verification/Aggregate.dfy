/** The validate aggregator: a bounded worker pool as a transition system, and the loop that drives it. */
module Aggregate {
  import opened Wrappers

  /* ---- One family ---- */

  /** What happens when a family is executed: no script, no process, or a process with a return code. */
  datatype Attempt = ScriptMissing | SpawnFailed | Exited(returncode: int)

  function RunFamily(a: Attempt): (rc: int)
    ensures rc == 0 <==> a == Exited(0)
    ensures !a.Exited? ==> rc == 2
  {
    match a
    case Exited(code) => code
    case _ => 2
  }

  /* ---- The pool ---- */

  /** Families are numbered in submission order. The pool starts them first in, first out; `collected` is the order in
      which finished futures were handed to the main thread. */
  datatype State = State(submitted: nat, started: nat, running: set<nat>, done: set<nat>,
                         collected: seq<nat>, failures: seq<nat>)

  datatype Event = Submit | Start | Finish(family: nat) | Collect(family: nat)

  const INITIAL := State(0, 0, {}, {}, [], [])

  /** When a step may happen: the main thread submits everything before it collects anything. */
  predicate Enabled(s: State, e: Event, n: nat, jobs: nat) {
    match e
    case Submit => s.submitted < n
    case Start => s.started < s.submitted && |s.running| < jobs
    case Finish(i) => i in s.running
    case Collect(i) => s.submitted == n && i in s.done
  }

  function Step(s: State, e: Event, attempts: seq<Attempt>): State {
    match e
    case Submit => s.(submitted := s.submitted + 1)
    case Start => s.(started := s.started + 1, running := s.running + {s.started})
    case Finish(i) => s.(running := s.running - {i}, done := s.done + {i})
    case Collect(i) =>
      s.(done := s.done - {i}, collected := s.collected + [i],
         failures := if i < |attempts| && RunFamily(attempts[i]) != 0 then s.failures + [i] else s.failures)
  }

  /** The state after a schedule, if every step of it was enabled. */
  function Run(events: seq<Event>, attempts: seq<Attempt>, jobs: nat): Option<State> {
    if events == [] then Some(INITIAL)
    else
      match Run(events[..|events| - 1], attempts, jobs)
      case None => None
      case Some(s) =>
        if Enabled(s, events[|events| - 1], |attempts|, jobs) then Some(Step(s, events[|events| - 1], attempts)) else None
  }

  predicate Finished(s: State, n: nat) {
    |s.collected| == n
  }

  /* ---- What every reachable state keeps ---- */

  function Range(n: nat): (r: set<nat>)
    ensures |r| == n && forall i: nat :: i in r <==> i < n
  {
    if n == 0 then {} else Range(n - 1) + {n - 1}
  }

  /** The families with a non-zero return code, in the order collected. */
  function Failed(order: seq<nat>, attempts: seq<Attempt>): seq<nat> {
    if order == [] then []
    else
      var before, i := Failed(order[..|order| - 1], attempts), order[|order| - 1];
      if i < |attempts| && RunFamily(attempts[i]) != 0 then before + [i] else before
  }

  ghost predicate Distinct(s: seq<nat>) {
    forall i, j :: 0 <= i < j < |s| ==> s[i] != s[j]
  }

  ghost function Elements(s: seq<nat>): set<nat> {
    set i | i in s
  }

  /** The started families are split between the workers, the finished futures and the collected ones. */
  ghost predicate Split(started: nat, running: set<nat>, done: set<nat>, collected: set<nat>) {
    && running + done + collected == Range(started)
    && running !! done && running !! collected && done !! collected
  }

  ghost predicate Inv(s: State, attempts: seq<Attempt>, jobs: nat) {
    && s.started <= s.submitted <= |attempts|
    && |s.running| <= jobs
    && Split(s.started, s.running, s.done, Elements(s.collected)) && Distinct(s.collected)
    && (s.collected != [] ==> s.submitted == |attempts|)
    && s.failures == Failed(s.collected, attempts)
  }

  lemma StartKeepsSplit(started: nat, running: set<nat>, done: set<nat>, collected: set<nat>)
    requires Split(started, running, done, collected)
    ensures Split(started + 1, running + {started}, done, collected)
  {
    assert started !in Range(started);
    assert Range(started + 1) == Range(started) + {started};
  }

  lemma FinishKeepsSplit(started: nat, running: set<nat>, done: set<nat>, collected: set<nat>, i: nat)
    requires Split(started, running, done, collected) && i in running
    ensures Split(started, running - {i}, done + {i}, collected)
  {
    assert (running - {i}) + (done + {i}) == running + done;
  }

  lemma CollectKeepsSplit(started: nat, running: set<nat>, done: set<nat>, collected: set<nat>, i: nat)
    requires Split(started, running, done, collected) && i in done
    ensures Split(started, running, done - {i}, collected + {i})
  {
    assert i in running + done + collected && i !in running && i !in collected;
    assert (done - {i}) + (collected + {i}) == done + collected;
  }

  lemma ElementsSnoc(s: seq<nat>, i: nat)
    ensures Elements(s + [i]) == Elements(s) + {i}
    ensures Distinct(s) && i !in Elements(s) ==> Distinct(s + [i])
  {
  }

  lemma StartKeepsInv(s: State, attempts: seq<Attempt>, jobs: nat)
    requires Inv(s, attempts, jobs) && Enabled(s, Start, |attempts|, jobs)
    ensures Inv(Step(s, Start, attempts), attempts, jobs)
  {
    StartKeepsSplit(s.started, s.running, s.done, Elements(s.collected));
    assert s.started !in Range(s.started);
    assert |s.running + {s.started}| == |s.running| + 1;
  }

  lemma FinishKeepsInv(s: State, i: nat, attempts: seq<Attempt>, jobs: nat)
    requires Inv(s, attempts, jobs) && Enabled(s, Finish(i), |attempts|, jobs)
    ensures Inv(Step(s, Finish(i), attempts), attempts, jobs)
  {
    FinishKeepsSplit(s.started, s.running, s.done, Elements(s.collected), i);
    assert |s.running - {i}| <= |s.running|;
  }

  lemma CollectKeepsInv(s: State, i: nat, attempts: seq<Attempt>, jobs: nat)
    requires Inv(s, attempts, jobs) && Enabled(s, Collect(i), |attempts|, jobs)
    ensures Inv(Step(s, Collect(i), attempts), attempts, jobs)
  {
    CollectKeepsSplit(s.started, s.running, s.done, Elements(s.collected), i);
    ElementsSnoc(s.collected, i);
  }

  lemma StepKeepsInv(s: State, e: Event, attempts: seq<Attempt>, jobs: nat)
    requires Inv(s, attempts, jobs) && Enabled(s, e, |attempts|, jobs)
    ensures Inv(Step(s, e, attempts), attempts, jobs)
  {
    match e
    case Submit =>
    case Start => StartKeepsInv(s, attempts, jobs);
    case Finish(i) => FinishKeepsInv(s, i, attempts, jobs);
    case Collect(i) => CollectKeepsInv(s, i, attempts, jobs);
  }

  lemma {:induction false} RunKeepsInv(events: seq<Event>, attempts: seq<Attempt>, jobs: nat)
    requires Run(events, attempts, jobs).Some?
    ensures Inv(Run(events, attempts, jobs).value, attempts, jobs)
  {
    if events == [] {
    } else {
      var n := |events| - 1;
      RunKeepsInv(events[..n], attempts, jobs);
      StepKeepsInv(Run(events[..n], attempts, jobs).value, events[n], attempts, jobs);
    }
  }

  /** In every reachable state at most `jobs` families run, no family was collected twice, and a collected family is
      neither running nor waiting to be collected again. */
  lemma NeverTwice(events: seq<Event>, attempts: seq<Attempt>, jobs: nat)
    requires Run(events, attempts, jobs).Some?
    ensures var s := Run(events, attempts, jobs).value;
            && |s.running| <= jobs && Distinct(s.collected)
            && (forall i :: i in s.collected ==> i < |attempts| && i !in s.running && i !in s.done)
  {
    RunKeepsInv(events, attempts, jobs);
    var s := Run(events, attempts, jobs).value;
    forall i | i in s.collected ensures i < |attempts| && i !in s.running && i !in s.done {
      assert i in Elements(s.collected);
      assert i in Range(s.started);
    }
  }

  /* ---- Progress ---- */

  /** Four steps per family, minus those taken. */
  function Remaining(s: State, n: nat): int {
    4 * n - s.submitted - s.started - (|s.done| + |s.collected|) - |s.collected|
  }

  lemma {:induction false} DistinctSize(s: seq<nat>)
    requires Distinct(s)
    ensures |Elements(s)| == |s|
  {
    if s == [] {
    } else {
      var n := |s| - 1;
      DistinctSize(s[..n]);
      assert s == s[..n] + [s[n]];
      assert Elements(s) == Elements(s[..n]) + {s[n]};
    }
  }

  lemma Sizes(s: State, attempts: seq<Attempt>, jobs: nat)
    requires Inv(s, attempts, jobs)
    ensures s.started == |s.running| + |s.done| + |s.collected|
  {
    DistinctSize(s.collected);
    assert |s.running + s.done + Elements(s.collected)| == |s.running| + |s.done| + |Elements(s.collected)|;
  }

  /** While something is uncollected and there is a worker, some step is possible. */
  lemma NeverStuck(s: State, attempts: seq<Attempt>, jobs: nat) returns (e: Event)
    requires Inv(s, attempts, jobs) && !Finished(s, |attempts|) && jobs >= 1
    ensures Enabled(s, e, |attempts|, jobs)
  {
    Sizes(s, attempts, jobs);
    if s.submitted < |attempts| {
      e := Submit;
    } else if i :| i in s.running {
      e := Finish(i);
    } else if i :| i in s.done {
      e := Collect(i);
    } else {
      e := Start;
    }
  }

  lemma StepTakesOne(s: State, e: Event, attempts: seq<Attempt>, jobs: nat)
    requires Inv(s, attempts, jobs) && Enabled(s, e, |attempts|, jobs)
    ensures Remaining(Step(s, e, attempts), |attempts|) == Remaining(s, |attempts|) - 1
  {
    match e
    case Finish(i) => assert i !in s.done;
    case _ =>
  }

  lemma {:induction false} RunLength(events: seq<Event>, attempts: seq<Attempt>, jobs: nat)
    requires Run(events, attempts, jobs).Some?
    ensures Remaining(Run(events, attempts, jobs).value, |attempts|) == 4 * |attempts| - |events|
  {
    if events == [] {
    } else {
      var n := |events| - 1;
      RunLength(events[..n], attempts, jobs);
      RunKeepsInv(events[..n], attempts, jobs);
      StepTakesOne(Run(events[..n], attempts, jobs).value, events[n], attempts, jobs);
    }
  }

  /** No schedule takes more than four steps per family, and those that take exactly that many are the finished ones. */
  lemma RunsEnd(events: seq<Event>, attempts: seq<Attempt>, jobs: nat)
    requires Run(events, attempts, jobs).Some?
    ensures |events| <= 4 * |attempts|
    ensures Finished(Run(events, attempts, jobs).value, |attempts|) <==> |events| == 4 * |attempts|
  {
    var s := Run(events, attempts, jobs).value;
    RunLength(events, attempts, jobs);
    RunKeepsInv(events, attempts, jobs);
    Sizes(s, attempts, jobs);
  }

  /* ---- The verdict ---- */

  predicate AllPass(attempts: seq<Attempt>) {
    forall i :: 0 <= i < |attempts| ==> attempts[i] == Exited(0)
  }

  lemma {:induction false} FailedMembers(order: seq<nat>, attempts: seq<Attempt>)
    ensures forall i :: i in Failed(order, attempts) <==> i in order && i < |attempts| && RunFamily(attempts[i]) != 0
  {
    if order == [] {
    } else {
      var n := |order| - 1;
      FailedMembers(order[..n], attempts);
      assert order == order[..n] + [order[n]];
    }
  }

  /** However a finished run was scheduled: every family was collected once, the failures are those with a non-zero
      return code, and there are none exactly when every family exited with zero. */
  lemma VerdictIgnoresSchedule(events: seq<Event>, attempts: seq<Attempt>, jobs: nat)
    requires Run(events, attempts, jobs).Some? && Finished(Run(events, attempts, jobs).value, |attempts|)
    ensures var s := Run(events, attempts, jobs).value;
            && Distinct(s.collected) && Elements(s.collected) == Range(|attempts|)
            && (forall i: nat :: i in s.failures <==> i < |attempts| && RunFamily(attempts[i]) != 0)
            && (|s.failures| == 0 <==> AllPass(attempts))
  {
    RunKeepsInv(events, attempts, jobs);
    var s := Run(events, attempts, jobs).value;
    FinishedState(s, attempts, jobs);
  }

  lemma FinishedState(s: State, attempts: seq<Attempt>, jobs: nat)
    requires Inv(s, attempts, jobs) && Finished(s, |attempts|)
    ensures Elements(s.collected) == Range(|attempts|)
    ensures forall i: nat :: i in s.failures <==> i < |attempts| && RunFamily(attempts[i]) != 0
    ensures |s.failures| == 0 <==> AllPass(attempts)
  {
    AllCollected(s, attempts, jobs);
    EveryFailure(s.collected, attempts);
    NoFailureIff(s.failures, attempts);
  }

  lemma EveryFailure(order: seq<nat>, attempts: seq<Attempt>)
    requires Elements(order) == Range(|attempts|)
    ensures forall i: nat :: i in Failed(order, attempts) <==> i < |attempts| && RunFamily(attempts[i]) != 0
  {
    forall i: nat ensures i in order <==> i < |attempts| {
      assert i in Elements(order) <==> i in Range(|attempts|);
    }
    FailedMembers(order, attempts);
  }

  lemma NoFailureIff(failures: seq<nat>, attempts: seq<Attempt>)
    requires forall i: nat :: i in failures <==> i < |attempts| && RunFamily(attempts[i]) != 0
    ensures |failures| == 0 <==> AllPass(attempts)
  {
    if |failures| == 0 {
      forall i | 0 <= i < |attempts| ensures attempts[i] == Exited(0) {
        assert i !in failures;
      }
    } else {
      assert failures[0] in failures;
    }
  }

  lemma AllCollected(s: State, attempts: seq<Attempt>, jobs: nat)
    requires Inv(s, attempts, jobs) && Finished(s, |attempts|)
    ensures Elements(s.collected) == Range(|attempts|)
  {
    Sizes(s, attempts, jobs);
    assert s.running == {} && s.done == {} && s.started == |attempts|;
    assert s.running + s.done + Elements(s.collected) == Elements(s.collected);
  }

  /** One more step of a run. */
  lemma RunStep(events: seq<Event>, e: Event, s: State, attempts: seq<Attempt>, jobs: nat)
    requires Run(events, attempts, jobs) == Some(s) && Inv(s, attempts, jobs) && Enabled(s, e, |attempts|, jobs)
    ensures var next := Step(s, e, attempts);
            && Run(events + [e], attempts, jobs) == Some(next) && Inv(next, attempts, jobs)
            && Remaining(next, |attempts|) == Remaining(s, |attempts|) - 1
  {
    assert (events + [e])[..|events|] == events;
    StepKeepsInv(s, e, attempts, jobs);
    StepTakesOne(s, e, attempts, jobs);
  }

  lemma RemainingNonNegative(s: State, attempts: seq<Attempt>, jobs: nat)
    requires Inv(s, attempts, jobs)
    ensures Remaining(s, |attempts|) >= 0
  {
    Sizes(s, attempts, jobs);
  }

  /** The aggregator itself: any enabled step may come next. The guarded choice is never without an alternative. */
  method RunFamilies(attempts: seq<Attempt>, jobs: nat) returns (ok: bool, ghost schedule: seq<Event>)
    requires jobs >= 1
    ensures ok <==> AllPass(attempts)
    ensures Run(schedule, attempts, jobs).Some? && |schedule| == 4 * |attempts|
  {
    var n := |attempts|;
    var s := INITIAL;
    schedule := [];
    while !Finished(s, n)
      invariant Run(schedule, attempts, jobs) == Some(s) && Inv(s, attempts, jobs)
      decreases Remaining(s, n)
    {
      ghost var possible := NeverStuck(s, attempts, jobs);
      RemainingNonNegative(s, attempts, jobs);
      var e: Event;
      if {
        case s.submitted < n => e := Submit;
        case s.started < s.submitted && |s.running| < jobs => e := Start;
        case s.running != {} => var i :| i in s.running; e := Finish(i);
        case s.submitted == n && s.done != {} => var i :| i in s.done; e := Collect(i);
      }
      RunStep(schedule, e, s, attempts, jobs);
      s, schedule := Step(s, e, attempts), schedule + [e];
    }
    RunsEnd(schedule, attempts, jobs);
    FinishedState(s, attempts, jobs);
    ok := |s.failures| == 0;
  }

  /* ---- The command ---- */

  /** `attempts` has `None` for a malformed family string. */
  function ExitCode(jobs: int, families: seq<Option<Attempt>>): int {
    if jobs < 1 then 2
    else if families == [] then 2
    else if exists i :: 0 <= i < |families| && families[i].None? then 2
    else if forall i :: 0 <= i < |families| ==> families[i] == Some(Exited(0)) then 0
    else 1
  }

  method Command(jobs: int, families: seq<Option<Attempt>>) returns (code: int)
    ensures code == ExitCode(jobs, families)
  {
    if jobs < 1 {
      return 2;
    }
    if families == [] {
      return 2;
    }
    var attempts: seq<Attempt> := [];
    for i := 0 to |families|
      invariant |attempts| == i && forall k :: 0 <= k < i ==> families[k] == Some(attempts[k])
    {
      if families[i].None? {
        return 2;
      }
      attempts := attempts + [families[i].value];
    }
    var ok, _ := RunFamilies(attempts, jobs);
    return if ok then 0 else 1;
  }
}
