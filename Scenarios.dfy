/**
 * Short runs of `semaphore_p`, `semaphore_v` and `spawn_thread` on any
 * state: acquire and release pairing, hand-over to a blocked thread,
 * last-in-first-out wake order, and what a spawned thread does first.
 */
module Scenarios {
  import opened Instructions
  import opened Semantics
  import opened Effects

  /** A thread that acquires and then releases a free semaphore of count 1 leaves it as it found it. */
  lemma AcquireReleaseRestores(st: State, a: nat, name: string)
    requires Runs(st, a) && name in st.sems && st.sems[name].count == 1
    ensures var st1 := Exec(st, a, SemaphoreP(name));
      && st1.sems[name].count == 0 && st1.threads[a].runnable == st.threads[a].runnable
      && CanExec(st1, a, SemaphoreV(name))
      && var st2 := Exec(st1, a, SemaphoreV(name));
         st2.sems[name] == st.sems[name] && st2.threads[a].runnable == st.threads[a].runnable
  {
    PEffect(st, a, name);
    var st1 := Exec(st, a, SemaphoreP(name));
    VEffect(st1, a, name);
  }

  /**
   * With count 1, the first of two threads to acquire goes on, the second
   * blocks; the first one's release wakes exactly the second.
   */
  lemma SecondAcquirerWaitsForRelease(st: State, a: nat, b: nat, name: string)
    requires Runs(st, a) && Runs(st, b) && a != b
    requires name in st.sems && st.sems[name].count == 1 && st.sems[name].waiting == []
    requires st.threads[a].runnable && st.threads[b].runnable
    ensures var st1 := Exec(st, a, SemaphoreP(name));
      && st1.sems[name].count == 0 && st1.threads[a].runnable && st1.sems[name].waiting == []
      && var st2 := Exec(st1, b, SemaphoreP(name));
      && st2.sems[name].count == -1 && st2.threads[a].runnable && !st2.threads[b].runnable
      && st2.sems[name].waiting == [b]
      && CanExec(st2, a, SemaphoreV(name))
      && var st3 := Exec(st2, a, SemaphoreV(name));
      && st3.sems[name].count == 0 && st3.sems[name].waiting == []
      && st3.threads[a].runnable && st3.threads[b].runnable
  {
    PEffect(st, a, name);
    var st1 := Exec(st, a, SemaphoreP(name));
    PEffect(st1, b, name);
    var st2 := Exec(st1, b, SemaphoreP(name));
    VEffect(st2, a, name);
  }

  /**
   * Two threads that block in turn on a semaphore of count 0 are woken in
   * reverse order: one release wakes the one that blocked last.
   */
  lemma LastBlockedWakesFirst(st: State, t1: nat, t2: nat, c: nat, name: string)
    requires Runs(st, t1) && Runs(st, t2) && Runs(st, c)
    requires t1 != t2 && t1 != c && t2 != c
    requires name in st.sems && st.sems[name].count == 0 && st.sems[name].waiting == []
    ensures var st1 := Exec(st, t1, SemaphoreP(name));
      var st2 := Exec(st1, t2, SemaphoreP(name));
      && st2.sems[name].waiting == [t1, t2] && !st2.threads[t1].runnable && !st2.threads[t2].runnable
      && CanExec(st2, c, SemaphoreV(name))
      && var st3 := Exec(st2, c, SemaphoreV(name));
      && st3.threads[t2].runnable && !st3.threads[t1].runnable
      && st3.sems[name].waiting == [t1] && st3.sems[name].count == -1
  {
    PEffect(st, t1, name);
    var st1 := Exec(st, t1, SemaphoreP(name));
    PEffect(st1, t2, name);
    var st2 := Exec(st1, t2, SemaphoreP(name));
    assert st2.sems[name].waiting == [t1, t2];
    VEffect(st2, c, name);
  }

  /** A thread spawned on an installed, non-empty program is ready, and its first tick runs instruction 0. */
  lemma SpawnThenRun(st: State, tid: nat, programName: string)
    requires Runs(st, tid) && programName in st.programs && |st.programs[programName]| > 0
    ensures var r := Exec(st, tid, SpawnThread(programName));
      var k := |st.threads|;
      var first := st.programs[programName][0];
      && Runs(r, k) && Ready(r, k) && r.threads[k].ip == 0
      && (CanExec(r, k, first) ==> TickDefined(r, k) && Tick(r, k) == Exec(r, k, first))
  {
    SpawnEffect(st, tid, programName);
  }

  /**
   * Spawning a program that is not installed still appends a thread, but
   * that thread, being runnable, cannot be ticked: the length of its
   * missing program would be read.
   */
  lemma SpawnUnknownProgram(st: State, tid: nat, programName: string)
    requires Runs(st, tid) && programName !in st.programs
    ensures var r := Exec(st, tid, SpawnThread(programName));
      && |r.threads| == |st.threads| + 1
      && r.threads[|st.threads|].programName == programName
      && !TickDefined(r, |st.threads|)
  {
    SpawnEffect(st, tid, programName);
  }

  /**
   * A blocked thread is never run, so ticking it changes nothing even when
   * its program is not installed.
   */
  lemma BlockedTickIsNoop(st: State, i: nat)
    requires i < |st.threads| && !st.threads[i].runnable
    ensures TickDefined(st, i) && Tick(st, i) == st
  {
  }
}
