/**
 * What the semaphore `s` is for: the two workers bracket their `print`
 * with `semaphore_p "s"` and `semaphore_v "s"`, so at most one of them is
 * inside at a time -- on every run from `M` in which `start` does not
 * re-create `s` while a worker holds it. `Boot.RemakeAdmitsTwoWorkers`
 * shows that this one exception is real.
 */
module Exclusion {
  import opened Instructions
  import opened Semantics
  import opened Effects
  import opened Invariants
  import opened Boot

  /** Thread `k` is a worker stopped just past its `semaphore_p`. */
  predicate WaitsAtEntry(st: State, k: nat) {
    && k < |st.threads|
    && st.threads[k].programName in {"program0", "program1"}
    && st.threads[k].ip == 1
  }

  /** Worker `h` is inside its critical section, and no other thread is. */
  ghost predicate SoleHolder(st: State, h: nat) {
    InCriticalSection(st, h) && forall j :: InCriticalSection(st, j) ==> j == h
  }

  /**
   * The count of `s` accounts for the workers: it is 1 with nobody inside,
   * or below 1 with exactly one worker inside; and whoever waits on `s`
   * is a worker stopped at its critical section's entry.
   */
  ghost predicate LockAccounted(st: State)
    requires "s" in st.sems
  {
    var s := st.sems["s"];
    && s.count <= 1
    && (s.count == 1 ==> forall j :: !InCriticalSection(st, j))
    && (s.count < 1 ==> exists h :: SoleHolder(st, h))
    && forall k :: k in s.waiting ==> WaitsAtEntry(st, k)
  }

  ghost predicate Exclusive(st: State) {
    BootInvariant(st) && ("s" in st.sems ==> LockAccounted(st))
  }

  /** Thread `i` is about to run `semaphore_make` while `s` exists with a count below 1. */
  predicate RemakesHeldLock(st: State, i: nat) {
    && Runs(st, i)
    && Ready(st, i)
    && 0 <= st.threads[i].ip
    && ProgramOf(st, i)[st.threads[i].ip].SemaphoreMake?
    && "s" in st.sems
    && st.sems["s"].count < 1
  }

  /** Under the accounting, two workers inside their critical sections are the same thread. */
  lemma AtMostOneInside(st: State, j: nat, k: nat)
    requires Exclusive(st) && InCriticalSection(st, j) && InCriticalSection(st, k)
    ensures j == k
  {
    assert "s" in st.sems;
    assert st.sems["s"].count < 1;
    var h :| SoleHolder(st, h);
  }

  /** A step that keeps `s`, who is inside, and every waiter's place keeps the accounting. */
  lemma SameInsideKeepsAccounted(st: State, r: State)
    requires "s" in st.sems && LockAccounted(st) && r.sems == st.sems
    requires forall j :: InCriticalSection(r, j) <==> InCriticalSection(st, j)
    requires forall k :: k in st.sems["s"].waiting ==> WaitsAtEntry(r, k)
    ensures LockAccounted(r)
  {
    if st.sems["s"].count < 1 {
      var h :| SoleHolder(st, h);
      assert SoleHolder(r, h);
    }
  }

  /** Threads other than `i` keep their places, and threads added start at instruction 0. */
  lemma InsideFrame(st: State, r: State, i: nat)
    requires OthersUnchanged(st, r, {i})
    requires forall j :: |st.threads| <= j < |r.threads| ==> r.threads[j].ip == 0
    ensures forall j :: j != i ==> (InCriticalSection(r, j) <==> InCriticalSection(st, j))
    ensures forall k :: k != i ==> (WaitsAtEntry(r, k) <==> WaitsAtEntry(st, k))
  {
  }

  /** Every step of `start` keeps the accounting, except re-creating `s` while it is held. */
  lemma StartStepKeeps(st: State, i: nat)
    requires Exclusive(st) && Runs(st, i) && Ready(st, i) && !RemakesHeldLock(st, i)
    requires st.threads[i].programName == "start"
    ensures TickDefined(st, i) && Exclusive(Tick(st, i))
  {
    BootTickSafe(st, i);
    var r := Tick(st, i);
    var k := st.threads[i].ip;
    assert IpInBounds(st.programs, st.threads[i]);
    assert ProgramOf(st, i) == StartProgram;
    assert forall w :: "s" in st.sems && w in st.sems["s"].waiting ==> Blocked(st, w);
    if k == 0 {
      MakeEffect(st, i, "s", 1);
      InsideFrame(st, r, i);
      assert forall j :: !InCriticalSection(st, j);
      assert forall j :: !InCriticalSection(r, j);
    } else {
      if k == 1 || k == 2 {
        SpawnEffect(st, i, StartProgram[k].programName);
      } else if k == 3 {
        PrintEffect(st, i, "started!");
      } else {
        SetIpGuard(st, i, 0);
      }
      InsideFrame(st, r, i);
      if "s" in st.sems {
        SameInsideKeepsAccounted(st, r);
      }
    }
  }

  /** A worker's `semaphore_p`: it enters when the count was 1 and waits at the entry otherwise. */
  lemma AcquireKeeps(st: State, i: nat)
    requires Exclusive(st) && Runs(st, i) && Ready(st, i)
    requires st.threads[i].programName in {"program0", "program1"} && st.threads[i].ip == 0
    ensures TickDefined(st, i) && Exclusive(Tick(st, i))
  {
    BootTickSafe(st, i);
    var r := Tick(st, i);
    assert "s" in st.sems;
    var s := st.sems["s"];
    PEffect(st, i, "s");
    InsideFrame(st, r, i);
    assert forall w :: w in s.waiting ==> Blocked(st, w);
    assert !InCriticalSection(st, i);
    if s.count == 1 {
      assert SoleHolder(r, i);
    } else {
      var h :| SoleHolder(st, h);
      assert SoleHolder(r, h);
    }
  }

  /** The worker inside prints and stays inside. */
  lemma InsidePrintKeeps(st: State, i: nat)
    requires Exclusive(st) && Runs(st, i) && Ready(st, i)
    requires st.threads[i].programName in {"program0", "program1"} && st.threads[i].ip == 1
    ensures TickDefined(st, i) && Exclusive(Tick(st, i))
  {
    BootTickSafe(st, i);
    var r := Tick(st, i);
    assert "s" in st.sems;
    var s := st.sems["s"];
    PrintEffect(st, i, ProgramOf(st, i)[1].text);
    InsideFrame(st, r, i);
    assert forall w :: w in s.waiting ==> Blocked(st, w);
    assert InCriticalSection(st, i) && InCriticalSection(r, i);
    assert SoleHolder(st, i);
    assert SoleHolder(r, i);
  }

  /** The worker inside releases `s` with somebody waiting: the worker that waited last enters in its place. */
  lemma ReleaseWakesKeeps(st: State, i: nat)
    requires Exclusive(st) && Runs(st, i) && Ready(st, i)
    requires st.threads[i].programName in {"program0", "program1"} && st.threads[i].ip == 2
    requires "s" in st.sems && st.sems["s"].count < 0
    ensures TickDefined(st, i) && Exclusive(Tick(st, i))
  {
    BootTickSafe(st, i);
    var r := Tick(st, i);
    var s := st.sems["s"];
    VEffect(st, i, "s");
    var w := Last(s.waiting);
    assert w in s.waiting;
    assert Blocked(st, w) && WaitsAtEntry(st, w);
    assert InCriticalSection(st, i);
    assert SoleHolder(st, i);
    assert InCriticalSection(r, w);
    assert |ProgramOf(st, i)| == 3;
    assert !InCriticalSection(r, i);
    forall j: nat | j != i && j != w && j < |r.threads|
      ensures !InCriticalSection(r, j)
    {
      assert r.threads[j] == st.threads[j];
      assert !InCriticalSection(st, j);
    }
    assert SoleHolder(r, w);
    forall k: nat | k in r.sems["s"].waiting
      ensures WaitsAtEntry(r, k)
    {
      assert k in s.waiting;
      assert Blocked(st, k);
    }
  }

  /** The worker inside releases `s` with nobody waiting: the count returns to 1 and nobody is inside. */
  lemma ReleaseFreesKeeps(st: State, i: nat)
    requires Exclusive(st) && Runs(st, i) && Ready(st, i)
    requires st.threads[i].programName in {"program0", "program1"} && st.threads[i].ip == 2
    requires "s" in st.sems && st.sems["s"].count >= 0
    ensures TickDefined(st, i) && Exclusive(Tick(st, i))
  {
    BootTickSafe(st, i);
    var r := Tick(st, i);
    var s := st.sems["s"];
    VEffect(st, i, "s");
    assert s.waiting == [];
    assert InCriticalSection(st, i);
    assert SoleHolder(st, i);
    InsideFrame(st, r, i);
    assert forall j :: !InCriticalSection(r, j);
  }

  /** Every tick from an accounted state keeps it accounted, unless it re-creates a held `s`. */
  lemma TickKeepsExclusive(st: State, i: nat)
    requires Exclusive(st) && i < |st.threads| && !RemakesHeldLock(st, i)
    ensures TickDefined(st, i) && Exclusive(Tick(st, i))
  {
    BootTickSafe(st, i);
    if Ready(st, i) {
      var p := st.threads[i].programName;
      assert p in BootPrograms;
      assert IpInBounds(st.programs, st.threads[i]);
      if p == "start" {
        StartStepKeeps(st, i);
      } else if st.threads[i].ip == 0 {
        AcquireKeeps(st, i);
      } else if st.threads[i].ip == 1 {
        InsidePrintKeeps(st, i);
      } else if st.sems["s"].count < 0 {
        ReleaseWakesKeeps(st, i);
      } else {
        ReleaseFreesKeeps(st, i);
      }
    }
  }

  // ----- whole runs from `M` -----

  /** Each tick names a thread of the table at its turn. */
  ghost predicate InRange(st: State, ticks: seq<nat>)
    requires BootInvariant(st)
    decreases |ticks|
  {
    |ticks| == 0 ||
    (ticks[0] < |st.threads| && (BootTickSafe(st, ticks[0]); InRange(Tick(st, ticks[0]), ticks[1..])))
  }

  /** The state after ticking the threads `ticks` in order. */
  ghost function Run(st: State, ticks: seq<nat>): (r: State)
    requires BootInvariant(st) && InRange(st, ticks)
    ensures BootInvariant(r)
    decreases |ticks|
  {
    if |ticks| == 0 then st
    else BootTickSafe(st, ticks[0]); Run(Tick(st, ticks[0]), ticks[1..])
  }

  /** No tick of the run re-creates `s` while it is held. */
  ghost predicate NoHeldRemake(st: State, ticks: seq<nat>)
    requires BootInvariant(st) && InRange(st, ticks)
    decreases |ticks|
  {
    |ticks| == 0 ||
    (!RemakesHeldLock(st, ticks[0]) &&
     (BootTickSafe(st, ticks[0]); NoHeldRemake(Tick(st, ticks[0]), ticks[1..])))
  }

  lemma {:induction false} RunKeepsExclusive(st: State, ticks: seq<nat>)
    requires Exclusive(st) && InRange(st, ticks) && NoHeldRemake(st, ticks)
    ensures Exclusive(Run(st, ticks))
    decreases |ticks|
  {
    if |ticks| > 0 {
      TickKeepsExclusive(st, ticks[0]);
      RunKeepsExclusive(Tick(st, ticks[0]), ticks[1..]);
    }
  }

  /**
   * Mutual exclusion: on any run from `M` in which `start` never re-creates
   * `s` while a worker holds it, at most one worker is ever inside its
   * critical section.
   */
  lemma MutualExclusion(ticks: seq<nat>, j: nat, k: nat)
    requires InRange(BootState(), ticks) && NoHeldRemake(BootState(), ticks)
    requires InCriticalSection(Run(BootState(), ticks), j) && InCriticalSection(Run(BootState(), ticks), k)
    ensures j == k
  {
    RunKeepsExclusive(BootState(), ticks);
    AtMostOneInside(Run(BootState(), ticks), j, k);
  }

  /** One tick of a run: the rest of the run continues from the state the first tick leaves. */
  lemma RunUnfold(st: State, ticks: seq<nat>)
    requires BootInvariant(st) && |ticks| > 0 && ticks[0] < |st.threads|
    ensures TickDefined(st, ticks[0]) && BootInvariant(Tick(st, ticks[0]))
    ensures InRange(st, ticks) == InRange(Tick(st, ticks[0]), ticks[1..])
    ensures InRange(st, ticks) ==> Run(st, ticks) == Run(Tick(st, ticks[0]), ticks[1..])
    ensures InRange(st, ticks) ==>
      (NoHeldRemake(st, ticks) <==>
         !RemakesHeldLock(st, ticks[0]) && NoHeldRemake(Tick(st, ticks[0]), ticks[1..]))
  {
    BootTickSafe(st, ticks[0]);
  }

  /** `program0` enters, `start` loops and re-creates `s`, then `program1` enters. */
  const HeldRemakeSchedule: seq<nat> := [0, 0, 0, 1, 0, 0, 0, 2]

  /** The states `HeldRemakeSchedule` passes through all satisfy the boot invariant. */
  lemma HeldRemakeStatesReachable()
    ensures BootInvariant(AfterMake) && BootInvariant(AfterSpawn0) && BootInvariant(AfterSpawn1)
    ensures BootInvariant(Enter0) && BootInvariant(Enter0Print) && BootInvariant(Enter0Jmp)
    ensures BootInvariant(Enter0Remake)
  {
    StartFirstPass();
    RemakeAdmitsTwoWorkers();
    BootTickSafe(BootState(), 0);
    BootTickSafe(AfterMake, 0);
    BootTickSafe(AfterSpawn0, 0);
    BootTickSafe(AfterSpawn1, 1);
    BootTickSafe(Enter0, 0);
    BootTickSafe(Enter0Print, 0);
    BootTickSafe(Enter0Jmp, 0);
  }

  /**
   * The hypothesis of `MutualExclusion` cannot be dropped: a run from `M`
   * whose seventh tick re-creates `s` while `program0` holds it ends with
   * both workers inside their critical sections.
   */
  lemma HeldRemakeBreaksExclusion()
    ensures InRange(BootState(), HeldRemakeSchedule)
    ensures !NoHeldRemake(BootState(), HeldRemakeSchedule)
    ensures InCriticalSection(Run(BootState(), HeldRemakeSchedule), 1)
    ensures InCriticalSection(Run(BootState(), HeldRemakeSchedule), 2)
  {
    StartFirstPass();
    RemakeAdmitsTwoWorkers();
    HeldRemakeStatesReachable();
    var t := HeldRemakeSchedule;
    assert t[1..] == [0, 0, 1, 0, 0, 0, 2] && t[2..] == [0, 1, 0, 0, 0, 2] && t[3..] == [1, 0, 0, 0, 2];
    assert t[4..] == [0, 0, 0, 2] && t[5..] == [0, 0, 2] && t[6..] == [0, 2] && t[7..] == [2];
    RunUnfold(Enter0Remake, t[7..]);
    assert InRange(BothInside, []) && Run(BothInside, []) == BothInside;
    RunUnfold(Enter0Jmp, t[6..]);
    assert RemakesHeldLock(Enter0Jmp, 0);
    RunUnfold(Enter0Print, t[5..]);
    RunUnfold(Enter0, t[4..]);
    RunUnfold(AfterSpawn1, t[3..]);
    RunUnfold(AfterSpawn0, t[2..]);
    RunUnfold(AfterMake, t[1..]);
    RunUnfold(BootState(), t);
  }
}
