/**
 * The working memory `M` the machine starts from: the three installed
 * programs and the boot thread running `start`, and what can happen from there.
 */
module Boot {
  import opened Instructions
  import opened Semantics
  import opened Effects
  import opened Invariants

  /** Creates `s`, spawns the two workers, prints, and loops back to the start. */
  const StartProgram: seq<Instr> :=
    [SemaphoreMake("s", 1), SpawnThread("program0"), SpawnThread("program1"), Print("started!"), Jmp(0)]

  /** A critical section guarded by `s`. */
  const Program0: seq<Instr> := [SemaphoreP("s"), Print("program0"), SemaphoreV("s")]
  const Program1: seq<Instr> := [SemaphoreP("s"), Print("program1"), SemaphoreV("s")]

  const BootPrograms: map<string, seq<Instr>> :=
    map["start" := StartProgram, "program0" := Program0, "program1" := Program1]

  /** `M` at load time: programs installed, one runnable thread at instruction 0 of `start`, no semaphore. */
  function BootState(): (st: State)
    ensures BootInvariant(st)
    ensures |st.threads| == 1 && st.threads[0].programName == "start" && Ready(st, 0)
    ensures st.sems == map[] && st.output == []
  {
    var st := State(BootPrograms, [NewThread("start")], map[], []);
    BootTableWellFormed();
    st
  }

  lemma BootTableWellFormed()
    ensures ProgramsWellFormed(BootPrograms) && SpawnTargetsInstalled(BootPrograms)
    ensures forall p, k :: p in BootPrograms && 0 <= k < |BootPrograms[p]| ==>
      (BootPrograms[p][k].SemaphoreP? || BootPrograms[p][k].SemaphoreV? ==> BootPrograms[p][k].name == "s")
  {
  }

  /**
   * What holds of every state reachable from `M`: the machine invariant,
   * the fixed program table, every thread's program installed, and until
   * `s` exists the boot thread has not moved.
   */
  ghost predicate BootInvariant(st: State) {
    && Valid(st)
    && st.programs == BootPrograms
    && AllInstalled(st)
    && ("s" !in st.sems ==> st.threads == [NewThread("start")])
  }

  /**
   * From `M`, ticking any thread of the table never crashes (no lookup of a
   * missing program or semaphore, no release popping an empty list) and
   * keeps the invariant.
   */
  lemma BootTickSafe(st: State, i: nat)
    requires BootInvariant(st) && i < |st.threads|
    ensures TickDefined(st, i) && BootInvariant(Tick(st, i))
  {
    BootTableWellFormed();
    assert Runs(st, i);
    if Ready(st, i) {
      var k := st.threads[i].ip;
      assert IpInBounds(st.programs, st.threads[i]);
      var instr := ProgramOf(st, i)[k];
      assert instr == BootPrograms[st.threads[i].programName][k];
      if "s" !in st.sems {
        assert instr == SemaphoreMake("s", 1);
      } else if instr.SemaphoreV? {
        ReleaseNeverPopsEmpty(st, i, "s");
      }
    }
    assert TickDefined(st, i);
    TickPreservesValid(st, i);
    TickKeepsProgramsInstalled(st, i);
    TickOnlyGrows(st, i);
    if "s" !in st.sems {
      MakeEffect(st, 0, "s", 1);
    }
  }

  // ----- the first pass of `start` -----

  const AfterMake := State(BootPrograms, [Thread("start", 1, true)], map["s" := Semaphore("s", 1, [])], [])
  const AfterSpawn0 := AfterMake.(threads := [Thread("start", 2, true), Thread("program0", 0, true)])
  const AfterSpawn1 := AfterMake.(threads :=
    [Thread("start", 3, true), Thread("program0", 0, true), Thread("program1", 0, true)])
  const AfterPrint := AfterSpawn1.(threads := AfterSpawn1.threads[0 := Thread("start", 4, true)], output := ["started!"])
  const AfterJmp := AfterPrint.(threads := AfterPrint.threads[0 := Thread("start", 0, true)])
  const AfterRemake := AfterPrint.(threads := AfterPrint.threads[0 := Thread("start", 1, true)])

  /**
   * Four ticks of the boot thread create `s` with count 1, spawn the two
   * workers at instruction 0 and print one line; the fifth jumps back to
   * instruction 0 and the sixth creates `s` again, count 1 and nobody
   * waiting, without adding a thread.
   */
  lemma StartFirstPass()
    ensures TickDefined(BootState(), 0) && Tick(BootState(), 0) == AfterMake
    ensures TickDefined(AfterMake, 0) && Tick(AfterMake, 0) == AfterSpawn0
    ensures TickDefined(AfterSpawn0, 0) && Tick(AfterSpawn0, 0) == AfterSpawn1
    ensures TickDefined(AfterSpawn1, 0) && Tick(AfterSpawn1, 0) == AfterPrint
    ensures TickDefined(AfterPrint, 0) && Tick(AfterPrint, 0) == AfterJmp
    ensures TickDefined(AfterJmp, 0) && Tick(AfterJmp, 0) == AfterRemake
    ensures |AfterPrint.threads| == 3 && AfterPrint.sems["s"] == Semaphore("s", 1, [])
    ensures AfterPrint.output == ["started!"]
  {
    var st0 := BootState();
    MakeEffect(st0, 0, "s", 1);
    assert Tick(st0, 0).threads == AfterMake.threads;
    SpawnEffect(AfterMake, 0, "program0");
    assert Tick(AfterMake, 0).threads == AfterSpawn0.threads;
    SpawnEffect(AfterSpawn0, 0, "program1");
    assert Tick(AfterSpawn0, 0).threads == AfterSpawn1.threads;
    PrintEffect(AfterSpawn1, 0, "started!");
    assert Tick(AfterSpawn1, 0).threads == AfterPrint.threads;
    SetIpGuard(AfterPrint, 0, 0);
    assert Tick(AfterPrint, 0).threads == AfterJmp.threads;
    MakeEffect(AfterJmp, 0, "s", 1);
    assert Tick(AfterJmp, 0).threads == AfterRemake.threads;
  }

  // ----- re-creating `s` on every pass of `start` -----

  /** Worker `j` has passed its `semaphore_p` and not yet its `semaphore_v`, and is not blocked. */
  predicate InCriticalSection(st: State, j: nat) {
    && j < |st.threads|
    && st.threads[j].programName in {"program0", "program1"}
    && st.threads[j].runnable
    && 1 <= st.threads[j].ip <= 2
  }

  const Enter0 := AfterSpawn1.(threads := AfterSpawn1.threads[1 := Thread("program0", 1, true)],
                               sems := map["s" := Semaphore("s", 0, [])])
  const Enter0Print := Enter0.(threads := Enter0.threads[0 := Thread("start", 4, true)], output := ["started!"])
  const Enter0Jmp := Enter0Print.(threads := Enter0Print.threads[0 := Thread("start", 0, true)])
  const Enter0Remake := Enter0Print.(threads := Enter0Print.threads[0 := Thread("start", 1, true)],
                                     sems := map["s" := Semaphore("s", 1, [])])
  const BothInside := Enter0Remake.(threads := Enter0Remake.threads[2 := Thread("program1", 1, true)],
                                    sems := map["s" := Semaphore("s", 0, [])])

  /**
   * Because `start` jumps back to its first instruction, it re-creates `s`
   * with count 1 while `program0` holds it; `program1` then acquires it
   * too, and both workers are inside their critical sections at once.
   */
  lemma RemakeAdmitsTwoWorkers()
    ensures TickDefined(AfterSpawn1, 1) && Tick(AfterSpawn1, 1) == Enter0
    ensures TickDefined(Enter0, 0) && Tick(Enter0, 0) == Enter0Print
    ensures TickDefined(Enter0Print, 0) && Tick(Enter0Print, 0) == Enter0Jmp
    ensures TickDefined(Enter0Jmp, 0) && Tick(Enter0Jmp, 0) == Enter0Remake
    ensures TickDefined(Enter0Remake, 2) && Tick(Enter0Remake, 2) == BothInside
    ensures InCriticalSection(BothInside, 1) && InCriticalSection(BothInside, 2)
  {
    WorkerAcquires();
    BootThreadLoops();
    OtherWorkerAcquires();
  }

  lemma WorkerAcquires()
    ensures TickDefined(AfterSpawn1, 1) && Tick(AfterSpawn1, 1) == Enter0
  {
    PEffect(AfterSpawn1, 1, "s");
    assert Tick(AfterSpawn1, 1).threads == Enter0.threads;
  }

  lemma BootThreadLoops()
    ensures TickDefined(Enter0, 0) && Tick(Enter0, 0) == Enter0Print
    ensures TickDefined(Enter0Print, 0) && Tick(Enter0Print, 0) == Enter0Jmp
    ensures TickDefined(Enter0Jmp, 0) && Tick(Enter0Jmp, 0) == Enter0Remake
  {
    PrintEffect(Enter0, 0, "started!");
    assert Tick(Enter0, 0).threads == Enter0Print.threads;
    SetIpGuard(Enter0Print, 0, 0);
    assert Tick(Enter0Print, 0).threads == Enter0Jmp.threads;
    MakeEffect(Enter0Jmp, 0, "s", 1);
    assert Tick(Enter0Jmp, 0).threads == Enter0Remake.threads;
  }

  lemma OtherWorkerAcquires()
    ensures TickDefined(Enter0Remake, 2) && Tick(Enter0Remake, 2) == BothInside
  {
    PEffect(Enter0Remake, 2, "s");
    assert Tick(Enter0Remake, 2).threads == BothInside.threads;
  }
}
