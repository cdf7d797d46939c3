/**
 * The machine as the mutable object the instructions update in place:
 * each `apply` and `tick_thread` is a method that changes the fields, and
 * each is proved to produce exactly the state the corresponding function
 * of `Semantics` describes.
 */
module Cpu {
  import opened Instructions
  import opened Semantics
  import opened Invariants
  import Boot

  class Machine {
    var programs: map<string, seq<Instr>>
    var threads: seq<Thread>
    var sems: map<string, Semaphore>
    var output: seq<string>

    /** The machine's current state as a value. */
    function Snapshot(): State
      reads this
    {
      State(programs, threads, sems, output)
    }

    /** `M` with the program table installed: the boot thread runs `start`, no semaphore exists yet. */
    constructor ()
      ensures Snapshot() == Boot.BootState()
      ensures Boot.BootInvariant(Snapshot())
    {
      programs := map[];
      threads := [NewThread("start")];
      sems := map[];
      output := [];
      new;
      programs := programs["start" := Boot.StartProgram];
      programs := programs["program0" := Boot.Program0];
      programs := programs["program1" := Boot.Program1];
    }

    method SetIp(tid: nat, to: int)
      requires Runs(Snapshot(), tid)
      modifies this
      ensures Snapshot() == Semantics.SetIp(old(Snapshot()), tid, to)
    {
      var thread := threads[tid];
      var program := programs[thread.programName];
      if to <= |program| {
        threads := threads[tid := thread.(ip := to)];
      }
    }

    method IncrIp(tid: nat)
      requires Runs(Snapshot(), tid)
      modifies this
      ensures Snapshot() == Semantics.IncrIp(old(Snapshot()), tid)
    {
      var thread := threads[tid];
      SetIp(tid, thread.ip + 1);
    }

    /** `semaphore_make`: replaces the registry entry for `name`. */
    method ApplyMake(tid: nat, name: string, initialCount: int)
      requires Runs(Snapshot(), tid)
      modifies this
      ensures Snapshot() == Exec(old(Snapshot()), tid, Instr.SemaphoreMake(name, initialCount))
    {
      sems := sems[name := NewSemaphore(name, initialCount)];
      IncrIp(tid);
    }

    /** `semaphore_p` */
    method ApplyP(tid: nat, name: string)
      requires Runs(Snapshot(), tid) && name in sems
      modifies this
      ensures Snapshot() == Exec(old(Snapshot()), tid, Instr.SemaphoreP(name))
    {
      var semaphore := sems[name];
      semaphore := semaphore.(count := semaphore.count - 1);
      if semaphore.count < 0 {
        semaphore := semaphore.(waiting := semaphore.waiting + [tid]);
        threads := threads[tid := threads[tid].(runnable := false)];
      }
      sems := sems[name := semaphore];
      IncrIp(tid);
    }

    /** `semaphore_v` */
    method ApplyV(tid: nat, name: string)
      requires CanExec(Snapshot(), tid, Instr.SemaphoreV(name))
      modifies this
      ensures Snapshot() == Exec(old(Snapshot()), tid, Instr.SemaphoreV(name))
    {
      var semaphore := sems[name];
      if semaphore.count < 0 {
        var threadId := semaphore.waiting[|semaphore.waiting| - 1];
        semaphore := semaphore.(waiting := semaphore.waiting[..|semaphore.waiting| - 1]);
        threads := threads[threadId := threads[threadId].(runnable := true)];
      }
      semaphore := semaphore.(count := semaphore.count + 1);
      sems := sems[name := semaphore];
      IncrIp(tid);
    }

    /** `print`: the line goes to the output. */
    method ApplyPrint(tid: nat, text: string)
      requires Runs(Snapshot(), tid)
      modifies this
      ensures Snapshot() == Exec(old(Snapshot()), tid, Instr.Print(text))
    {
      output := output + [text];
      IncrIp(tid);
    }

    /** `spawn_thread` */
    method ApplySpawn(tid: nat, programName: string)
      requires Runs(Snapshot(), tid)
      modifies this
      ensures Snapshot() == Exec(old(Snapshot()), tid, Instr.SpawnThread(programName))
    {
      threads := threads + [NewThread(programName)];
      IncrIp(tid);
    }

    /** `jmp` */
    method ApplyJmp(tid: nat, to: int)
      requires Runs(Snapshot(), tid)
      modifies this
      ensures Snapshot() == Exec(old(Snapshot()), tid, Instr.Jmp(to))
    {
      SetIp(tid, to);
    }

    /** `instruction.apply(m, tid)`, dispatched on the instruction kind. */
    method Apply(tid: nat, instr: Instr)
      requires CanExec(Snapshot(), tid, instr)
      modifies this
      ensures Snapshot() == Exec(old(Snapshot()), tid, instr)
    {
      match instr
      case SemaphoreMake(name, initialCount) => ApplyMake(tid, name, initialCount);
      case SemaphoreP(name) => ApplyP(tid, name);
      case SemaphoreV(name) => ApplyV(tid, name);
      case Print(text) => ApplyPrint(tid, text);
      case SpawnThread(programName) => ApplySpawn(tid, programName);
      case Jmp(to) => ApplyJmp(tid, to);
    }

    /**
     * `tick_thread`: runs the instruction under thread `i`'s pointer when
     * the thread is runnable and the pointer is inside its program, and
     * otherwise changes nothing. The machine invariant survives it.
     */
    method TickThread(i: nat)
      requires TickDefined(Snapshot(), i)
      modifies this
      ensures Snapshot() == Tick(old(Snapshot()), i)
      ensures !old(threads[i].runnable) ==> Snapshot() == old(Snapshot())
      ensures old(Runs(Snapshot(), i) && threads[i].ip >= |programs[threads[i].programName]|) ==>
        Snapshot() == old(Snapshot())
      ensures Valid(old(Snapshot())) ==> Valid(Snapshot())
    {
      var thread := threads[i];
      if thread.runnable && thread.ip < |programs[thread.programName]| {
        var instruction := programs[thread.programName][thread.ip];
        Apply(i, instruction);
      }
      if Valid(old(Snapshot())) {
        TickPreservesValid(old(Snapshot()), i);
      }
    }
  }
}
