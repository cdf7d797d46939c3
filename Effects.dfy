/**
 * What one instruction does to the machine state, instruction by
 * instruction, and what a tick leaves alone.
 */
module Effects {
  import opened Instructions
  import opened Semantics

  /** Threads below `|st.threads|` other than those in `except` are untouched, and none is lost. */
  predicate OthersUnchanged(st: State, r: State, except: set<nat>) {
    && |st.threads| <= |r.threads|
    && forall j :: 0 <= j < |st.threads| && j !in except ==> r.threads[j] == st.threads[j]
  }

  /** Thread `tid` moved one instruction on, unless it already stood at or past the end. */
  predicate Advanced(st: State, r: State, tid: nat)
    requires Runs(st, tid) && tid < |r.threads|
  {
    && r.threads[tid].programName == st.threads[tid].programName
    && (st.threads[tid].ip < |ProgramOf(st, tid)| ==> r.threads[tid].ip == st.threads[tid].ip + 1)
    && (st.threads[tid].ip >= |ProgramOf(st, tid)| ==> r.threads[tid].ip == st.threads[tid].ip)
  }

  /** `_set_ip` moves the pointer only to targets at most the program length, so it never passes the end. */
  lemma SetIpGuard(st: State, tid: nat, to: int)
    requires Runs(st, tid)
    ensures var r := SetIp(st, tid, to);
      && r.programs == st.programs && r.sems == st.sems && r.output == st.output
      && |r.threads| == |st.threads| && OthersUnchanged(st, r, {tid})
      && r.threads[tid].programName == st.threads[tid].programName
      && r.threads[tid].runnable == st.threads[tid].runnable
      && r.threads[tid].ip == (if to <= |ProgramOf(st, tid)| then to else st.threads[tid].ip)
      && (st.threads[tid].ip <= |ProgramOf(st, tid)| ==> r.threads[tid].ip <= |ProgramOf(st, tid)|)
  {
  }

  lemma IncrIpEffect(st: State, tid: nat)
    requires Runs(st, tid)
    ensures var r := IncrIp(st, tid);
      && r.programs == st.programs && r.sems == st.sems && r.output == st.output
      && |r.threads| == |st.threads| && OthersUnchanged(st, r, {tid})
      && r.threads[tid].runnable == st.threads[tid].runnable
      && Advanced(st, r, tid)
  {
    SetIpGuard(st, tid, st.threads[tid].ip + 1);
  }

  /**
   * `jmp` to the program length is accepted and leaves the thread halted, so
   * a later tick of it changes nothing; `jmp` one further is ignored.
   */
  lemma JmpBoundary(st: State, tid: nat)
    requires Runs(st, tid)
    ensures var len := |ProgramOf(st, tid)|;
      var r := Exec(st, tid, Jmp(len));
      && r.threads[tid].ip == len
      && TickDefined(r, tid) && Tick(r, tid) == r
      && Exec(st, tid, Jmp(len + 1)) == st
  {
    SetIpGuard(st, tid, |ProgramOf(st, tid)|);
  }

  /**
   * `semaphore_make` installs a semaphore with the given count and nobody
   * waiting, replacing one of the same name; no other semaphore changes.
   */
  lemma MakeEffect(st: State, tid: nat, name: string, initialCount: int)
    requires Runs(st, tid)
    ensures var r := Exec(st, tid, SemaphoreMake(name, initialCount));
      && name in r.sems
      && r.sems[name].name == name && r.sems[name].count == initialCount && r.sems[name].waiting == []
      && r.sems.Keys == st.sems.Keys + {name}
      && (forall n :: n in st.sems && n != name ==> r.sems[n] == st.sems[n])
      && r.programs == st.programs && r.output == st.output
      && |r.threads| == |st.threads| && OthersUnchanged(st, r, {tid})
      && r.threads[tid].runnable == st.threads[tid].runnable && Advanced(st, r, tid)
  {
    IncrIpEffect(st.(sems := st.sems[name := NewSemaphore(name, initialCount)]), tid);
  }

  /**
   * `semaphore_p` takes exactly one from the count; when the count drops
   * below zero the executing thread is appended to the wait list and
   * blocked. The pointer advances either way.
   */
  lemma PEffect(st: State, tid: nat, name: string)
    requires Runs(st, tid) && name in st.sems
    ensures var r := Exec(st, tid, SemaphoreP(name));
      var s := st.sems[name];
      && name in r.sems
      && r.sems[name].name == s.name
      && r.sems[name].count == s.count - 1
      && (r.sems[name].count < 0 ==>
            r.sems[name].waiting == s.waiting + [tid] && !r.threads[tid].runnable)
      && (r.sems[name].count >= 0 ==>
            r.sems[name].waiting == s.waiting && r.threads[tid].runnable == st.threads[tid].runnable)
      && r.sems.Keys == st.sems.Keys
      && (forall n :: n in st.sems && n != name ==> r.sems[n] == st.sems[n])
      && r.programs == st.programs && r.output == st.output
      && |r.threads| == |st.threads| && OthersUnchanged(st, r, {tid})
      && Advanced(st, r, tid)
  {
    var s := st.sems[name];
    if s.count - 1 < 0 {
      IncrIpEffect(st.(sems := st.sems[name := s.(count := s.count - 1, waiting := s.waiting + [tid])],
                       threads := st.threads[tid := st.threads[tid].(runnable := false)]), tid);
    } else {
      IncrIpEffect(st.(sems := st.sems[name := s.(count := s.count - 1)]), tid);
    }
  }

  /**
   * `semaphore_v` adds exactly one to the count; when the count was below
   * zero it removes the most recent waiter (the last of the list) and makes
   * that thread runnable, leaving the rest of the list and every other
   * thread as they were.
   */
  lemma VEffect(st: State, tid: nat, name: string)
    requires CanExec(st, tid, SemaphoreV(name))
    ensures var r := Exec(st, tid, SemaphoreV(name));
      var s := st.sems[name];
      && name in r.sems
      && r.sems[name].name == s.name
      && r.sems[name].count == s.count + 1
      && (s.count < 0 ==>
            && r.sems[name].waiting == s.waiting[..|s.waiting| - 1]
            && r.threads[Last(s.waiting)].runnable
            && OthersUnchanged(st, r, {tid, Last(s.waiting)})
            && (tid != Last(s.waiting) ==> r.threads[tid].runnable == st.threads[tid].runnable)
            && (Last(s.waiting) != tid ==>
                  r.threads[Last(s.waiting)] == st.threads[Last(s.waiting)].(runnable := true)))
      && (s.count >= 0 ==>
            && r.sems[name].waiting == s.waiting
            && OthersUnchanged(st, r, {tid})
            && r.threads[tid].runnable == st.threads[tid].runnable)
      && r.sems.Keys == st.sems.Keys
      && (forall n :: n in st.sems && n != name ==> r.sems[n] == st.sems[n])
      && r.programs == st.programs && r.output == st.output
      && |r.threads| == |st.threads|
      && Advanced(st, r, tid)
  {
    var s := st.sems[name];
    if s.count < 0 {
      var w := Last(s.waiting);
      IncrIpEffect(st.(sems := st.sems[name := s.(count := s.count + 1, waiting := s.waiting[..|s.waiting| - 1])],
                       threads := st.threads[w := st.threads[w].(runnable := true)]), tid);
    } else {
      IncrIpEffect(st.(sems := st.sems[name := s.(count := s.count + 1)]), tid);
    }
  }

  /** `print` appends its text to the output and changes nothing else but the pointer. */
  lemma PrintEffect(st: State, tid: nat, text: string)
    requires Runs(st, tid)
    ensures var r := Exec(st, tid, Print(text));
      && r.output == st.output + [text]
      && r.programs == st.programs && r.sems == st.sems
      && |r.threads| == |st.threads| && OthersUnchanged(st, r, {tid})
      && r.threads[tid].runnable == st.threads[tid].runnable && Advanced(st, r, tid)
  {
    IncrIpEffect(st.(output := st.output + [text]), tid);
  }

  /**
   * `spawn_thread` adds exactly one thread, at the end of the table, runnable
   * at instruction 0; existing threads keep their indices and records,
   * except that the spawning thread advances.
   */
  lemma SpawnEffect(st: State, tid: nat, programName: string)
    requires Runs(st, tid)
    ensures var r := Exec(st, tid, SpawnThread(programName));
      && |r.threads| == |st.threads| + 1
      && r.threads[|st.threads|] == Thread(programName, 0, true)
      && OthersUnchanged(st, r, {tid})
      && r.threads[tid].runnable == st.threads[tid].runnable && Advanced(st, r, tid)
      && r.programs == st.programs && r.sems == st.sems && r.output == st.output
  {
    var st1 := st.(threads := st.threads + [NewThread(programName)]);
    assert ProgramOf(st1, tid) == ProgramOf(st, tid);
    IncrIpEffect(st1, tid);
  }

  /**
   * A tick of thread `i` moves no other thread's pointer and changes no
   * thread's program; it only appends threads, never removes one.
   */
  lemma TickFrame(st: State, i: nat, j: nat)
    requires TickDefined(st, i) && j < |st.threads| && j != i
    ensures var r := Tick(st, i);
      && |st.threads| <= |r.threads|
      && r.threads[j].ip == st.threads[j].ip
      && r.threads[j].programName == st.threads[j].programName
      && r.programs == st.programs
  {
    if Ready(st, i) {
      var instr := ProgramOf(st, i)[st.threads[i].ip];
      match instr
      case SemaphoreMake(name, c) => MakeEffect(st, i, name, c);
      case SemaphoreP(name) => PEffect(st, i, name);
      case SemaphoreV(name) => VEffect(st, i, name);
      case Print(text) => PrintEffect(st, i, text);
      case SpawnThread(p) => SpawnEffect(st, i, p);
      case Jmp(to) => SetIpGuard(st, i, to);
    }
  }

  /** A thread that has reached the end of its program stays there, whichever thread is ticked. */
  lemma HaltedIsFinal(st: State, i: nat, j: nat)
    requires TickDefined(st, i) && Runs(st, j)
    requires st.threads[j].ip >= |ProgramOf(st, j)|
    ensures var r := Tick(st, i);
      && Runs(r, j)
      && r.threads[j].ip == st.threads[j].ip
      && ProgramOf(r, j) == ProgramOf(st, j)
  {
    if j != i {
      TickFrame(st, i, j);
    }
  }

  /** A tick never removes a thread or a semaphore and never changes the program table. */
  lemma TickOnlyGrows(st: State, i: nat)
    requires TickDefined(st, i)
    ensures var r := Tick(st, i);
      && |st.threads| <= |r.threads|
      && st.sems.Keys <= r.sems.Keys
      && r.programs == st.programs
  {
    if Ready(st, i) {
      var instr := ProgramOf(st, i)[st.threads[i].ip];
      match instr
      case SemaphoreMake(name, c) => MakeEffect(st, i, name, c);
      case SemaphoreP(name) => PEffect(st, i, name);
      case SemaphoreV(name) => VEffect(st, i, name);
      case Print(text) => PrintEffect(st, i, text);
      case SpawnThread(p) => SpawnEffect(st, i, p);
      case Jmp(to) => SetIpGuard(st, i, to);
    }
  }
}
