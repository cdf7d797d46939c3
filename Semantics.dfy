/**
 * The machine state and what each instruction and each tick does to it,
 * as functions from one state to the next.
 *
 * A thread is known only by its index in the thread table and a semaphore
 * only by its name in the registry, so each record is a value here and
 * an in-place field update is a replacement of that record.
 */
module Semantics {
  import opened Instructions

  /** A thread record: its program, its instruction pointer, and whether it may run. */
  datatype Thread = Thread(programName: string, ip: int, runnable: bool)

  /** A counting semaphore; `waiting` holds thread indices, the most recent waiter last. */
  datatype Semaphore = Semaphore(name: string, count: int, waiting: seq<nat>)

  datatype State = State(
    programs: map<string, seq<Instr>>,
    threads: seq<Thread>,
    sems: map<string, Semaphore>,
    output: seq<string>)

  /** The number of blocked waiters a semaphore's count stands for. */
  function Deficit(count: int): nat {
    if count < 0 then -count else 0
  }

  /** The wait list holds exactly as many threads as the count is below zero. */
  predicate Balanced(s: Semaphore) {
    |s.waiting| == Deficit(s.count)
  }

  /** The instruction pointer is non-negative and, when the program is installed, at most its length. */
  predicate IpInBounds(programs: map<string, seq<Instr>>, t: Thread) {
    0 <= t.ip && (t.programName in programs ==> t.ip <= |programs[t.programName]|)
  }

  function Last(w: seq<nat>): nat
    requires |w| > 0
  {
    w[|w| - 1]
  }

  /** `_new_thread`: a fresh thread record. */
  function NewThread(programName: string): (t: Thread)
    ensures t.programName == programName && t.ip == 0 && t.runnable
    ensures forall programs: map<string, seq<Instr>> :: IpInBounds(programs, t)
  {
    Thread(programName, 0, true)
  }

  /** `_new_semaphore`: a semaphore record with nobody waiting. */
  function NewSemaphore(name: string, initialCount: int): (s: Semaphore)
    ensures s.name == name && s.count == initialCount && s.waiting == []
    ensures Balanced(s) <==> 0 <= initialCount
  {
    Semaphore(name, initialCount, [])
  }

  /**
   * Thread `tid` exists and its program is installed: otherwise the program
   * looked up is `undefined`, and reading its length crashes.
   */
  predicate Runs(st: State, tid: nat) {
    tid < |st.threads| && st.threads[tid].programName in st.programs
  }

  function ProgramOf(st: State, tid: nat): seq<Instr>
    requires Runs(st, tid)
  {
    st.programs[st.threads[tid].programName]
  }

  /** `_set_ip`: move the pointer to `to` unless `to` lies past the end of the program. */
  function SetIp(st: State, tid: nat, to: int): State
    requires Runs(st, tid)
  {
    var thread := st.threads[tid];
    if to <= |ProgramOf(st, tid)| then st.(threads := st.threads[tid := thread.(ip := to)]) else st
  }

  /** `_incr_ip` */
  function IncrIp(st: State, tid: nat): State
    requires Runs(st, tid)
  {
    SetIp(st, tid, st.threads[tid].ip + 1)
  }

  /**
   * What `apply` needs in order not to crash: the executing thread and its
   * program exist, a semaphore that is decremented or incremented exists,
   * and a release that must wake a waiter finds one in the thread table.
   */
  predicate CanExec(st: State, tid: nat, instr: Instr) {
    && Runs(st, tid)
    && match instr
       case SemaphoreP(name) => name in st.sems
       case SemaphoreV(name) =>
         && name in st.sems
         && (st.sems[name].count < 0 ==>
               |st.sems[name].waiting| > 0 && Last(st.sems[name].waiting) < |st.threads|)
       case _ => true
  }

  function ExecMake(st: State, tid: nat, name: string, initialCount: int): State
    requires Runs(st, tid)
  {
    IncrIp(st.(sems := st.sems[name := NewSemaphore(name, initialCount)]), tid)
  }

  function ExecP(st: State, tid: nat, name: string): State
    requires Runs(st, tid) && name in st.sems
  {
    var s := st.sems[name];
    var count := s.count - 1;
    if count < 0 then
      IncrIp(st.(sems := st.sems[name := s.(count := count, waiting := s.waiting + [tid])],
                 threads := st.threads[tid := st.threads[tid].(runnable := false)]), tid)
    else
      IncrIp(st.(sems := st.sems[name := s.(count := count)]), tid)
  }

  function ExecV(st: State, tid: nat, name: string): State
    requires CanExec(st, tid, SemaphoreV(name))
  {
    var s := st.sems[name];
    if s.count < 0 then
      var w := Last(s.waiting);
      IncrIp(st.(sems := st.sems[name := s.(count := s.count + 1, waiting := s.waiting[..|s.waiting| - 1])],
                 threads := st.threads[w := st.threads[w].(runnable := true)]), tid)
    else
      IncrIp(st.(sems := st.sems[name := s.(count := s.count + 1)]), tid)
  }

  function ExecPrint(st: State, tid: nat, text: string): State
    requires Runs(st, tid)
  {
    IncrIp(st.(output := st.output + [text]), tid)
  }

  function ExecSpawn(st: State, tid: nat, programName: string): State
    requires Runs(st, tid)
  {
    IncrIp(st.(threads := st.threads + [NewThread(programName)]), tid)
  }

  /** `apply` of each instruction kind, executed by thread `tid`. */
  function Exec(st: State, tid: nat, instr: Instr): State
    requires CanExec(st, tid, instr)
  {
    match instr
    case SemaphoreMake(name, initialCount) => ExecMake(st, tid, name, initialCount)
    case SemaphoreP(name) => ExecP(st, tid, name)
    case SemaphoreV(name) => ExecV(st, tid, name)
    case Print(text) => ExecPrint(st, tid, text)
    case SpawnThread(programName) => ExecSpawn(st, tid, programName)
    case Jmp(to) => SetIp(st, tid, to)
  }

  /** Thread `i` is runnable, its program is installed, and its pointer is before the end of that program. */
  predicate Ready(st: State, i: nat) {
    Runs(st, i) && st.threads[i].runnable && st.threads[i].ip < |ProgramOf(st, i)|
  }

  /**
   * What `tick_thread` needs in order not to crash: the thread exists and,
   * when it is runnable, its program is installed (the length of a missing
   * program is read only then), and an instruction under a pointer inside
   * the program can be applied.
   */
  predicate TickDefined(st: State, i: nat) {
    && i < |st.threads|
    && (st.threads[i].runnable ==> Runs(st, i))
    && (Ready(st, i) ==>
          0 <= st.threads[i].ip && CanExec(st, i, ProgramOf(st, i)[st.threads[i].ip]))
  }

  /** `tick_thread`: run one instruction of thread `i` if it is ready, otherwise nothing. */
  function Tick(st: State, i: nat): State
    requires TickDefined(st, i)
  {
    if Ready(st, i) then Exec(st, i, ProgramOf(st, i)[st.threads[i].ip]) else st
  }
}
