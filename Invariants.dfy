/**
 * The machine invariant: pointers stay inside their programs, every
 * semaphore's wait list is as long as its count is below zero, the
 * threads on wait lists are blocked, and no thread waits twice.
 * Every instruction and every tick preserves it.
 */
module Invariants {
  import opened Instructions
  import opened Semantics
  import opened Effects

  /** Jump targets and initial counts are not negative. */
  predicate InstrWellFormed(instr: Instr) {
    match instr
    case SemaphoreMake(_, initialCount) => 0 <= initialCount
    case Jmp(to) => 0 <= to
    case _ => true
  }

  ghost predicate ProgramsWellFormed(programs: map<string, seq<Instr>>) {
    forall p, k :: p in programs && 0 <= k < |programs[p]| ==> InstrWellFormed(programs[p][k])
  }

  ghost predicate IpsInBounds(st: State) {
    forall j :: 0 <= j < |st.threads| ==> IpInBounds(st.programs, st.threads[j])
  }

  predicate Blocked(st: State, j: nat) {
    j < |st.threads| && !st.threads[j].runnable
  }

  /** Thread `j` stands on some semaphore's wait list. */
  ghost predicate Listed(sems: map<string, Semaphore>, j: nat) {
    exists n :: n in sems && j in sems[n].waiting
  }

  ghost predicate RegistryConsistent(st: State) {
    && (forall n :: n in st.sems ==> st.sems[n].name == n && Balanced(st.sems[n]))
    && (forall n, j :: n in st.sems && j in st.sems[n].waiting ==> Blocked(st, j))
  }

  ghost predicate WaitersDistinct(sems: map<string, Semaphore>) {
    && (forall n, a, b :: n in sems && 0 <= a < b < |sems[n].waiting| ==>
          sems[n].waiting[a] != sems[n].waiting[b])
    && (forall n1, n2, j :: n1 in sems && n2 in sems && n1 != n2 && j in sems[n1].waiting ==>
          j !in sems[n2].waiting)
  }

  ghost predicate Valid(st: State) {
    && ProgramsWellFormed(st.programs)
    && IpsInBounds(st)
    && RegistryConsistent(st)
    && WaitersDistinct(st.sems)
  }

  /** A change that keeps the table length and every runnable flag keeps the registry consistent. */
  lemma SameFlagsKeepRegistry(st: State, r: State)
    requires RegistryConsistent(st) && r.sems == st.sems && |r.threads| == |st.threads|
    requires forall j :: 0 <= j < |st.threads| ==> r.threads[j].runnable == st.threads[j].runnable
    ensures RegistryConsistent(r)
  {
    forall n, j | n in r.sems && j in r.sems[n].waiting
      ensures Blocked(r, j)
    {
      assert Blocked(st, j);
    }
  }

  /** Changing only counts, and keeping every semaphore balanced, keeps the registry consistent. */
  lemma SameWaitersKeepRegistry(st: State, r: State)
    requires RegistryConsistent(st) && r.threads == st.threads && r.sems.Keys == st.sems.Keys
    requires forall n :: n in r.sems ==>
      r.sems[n].name == st.sems[n].name && r.sems[n].waiting == st.sems[n].waiting && Balanced(r.sems[n])
    ensures RegistryConsistent(r)
  {
    forall n, j | n in r.sems && j in r.sems[n].waiting
      ensures Blocked(r, j)
    {
      assert j in st.sems[n].waiting;
      assert Blocked(st, j);
    }
  }

  lemma SetIpPreservesValid(st: State, tid: nat, to: int)
    requires Valid(st) && Runs(st, tid) && 0 <= to
    ensures Valid(SetIp(st, tid, to))
  {
    var r := SetIp(st, tid, to);
    SetIpGuard(st, tid, to);
    SameFlagsKeepRegistry(st, r);
    forall j | 0 <= j < |r.threads|
      ensures IpInBounds(r.programs, r.threads[j])
    {
      assert IpInBounds(st.programs, st.threads[j]);
    }
  }

  lemma IncrIpPreservesValid(st: State, tid: nat)
    requires Valid(st) && Runs(st, tid)
    ensures Valid(IncrIp(st, tid))
  {
    assert IpInBounds(st.programs, st.threads[tid]);
    SetIpPreservesValid(st, tid, st.threads[tid].ip + 1);
  }

  lemma MakePreservesValid(st: State, tid: nat, name: string, initialCount: int)
    requires Valid(st) && Runs(st, tid) && 0 <= initialCount
    ensures Valid(ExecMake(st, tid, name, initialCount))
  {
    var st1 := st.(sems := st.sems[name := NewSemaphore(name, initialCount)]);
    assert RegistryConsistent(st1) by {
      forall n, j | n in st1.sems && j in st1.sems[n].waiting
        ensures Blocked(st1, j)
      {
        assert n != name && j in st.sems[n].waiting;
        assert Blocked(st, j);
      }
    }
    IncrIpPreservesValid(st1, tid);
  }

  lemma PPreservesValid(st: State, tid: nat, name: string)
    requires Valid(st) && Runs(st, tid) && name in st.sems && st.threads[tid].runnable
    ensures Valid(ExecP(st, tid, name))
  {
    var s := st.sems[name];
    if s.count - 1 < 0 {
      var s1 := s.(count := s.count - 1, waiting := s.waiting + [tid]);
      var st1 := st.(sems := st.sems[name := s1],
                     threads := st.threads[tid := st.threads[tid].(runnable := false)]);
      assert !Blocked(st, tid);
      forall n | n in st.sems
        ensures tid !in st.sems[n].waiting
      {
      }
      assert RegistryConsistent(st1) by {
        forall n, j | n in st1.sems && j in st1.sems[n].waiting
          ensures Blocked(st1, j)
        {
          if j != tid {
            assert j in st.sems[n].waiting;
            assert Blocked(st, j);
          }
        }
      }
      assert WaitersDistinct(st1.sems) by {
        forall n, a, b | n in st1.sems && 0 <= a < b < |st1.sems[n].waiting|
          ensures st1.sems[n].waiting[a] != st1.sems[n].waiting[b]
        {
          if n == name && b == |s.waiting| {
            assert st1.sems[n].waiting[a] == s.waiting[a];
            assert s.waiting[a] in st.sems[name].waiting;
          }
        }
        assert forall j :: j in s1.waiting <==> j in s.waiting || j == tid;
        forall n1, n2, j | n1 in st1.sems && n2 in st1.sems && n1 != n2 && j in st1.sems[n1].waiting
          ensures j !in st1.sems[n2].waiting
        {
        }
      }
      IncrIpPreservesValid(st1, tid);
    } else {
      var st1 := st.(sems := st.sems[name := s.(count := s.count - 1)]);
      SameWaitersKeepRegistry(st, st1);
      IncrIpPreservesValid(st1, tid);
    }
  }

  lemma VPreservesValid(st: State, tid: nat, name: string)
    requires Valid(st) && CanExec(st, tid, SemaphoreV(name))
    ensures Valid(ExecV(st, tid, name))
  {
    var s := st.sems[name];
    if s.count < 0 {
      var w := Last(s.waiting);
      var rest := s.waiting[..|s.waiting| - 1];
      var st1 := st.(sems := st.sems[name := s.(count := s.count + 1, waiting := rest)],
                     threads := st.threads[w := st.threads[w].(runnable := true)]);
      forall a | 0 <= a < |rest|
        ensures rest[a] != w
      {
        assert rest[a] == s.waiting[a];
      }
      assert w !in rest;
      assert RegistryConsistent(st1) by {
        forall n, j | n in st1.sems && j in st1.sems[n].waiting
          ensures Blocked(st1, j)
        {
          assert j in st.sems[n].waiting;
          assert Blocked(st, j);
          if n != name {
            assert w in st.sems[name].waiting;
            assert j != w;
          }
        }
      }
      IncrIpPreservesValid(st1, tid);
    } else {
      var st1 := st.(sems := st.sems[name := s.(count := s.count + 1)]);
      SameWaitersKeepRegistry(st, st1);
      IncrIpPreservesValid(st1, tid);
    }
  }

  lemma SpawnPreservesValid(st: State, tid: nat, programName: string)
    requires Valid(st) && Runs(st, tid)
    ensures Valid(ExecSpawn(st, tid, programName))
  {
    var st1 := st.(threads := st.threads + [NewThread(programName)]);
    assert RegistryConsistent(st1) by {
      forall n, j | n in st1.sems && j in st1.sems[n].waiting
        ensures Blocked(st1, j)
      {
        assert Blocked(st, j);
      }
    }
    assert IpsInBounds(st1) by {
      forall j | 0 <= j < |st1.threads|
        ensures IpInBounds(st1.programs, st1.threads[j])
      {
        if j < |st.threads| {
          assert IpInBounds(st.programs, st.threads[j]);
        }
      }
    }
    IncrIpPreservesValid(st1, tid);
  }

  /** Executing a well-formed instruction on a runnable thread preserves the invariant. */
  lemma ExecPreservesValid(st: State, tid: nat, instr: Instr)
    requires Valid(st) && CanExec(st, tid, instr) && InstrWellFormed(instr)
    requires st.threads[tid].runnable
    ensures Valid(Exec(st, tid, instr))
  {
    match instr
    case SemaphoreMake(name, c) => MakePreservesValid(st, tid, name, c);
    case SemaphoreP(name) => PPreservesValid(st, tid, name);
    case SemaphoreV(name) => VPreservesValid(st, tid, name);
    case Print(text) =>
      var st1 := st.(output := st.output + [text]);
      SameFlagsKeepRegistry(st, st1);
      IncrIpPreservesValid(st1, tid);
    case SpawnThread(p) => SpawnPreservesValid(st, tid, p);
    case Jmp(to) => SetIpPreservesValid(st, tid, to);
  }

  /** Every tick preserves the invariant. */
  lemma TickPreservesValid(st: State, i: nat)
    requires Valid(st) && TickDefined(st, i)
    ensures Valid(Tick(st, i))
  {
    if Ready(st, i) {
      var k := st.threads[i].ip;
      assert InstrWellFormed(st.programs[st.threads[i].programName][k]);
      ExecPreservesValid(st, i, ProgramOf(st, i)[k]);
    }
  }

  /**
   * Under the invariant a release never pops an empty wait list: whenever
   * the count is below zero there is a waiter, and it is a thread of the table.
   */
  lemma ReleaseNeverPopsEmpty(st: State, tid: nat, name: string)
    requires Valid(st) && Runs(st, tid) && name in st.sems
    ensures CanExec(st, tid, SemaphoreV(name))
    ensures st.sems[name].count < 0 ==> |st.sems[name].waiting| == -st.sems[name].count
  {
    var s := st.sems[name];
    assert Balanced(s);
    if s.count < 0 {
      assert Last(s.waiting) in st.sems[name].waiting;
      assert Blocked(st, Last(s.waiting));
    }
  }

  /**
   * The wait-list balance on the semaphore concerned survives `semaphore_p`
   * and `semaphore_v` on their own, whatever else holds.
   */
  lemma PKeepsBalance(st: State, tid: nat, name: string)
    requires Runs(st, tid) && name in st.sems && Balanced(st.sems[name])
    ensures Balanced(Exec(st, tid, SemaphoreP(name)).sems[name])
  {
    PEffect(st, tid, name);
  }

  lemma VKeepsBalance(st: State, tid: nat, name: string)
    requires CanExec(st, tid, SemaphoreV(name)) && Balanced(st.sems[name])
    ensures Balanced(Exec(st, tid, SemaphoreV(name)).sems[name])
  {
    VEffect(st, tid, name);
  }

  // ----- programs stay installed -----

  /** Every `spawn_thread` in the table names an installed program. */
  ghost predicate SpawnTargetsInstalled(programs: map<string, seq<Instr>>) {
    forall p, k :: p in programs && 0 <= k < |programs[p]| && programs[p][k].SpawnThread? ==>
      programs[p][k].programName in programs
  }

  ghost predicate AllInstalled(st: State) {
    forall j :: 0 <= j < |st.threads| ==> st.threads[j].programName in st.programs
  }

  /**
   * With a table whose spawns name installed programs, every thread's
   * program stays installed, so no tick fails on the program lookup.
   */
  lemma TickKeepsProgramsInstalled(st: State, i: nat)
    requires TickDefined(st, i) && AllInstalled(st) && SpawnTargetsInstalled(st.programs)
    ensures AllInstalled(Tick(st, i)) && Tick(st, i).programs == st.programs
  {
    var r := Tick(st, i);
    if Ready(st, i) {
      var instr := ProgramOf(st, i)[st.threads[i].ip];
      match instr
      case SemaphoreMake(name, c) => MakeEffect(st, i, name, c);
      case SemaphoreP(name) => PEffect(st, i, name);
      case SemaphoreV(name) => VEffect(st, i, name);
      case Print(text) => PrintEffect(st, i, text);
      case SpawnThread(p) =>
        SpawnEffect(st, i, p);
        assert p in st.programs;
      case Jmp(to) => SetIpGuard(st, i, to);
    }
    forall j | 0 <= j < |r.threads|
      ensures r.threads[j].programName in r.programs
    {
      if j < |st.threads| && j != i {
        TickFrame(st, i, j);
      }
    }
  }

  // ----- re-creating a semaphore that has waiters -----

  /**
   * `semaphore_make` on a name whose semaphore has waiters drops them: each
   * stays blocked and no longer stands on any wait list.
   */
  lemma MakeOrphansWaiters(st: State, tid: nat, name: string, initialCount: int, j: nat)
    requires Valid(st) && Runs(st, tid) && name in st.sems && j in st.sems[name].waiting
    ensures var r := Exec(st, tid, SemaphoreMake(name, initialCount));
      Blocked(r, j) && !Listed(r.sems, j)
  {
    var r := Exec(st, tid, SemaphoreMake(name, initialCount));
    MakeEffect(st, tid, name, initialCount);
    assert Blocked(st, j);
    forall n | n in r.sems
      ensures j !in r.sems[n].waiting
    {
      if n != name {
        assert j !in st.sems[n].waiting;
      }
    }
  }

  /**
   * A blocked thread that stands on no wait list can never be woken: it
   * stays blocked and unlisted whatever thread is ticked.
   */
  lemma OrphanStaysBlocked(st: State, i: nat, j: nat)
    requires Valid(st) && TickDefined(st, i) && Blocked(st, j) && !Listed(st.sems, j)
    ensures var r := Tick(st, i);
      Blocked(r, j) && !Listed(r.sems, j)
  {
    var r := Tick(st, i);
    if Ready(st, i) {
      var instr := ProgramOf(st, i)[st.threads[i].ip];
      match instr
      case SemaphoreMake(name, c) =>
        MakeEffect(st, i, name, c);
        assert j !in r.sems[name].waiting;
        NotListedFromOthers(st, r, j, name);
      case SemaphoreP(name) =>
        PEffect(st, i, name);
        assert j != i;
        assert j !in r.sems[name].waiting by {
          assert j !in st.sems[name].waiting;
        }
        NotListedFromOthers(st, r, j, name);
      case SemaphoreV(name) =>
        VEffect(st, i, name);
        var s := st.sems[name];
        assert j !in st.sems[name].waiting;
        if s.count < 0 {
          assert Last(s.waiting) in st.sems[name].waiting;
          assert r.sems[name].waiting <= s.waiting;
        }
        assert j !in r.sems[name].waiting;
        NotListedFromOthers(st, r, j, name);
      case Print(text) => PrintEffect(st, i, text);
      case SpawnThread(p) => SpawnEffect(st, i, p);
      case Jmp(to) => SetIpGuard(st, i, to);
    }
  }

  lemma NotListedFromOthers(st: State, r: State, j: nat, name: string)
    requires !Listed(st.sems, j) && name in r.sems && j !in r.sems[name].waiting
    requires r.sems.Keys == st.sems.Keys || r.sems.Keys == st.sems.Keys + {name}
    requires forall n :: n in st.sems && n != name ==> r.sems[n] == st.sems[n]
    ensures !Listed(r.sems, j)
  {
    forall n | n in r.sems
      ensures j !in r.sems[n].waiting
    {
      if n != name {
        assert j !in st.sems[n].waiting;
      }
    }
  }
}
