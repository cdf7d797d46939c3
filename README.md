# Little playground of semaphores: the instruction machine

A model, in Dafny, of the cooperative "CPU" in `machine.js`. The machine holds:

- a program table, which maps a program name to a list of instructions;
- a thread table, whose records hold a program name, an instruction pointer and a runnable flag;
- a registry of named counting semaphores, each with a count and a list of waiting threads.

An external driver picks a thread index, and `tick_thread` runs one instruction of that thread. It does so only if the thread is runnable and its pointer lies inside its program; otherwise the tick does nothing. There are six instructions:

- `semaphore_make` creates a semaphore (or replaces one of the same name).
- `semaphore_p` takes one from the count. If the count goes below zero, the thread blocks and goes on the wait list.
- `semaphore_v` adds one to the count. If the count was below zero, it first wakes the thread that blocked last.
- `print` writes a line.
- `spawn_thread` appends a thread.
- `jmp` moves the pointer, but only to a target no larger than the program length.

The files:

- `Instructions.dfy`: the instruction datatype. It also has `Render` (the `human_readable_string` methods, with JavaScript's decimal rendering of the jump target) and its inverse, `Decode`.
- `Semantics.dfy`: the thread, semaphore and machine records. It defines `_new_thread`, `_new_semaphore`, `_set_ip`, `_incr_ip`, each instruction's `apply` and `tick_thread` as functions from state to state. The predicates `CanExec` and `TickDefined` say when `apply` and `tick_thread` do not crash.
- `Effects.dfy`: what each instruction changes and what it leaves alone, and what a tick leaves alone.
- `Invariants.dfy`: the machine invariant `Valid` and the proofs that every instruction and every tick preserve it. `Valid` says:
  - every pointer lies in `0..|program|`;
  - every wait list is as long as the count is below zero;
  - every waiting thread is blocked;
  - no thread waits twice.
  The file also covers what re-creating a semaphore does to its waiters.
- `Boot.dfy`: the working memory `M`, meaning the programs `start`, `program0` and `program1` and the boot thread. It proves that no sequence of ticks of existing threads from `M` crashes, and it traces the first pass of `start`.
- `Scenarios.dfy`: acquire/release runs on any state: a pair on one thread, the hand-over to a blocked thread, and the last-in-first-out wake order. Also spawn-then-run.
- `Exclusion.dfy`: what `s` is for. It proves mutual exclusion between the two workers on every run from `M` in which `start` never re-creates `s` while a worker holds it. It also exhibits a run that breaks this rule and puts both workers inside at once.
- `Cpu.dfy`: class `Machine`. Its fields are updated in place by one method per `apply`, by `_set_ip`/`_incr_ip` and by `tick_thread`. Each method is proved to produce exactly the state that the matching `Semantics` function gives.

Thread and semaphore records are datatype values stored in the machine's `seq` and `map` fields. In the source they are objects whose fields change in place. Threads are referred to only by index and semaphores only by name, and no record is shared, so replacing a record has the same effect as updating its fields.

Three behaviours of the code worth knowing:

- `_set_ip` (`machine.js:25`) checks only `to <= program.length`, so a negative jump target would be accepted. A later tick would then read `program[-1]` and crash. The installed programs only jump to 0. `Valid` requires jump targets and initial counts to be non-negative (`Invariants.InstrWellFormed`).
- `spawn_thread` of a program that is not installed still appends the thread (`machine.js:97`). Within `tick_thread`'s own lines (`machine.js:251-261`), only a later tick of that thread crashes, when it reads the length of the missing program (`machine.js:255`), and only while the thread is runnable; see `Scenarios.SpawnUnknownProgram` and `Scenarios.BlockedTickIsNoop`.
- After four ticks of the boot thread, its pointer is at `jmp 0`. The fifth tick jumps, and only the sixth runs `semaphore_make` again (`Boot.StartFirstPass`).

The source crashes when `semaphore_p`/`semaphore_v` name a semaphore that was never made, when a release with a negative count finds an empty wait list, and when a runnable thread's program is missing (`machine.js:255`). In the model, these cases are preconditions (`CanExec`, `TickDefined`). `Boot.BootTickSafe` proves that ticks of the boot machine never meet them.

## Model

| member | source | states |
|---|---|---|
| `Instructions.RenderRoundTrip` | machine.js:44-112 | Reading any instruction's rendering back gives the instruction again. The only exception is `semaphore_make`'s initial count, which is not rendered. |
| `Instructions.RenderInjective` | machine.js:44-112 | Two instructions render to the same text exactly when they agree on everything the text shows: kind, name or text, jump target. |
| `Instructions.IntToStringRoundTrip` | machine.js:111 | The decimal rendering of a jump target reads back as the same integer, negative or not. |
| `Semantics.NewThread` | machine.js:3-10 | A new thread runs the given program from instruction 0 and is runnable, so its pointer is within bounds for any program table. |
| `Semantics.NewSemaphore` | machine.js:12-18 | A new semaphore has the given name and count and nobody waiting. Its wait list is balanced exactly when the count is not negative. |
| `Effects.SetIpGuard` | machine.js:20-26 | The pointer moves to `to` only when `to <= program length`; otherwise nothing changes. A pointer at most the length stays so. No other thread or field changes. |
| `Effects.IncrIpEffect` | machine.js:28-32 | The pointer advances by one unless it already stands at or past the end. Nothing else changes. |
| `Effects.JmpBoundary` | machine.js:106-109 | `jmp` to the program length is accepted, and a tick of that thread then changes nothing. `jmp` to the length plus one leaves the state unchanged. |
| `Effects.MakeEffect` | machine.js:36-43 | The semaphore `name` gets count `initialCount` and an empty wait list, replacing any earlier one. No other semaphore or thread changes. The executing thread advances. |
| `Effects.PEffect` | machine.js:49-60 | The count drops by exactly one. If it is now negative, the thread is appended to the wait list and blocked; otherwise the list and the flag are kept. The pointer advances either way, and no other thread or semaphore changes. |
| `Effects.VEffect` | machine.js:66-77 | The count rises by exactly one. If it was negative, the last waiter is removed and made runnable, and the rest of the list and all other threads are unchanged. The executing thread advances. |
| `Effects.PrintEffect` | machine.js:83-89 | The text is appended to the output, and only the executing thread's pointer changes. |
| `Effects.SpawnEffect` | machine.js:95-100 | Exactly one thread is added, at the end of the table: the given program, at instruction 0, runnable. Existing threads keep their indices and records; only the spawning thread advances. |
| `Effects.TickFrame` | machine.js:251-261 | A tick of thread `i` does not move any other thread's pointer or change its program. It removes no thread and leaves the program table alone. |
| `Effects.HaltedIsFinal` | machine.js:251-261 | A thread whose pointer is at or past the end of its program stays there, whichever thread is ticked. |
| `Effects.TickOnlyGrows` | machine.js:251-261 | A tick never removes a thread or a semaphore and never changes the program table. |
| `Invariants.SetIpPreservesValid` | machine.js:20-26 | Moving a pointer to a non-negative target preserves the machine invariant. |
| `Invariants.IncrIpPreservesValid` | machine.js:28-32 | Advancing a pointer preserves the machine invariant. |
| `Invariants.MakePreservesValid` | machine.js:36-43 | `semaphore_make` with a non-negative count preserves the machine invariant. |
| `Invariants.PPreservesValid` | machine.js:49-60 | `semaphore_p` by a runnable thread preserves the invariant. This includes "wait list length = how far the count is below zero" and "each waiter is blocked and waits once". |
| `Invariants.VPreservesValid` | machine.js:66-77 | `semaphore_v` preserves the invariant. The woken thread was on no other list, so every remaining waiter is still blocked. |
| `Invariants.SpawnPreservesValid` | machine.js:95-100 | `spawn_thread` preserves the machine invariant. |
| `Invariants.ExecPreservesValid` | machine.js:39-109 | Any well-formed instruction executed by a runnable thread preserves the machine invariant. |
| `Invariants.TickPreservesValid` | machine.js:251-261 | Every tick preserves the machine invariant. |
| `Invariants.ReleaseNeverPopsEmpty` | machine.js:70-72 | Under the invariant, a release whose count is negative finds exactly `-count` waiters, so it never pops an empty list. The popped index is a thread of the table. |
| `Invariants.PKeepsBalance` | machine.js:53-57 | `semaphore_p` keeps `|wait list| == max(0, -count)` on its semaphore. |
| `Invariants.VKeepsBalance` | machine.js:70-74 | `semaphore_v` keeps `|wait list| == max(0, -count)` on its semaphore. |
| `Invariants.TickKeepsProgramsInstalled` | machine.js:251-253 | If every `spawn_thread` in the table names an installed program, every thread's program stays installed. |
| `Invariants.MakeOrphansWaiters` | machine.js:40 | Re-creating a semaphore that has waiters leaves each of them blocked and on no wait list. |
| `Invariants.OrphanStaysBlocked` | machine.js:66-77 | A blocked thread on no wait list stays blocked and unlisted whatever is ticked: no release can ever wake it. |
| `Boot.BootState` | machine.js:117-143 | `M` satisfies the boot invariant. It has one thread, running `start`, ready to run, and no semaphore and no output. |
| `Boot.BootTableWellFormed` | machine.js:125-143 | The installed programs jump and count non-negatively. They spawn only installed programs, and acquire and release only `s`. |
| `Boot.BootTickSafe` | machine.js:251-261 | From any state reachable from `M`, a tick of any thread in the table is defined (nothing crashes), and the boot invariant holds again afterwards. |
| `Boot.StartFirstPass` | machine.js:125-131 | Four ticks of the boot thread create `s` with count 1, spawn `program0` and `program1` at instruction 0 and print `started!` once. The fifth tick jumps to 0, and the sixth re-creates `s` with count 1. |
| `Boot.RemakeAdmitsTwoWorkers` | machine.js:125-143 | Because `start` loops back and re-creates `s`, some tick sequence from `M` puts `program0` and `program1` both inside their critical sections at once. |
| `Exclusion.AtMostOneInside` | machine.js:133-143 | While the count of `s` accounts for the workers, two workers inside their critical sections are the same thread. |
| `Exclusion.StartStepKeeps` | machine.js:125-131 | Every step of `start` keeps the accounting, except re-creating `s` while its count is below 1. Creating it the first time establishes the accounting. |
| `Exclusion.AcquireKeeps` | machine.js:49-60 | A worker's `semaphore_p` on `s` keeps the accounting. If the count was 1, the worker becomes the only one inside. Otherwise it waits at the entry and the holder stays the only one inside. |
| `Exclusion.InsidePrintKeeps` | machine.js:83-89 | The worker inside prints and remains the only one inside. |
| `Exclusion.ReleaseWakesKeeps` | machine.js:66-77 | A release of `s` with waiters hands the critical section to the worker that waited last, which becomes the only one inside. Everyone still waiting is a worker at its entry. |
| `Exclusion.ReleaseFreesKeeps` | machine.js:66-77 | A release of `s` with nobody waiting brings the count back to 1 with nobody inside. |
| `Exclusion.TickKeepsExclusive` | machine.js:251-261 | Every tick of a thread in the table keeps the accounting and does not crash, unless it re-creates `s` while the count is below 1. |
| `Exclusion.Run` | machine.js:251-261 | Ticking any sequence of threads of the table, starting from a state that satisfies the boot invariant, gives a state that satisfies the boot invariant again. |
| `Exclusion.RunKeepsExclusive` | machine.js:251-261 | A whole run with no re-creation of a held `s` keeps the accounting. |
| `Exclusion.MutualExclusion` | machine.js:125-143 | On every run from `M` in which `start` never re-creates `s` while it is held, at most one worker is inside its critical section. |
| `Exclusion.HeldRemakeBreaksExclusion` | machine.js:125-143 | The run `0,0,0,1,0,0,0,2` from `M` ticks only threads of the table. Its seventh tick re-creates `s` while `program0` holds it, and it ends with both workers inside. |
| `Scenarios.AcquireReleaseRestores` | machine.js:49-77 | `semaphore_p` then `semaphore_v` by one thread on count 1 leaves the semaphore as it was, and the thread does not block. |
| `Scenarios.SecondAcquirerWaitsForRelease` | machine.js:49-77 | On count 1, the second acquirer blocks and is the only waiter. The first thread's release wakes it and leaves count 0 and an empty list. |
| `Scenarios.LastBlockedWakesFirst` | machine.js:49-77 | With waiters `[t1, t2]`, one release wakes `t2`, the one that blocked last, and leaves `t1` blocked and waiting. |
| `Scenarios.SpawnThenRun` | machine.js:95-100 | A thread spawned on an installed non-empty program is ready at instruction 0. Its first tick runs that program's instruction 0. |
| `Scenarios.SpawnUnknownProgram` | machine.js:95-97 | Spawning a program that is not installed still appends a thread. That thread is runnable, so a tick of it is not defined. |
| `Scenarios.BlockedTickIsNoop` | machine.js:251-261 | A tick of a blocked thread is defined and changes nothing, whether or not its program is installed. |
| `Cpu.Machine.constructor` | machine.js:117-143 | The new machine is `M` with the three programs installed, and it satisfies the boot invariant. |
| `Cpu.Machine.SetIp` | machine.js:20-26 | Updates the fields to exactly `Semantics.SetIp` of the old state. |
| `Cpu.Machine.IncrIp` | machine.js:29-32 | Updates the fields to exactly `Semantics.IncrIp` of the old state. |
| `Cpu.Machine.ApplyMake` | machine.js:39-43 | The new state is `Exec` of `semaphore_make` on the old state. |
| `Cpu.Machine.ApplyP` | machine.js:50-60 | The new state is `Exec` of `semaphore_p` on the old state. |
| `Cpu.Machine.ApplyV` | machine.js:67-77 | The new state is `Exec` of `semaphore_v` on the old state. |
| `Cpu.Machine.ApplyPrint` | machine.js:85-89 | The new state is `Exec` of `print` on the old state. |
| `Cpu.Machine.ApplySpawn` | machine.js:96-100 | The new state is `Exec` of `spawn_thread` on the old state. |
| `Cpu.Machine.ApplyJmp` | machine.js:107-109 | The new state is `Exec` of `jmp` on the old state. |
| `Cpu.Machine.Apply` | machine.js:257-260 | Dispatching on the instruction kind gives exactly `Exec` of that instruction. |
| `Cpu.Machine.TickThread` | machine.js:251-261 | The new state is `Tick` of the old state. It is unchanged when the thread is blocked or past its program's end, and the machine invariant survives. |

The step functions that make up the model itself are specified by the lemmas above rather than by their own contracts:
- `Semantics.SetIp` (machine.js:20-26);
- `Semantics.IncrIp` (machine.js:29-32);
- `Semantics.ExecMake` (machine.js:39-43);
- `Semantics.ExecP` (machine.js:50-60);
- `Semantics.ExecV` (machine.js:67-77);
- `Semantics.ExecPrint` (machine.js:85-89);
- `Semantics.ExecSpawn` (machine.js:96-100);
- `Semantics.Exec` (machine.js:257-260);
- `Semantics.Tick` (machine.js:251-261);
- `Instructions.Render` (machine.js:44-46, 61-63, 78-80, 90-92, 101-103, 110-112).

## Left out

- Drawing (`draw_instruction`, `draw_ip_arrow`, `draw_thread`, `draw_canvas`, `boot`, and the `draw_canvas` call in `tick_thread`) is left out. It is rendering through Processing.js, not machine logic. `draw_canvas` reads the program length of every thread (`machine.js:202-203`). So once some thread's program is missing, it throws at the end of every tick, after that tick's state change, the spawning tick included. The model drops that throw and keeps the state change. `Scenarios.SpawnUnknownProgram` and `Scenarios.BlockedTickIsNoop` describe `machine.js:251-261` only.
- `Layout` and `tick_button_i` are left out. They are floating-point screen geometry that maps a click to a thread index; the model takes the index as a parameter.
- `mouseClicked`, `debug` and `core_count` are left out. They are UI event plumbing, a debug call and an unused variable.
- `println` is modelled as appending the line to the machine's `output` sequence; the console itself is external.
- Semaphores live in their own map. In the source they are stored on the machine object itself (`m[name]`), so a semaphore named `programs` or `threads` would overwrite the program table or the thread table. The model does not reproduce that collision.
- `IntToString` renders integers in plain decimal. JavaScript switches to exponent notation from 10^21 on, and jump targets are program-length integers far below that.
- Counts are unbounded integers. JavaScript numbers are doubles and stop being exact beyond 2^53; no program comes near that.
- Names are looked up exactly. The source's program table and machine object are plain JavaScript objects, so its lookups also find inherited names such as `toString` or `constructor`. A spawned `toString` thread, for instance, reads a function's `length` of 0 and does nothing instead of crashing. The model treats such names as not installed.
- The crash paths (unknown semaphore, missing program of a runnable thread, release with a negative count and an empty wait list, negative pointer, out-of-range thread index) are preconditions. The model says nothing about the state after such a crash.
