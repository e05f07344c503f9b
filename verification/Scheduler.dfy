/** The round-robin scheduler as a state machine over the task queue and the stack slab. */
module Scheduler {
  import opened Bits
  import opened FreeLists
  import opened StackSlab

  /** The general registers in push order, then what the processor pushes on an interrupt. */
  datatype Registers = Registers(general: seq<nat>, rip: nat, cs: nat, rflags: nat, rsp: nat, ss: nat)

  datatype TaskState = Ready | Running | Terminated | Waiting(interrupt: nat)

  datatype TaskKind =
    | Kernel(stack: Option<nat>)
    | User(userStack: nat, userLimit: nat, pages: nat, kernelStack: nat)

  /** `id` only names a task for the statements below; no operation looks at it. */
  datatype Task = Task(id: nat, kind: TaskKind, regs: Registers, state: TaskState, cr3: nat)

  /** `cpu` and `cr3` are what the last switch loaded. */
  datatype Machine = Machine(queue: seq<Task>, bitmap: nat, cpu: Registers, cr3: nat)

  const BOOT: nat := 0

  function StackOf(k: TaskKind): Option<nat> {
    match k
    case Kernel(s) => s
    case User(_, _, _, kernelStack) => Some(kernelStack)
  }

  // ---- steps ----

  /** Saving the interrupted task: a terminated one is dropped, any other goes to the back with the
      registers it was interrupted with, still waiting if it was waiting. */
  function Requeue(q: seq<Task>, ctx: Registers): seq<Task>
    requires q != []
  {
    match q[0].state
    case Terminated => q[1..]
    case Waiting(_) => q[1..] + [q[0].(regs := ctx)]
    case _ => q[1..] + [q[0].(regs := ctx, state := Ready)]
  }

  function Dispatch(q: seq<Task>): seq<Task>
    requires q != []
  {
    q[0 := q[0].(state := Running)]
  }

  function WakeAll(q: seq<Task>, interrupt: nat): seq<Task> {
    if q == [] then []
    else [if q[0].state == Waiting(interrupt) then q[0].(state := Ready) else q[0]] + WakeAll(q[1..], interrupt)
  }

  datatype Event =
    | Tick(ctx: Registers)
    | Yield(interrupt: nat)
    | Wake(interrupt: nat)
    | Exit
    | Create(task: Task)
    | CreateFailed

  function OwnsBlock(t: Task): Option<nat> {
    match StackOf(t.kind)
    case None => None
    case Some(a) => if a >= KERNEL_TASKS_START then Some(BlockOf(a)) else None
  }

  ghost predicate Step(s: Machine, e: Event, t: Machine) {
    match e
    case Tick(ctx) =>
      && s.queue != []
      && Requeue(s.queue, ctx) != []
      && t.queue == Dispatch(Requeue(s.queue, ctx))
      && t.cpu == t.queue[0].regs && t.cr3 == t.queue[0].cr3
      && t.bitmap < Pow2(128)
      && forall i: nat :: Bit(t.bitmap, i) <==>
           Bit(s.bitmap, i) && !(s.queue[0].state == Terminated && OwnsBlock(s.queue[0]) == Some(i))
    case Yield(interrupt) =>
      s.queue != [] && t == s.(queue := s.queue[0 := s.queue[0].(state := Waiting(interrupt))])
    case Wake(interrupt) =>
      t == s.(queue := WakeAll(s.queue, interrupt))
    case Exit =>
      s.queue != [] && t == s.(queue := s.queue[0 := s.queue[0].(state := Terminated)])
    case Create(task) =>
      && task.state == Ready && task.id != BOOT && (forall i :: 0 <= i < |s.queue| ==> s.queue[i].id != task.id)
      && (exists i: nat :: Taken(s.bitmap, t.bitmap, i) && StackOf(task.kind) == Some(StackTop(i)))
      && t == s.(queue := s.queue + [task], bitmap := t.bitmap)
    case CreateFailed => t == s
  }

  // ---- the invariant ----

  /** Each taken block belongs to exactly one queued task and each stack is a taken block. */
  ghost predicate Owned(q: seq<Task>, bitmap: nat) {
    && bitmap < Pow2(128)
    && (forall i {:trigger HoldsStack(q[i], bitmap)} :: 0 <= i < |q| && q[i].id != BOOT ==> HoldsStack(q[i], bitmap))
    && (forall i, j {:trigger OwnsBlock(q[i]), OwnsBlock(q[j])} ::
          0 <= i < j < |q| && q[i].id != BOOT && q[j].id != BOOT ==> OwnsBlock(q[i]) != OwnsBlock(q[j]))
    && (forall b: nat {:trigger HasOwner(q, b)} :: Bit(bitmap, b) ==> HasOwner(q, b))
  }

  ghost predicate HoldsStack(t: Task, bitmap: nat) {
    exists b: nat :: b < 128 && StackOf(t.kind) == Some(StackTop(b)) && OwnsBlock(t) == Some(b) && Bit(bitmap, b)
  }

  ghost predicate HasOwner(q: seq<Task>, b: nat) {
    exists i :: 0 <= i < |q| && q[i].id != BOOT && OwnsBlock(q[i]) == Some(b)
  }

  ghost predicate Named(q: seq<Task>) {
    forall i, j :: 0 <= i < j < |q| ==> q[i].id != q[j].id
  }

  ghost predicate HasBoot(q: seq<Task>) {
    exists i :: 0 <= i < |q| && q[i].id == BOOT
  }

  /** Only the front may be running or terminated, and the boot task is neither dropped nor owns a
      slab stack. */
  ghost predicate Orderly(q: seq<Task>) {
    && (forall i :: 0 < i < |q| ==> q[i].state.Ready? || q[i].state.Waiting?)
    && (forall i :: 0 <= i < |q| && q[i].id == BOOT ==> q[i].state != Terminated && q[i].kind == Kernel(None))
  }

  ghost predicate Inv(s: Machine) {
    Named(s.queue) && HasBoot(s.queue) && Orderly(s.queue) && Owned(s.queue, s.bitmap)
  }

  /** What `kinit_multitasking` relies on: only new tasks are queued, each with its stack. */
  ghost predicate BeforeBoot(s: Machine) {
    && Named(s.queue) && Owned(s.queue, s.bitmap)
    && forall i :: 0 <= i < |s.queue| ==> s.queue[i].id != BOOT && s.queue[i].state == Ready
  }

  function WithBoot(s: Machine, regs: Registers, cr3: nat): Machine {
    s.(queue := [Task(BOOT, Kernel(None), regs, Running, cr3)] + s.queue)
  }

  lemma {:induction false} BootEstablishes(s: Machine, regs: Registers, cr3: nat)
    requires BeforeBoot(s)
    ensures Inv(WithBoot(s, regs, cr3))
  {
    var q := WithBoot(s, regs, cr3).queue;
    assert q[0].id == BOOT && q[1..] == s.queue;
    forall b: nat | Bit(s.bitmap, b) ensures HasOwner(q, b) {
      assert HasOwner(s.queue, b);
      var i :| 0 <= i < |s.queue| && s.queue[i].id != BOOT && OwnsBlock(s.queue[i]) == Some(b);
      assert q[i + 1] == s.queue[i];
    }
  }

  // ---- each step keeps the invariant ----

  /** Same tasks in the same order, up to their states and saved registers. */
  ghost predicate SameTasks(q: seq<Task>, r: seq<Task>) {
    && |r| == |q|
    && forall i :: 0 <= i < |q| ==> r[i].id == q[i].id && r[i].kind == q[i].kind && r[i].cr3 == q[i].cr3
  }

  lemma {:induction false} SameTasksOwned(q: seq<Task>, r: seq<Task>, bitmap: nat)
    requires SameTasks(q, r) && Owned(q, bitmap)
    ensures Owned(r, bitmap)
  {
    assert forall i :: 0 <= i < |q| ==> OwnsBlock(r[i]) == OwnsBlock(q[i]);
    forall i | 0 <= i < |r| && r[i].id != BOOT ensures HoldsStack(r[i], bitmap) {
      assert HoldsStack(q[i], bitmap);
      var b: nat :| b < 128 && StackOf(q[i].kind) == Some(StackTop(b)) && OwnsBlock(q[i]) == Some(b) && Bit(bitmap, b);
      assert OwnsBlock(r[i]) == Some(b);
    }
    forall b: nat | Bit(bitmap, b) ensures HasOwner(r, b) {
      assert HasOwner(q, b);
      var i :| 0 <= i < |q| && q[i].id != BOOT && OwnsBlock(q[i]) == Some(b);
      assert r[i].id == q[i].id && OwnsBlock(r[i]) == Some(b);
    }
  }

  lemma {:induction false} SameTasksKeep(q: seq<Task>, r: seq<Task>)
    requires SameTasks(q, r) && Named(q) && HasBoot(q)
    ensures Named(r) && HasBoot(r)
  {
    var b :| 0 <= b < |q| && q[b].id == BOOT;
    assert r[b].id == BOOT;
  }

  lemma {:induction false} WakeAllIsPointwise(q: seq<Task>, interrupt: nat, i: nat)
    requires i < |q|
    ensures |WakeAll(q, interrupt)| == |q|
    ensures WakeAll(q, interrupt)[i] == if q[i].state == Waiting(interrupt) then q[i].(state := Ready) else q[i]
  {
    if i > 0 {
      WakeAllIsPointwise(q[1..], interrupt, i - 1);
    } else if |q| > 1 {
      WakeAllIsPointwise(q[1..], interrupt, 0);
    }
  }

  lemma {:induction false} WakeInv(s: Machine, interrupt: nat)
    requires Inv(s)
    ensures Inv(s.(queue := WakeAll(s.queue, interrupt)))
  {
    WokenTasks(s.queue, interrupt);
    SameTasksKeep(s.queue, WakeAll(s.queue, interrupt));
    SameTasksOwned(s.queue, WakeAll(s.queue, interrupt), s.bitmap);
  }

  lemma {:induction false} WokenTasks(q: seq<Task>, interrupt: nat)
    ensures SameTasks(q, WakeAll(q, interrupt))
    ensures Orderly(q) ==> Orderly(WakeAll(q, interrupt))
  {
    var r := WakeAll(q, interrupt);
    if q != [] { WakeAllIsPointwise(q, interrupt, 0); }
    forall i | 0 <= i < |q|
      ensures r[i] == if q[i].state == Waiting(interrupt) then q[i].(state := Ready) else q[i]
    {
      WakeAllIsPointwise(q, interrupt, i);
    }
  }

  lemma {:induction false} AllWoken(q: seq<Task>, interrupt: nat, r: seq<Task>)
    requires |r| == |q| && forall i :: 0 <= i < |q| ==>
      r[i] == if q[i].state == Waiting(interrupt) then q[i].(state := Ready) else q[i]
    ensures r == WakeAll(q, interrupt)
  {
    if q != [] {
      AllWoken(q[1..], interrupt, r[1..]);
      assert r == [r[0]] + r[1..];
    }
  }

  /** Marking the front task, as yielding and exiting do. */
  lemma {:induction false} MarkInv(s: Machine, state: TaskState)
    requires Inv(s)
    ensures Inv(s.(queue := s.queue[0 := s.queue[0].(state := state)])) <==>
      !(state == Terminated && s.queue[0].id == BOOT)
  {
    var r := s.queue[0 := s.queue[0].(state := state)];
    assert SameTasks(s.queue, r);
    SameTasksKeep(s.queue, r);
    SameTasksOwned(s.queue, r, s.bitmap);
  }

  lemma {:induction false} CreateInv(s: Machine, task: Task, t: Machine)
    requires Inv(s) && Step(s, Create(task), t)
    ensures Inv(t)
  {
    var q, r := s.queue, t.queue;
    var b: nat :| Taken(s.bitmap, t.bitmap, b) && StackOf(task.kind) == Some(StackTop(b));
    BlockOfStackTop(b);
    forall i | 0 <= i < |q| ensures r[i] == q[i] { }
    assert r[|q|] == task && OwnsBlock(task) == Some(b);
    AppendOwned(q, s.bitmap, task, b, t.bitmap);
    var k :| 0 <= k < |q| && q[k].id == BOOT;
    assert r[k].id == BOOT;
  }

  /** Tasks may be created before the boot task is added, too. */
  lemma {:induction false} CreateBeforeBoot(s: Machine, task: Task, t: Machine)
    requires BeforeBoot(s) && Step(s, Create(task), t)
    ensures BeforeBoot(t)
  {
    var b: nat :| Taken(s.bitmap, t.bitmap, b) && StackOf(task.kind) == Some(StackTop(b));
    BlockOfStackTop(b);
    AppendOwned(s.queue, s.bitmap, task, b, t.bitmap);
  }

  lemma {:induction false} AppendOwned(q: seq<Task>, bitmap: nat, task: Task, b: nat, bitmap': nat)
    requires Owned(q, bitmap) && Taken(bitmap, bitmap', b) && task.id != BOOT
    requires StackOf(task.kind) == Some(StackTop(b)) && OwnsBlock(task) == Some(b)
    ensures Owned(q + [task], bitmap')
  {
    var r := q + [task];
    forall i | 0 <= i < |r| && r[i].id != BOOT ensures HoldsStack(r[i], bitmap') {
      if i < |q| {
        assert HoldsStack(q[i], bitmap);
        var c: nat :| c < 128 && StackOf(q[i].kind) == Some(StackTop(c)) && OwnsBlock(q[i]) == Some(c)
                      && Bit(bitmap, c);
        assert Bit(bitmap', c);
      } else {
        assert Bit(bitmap', b);
      }
    }
    forall i, j | 0 <= i < j < |r| && r[i].id != BOOT && r[j].id != BOOT ensures OwnsBlock(r[i]) != OwnsBlock(r[j]) {
      assert HoldsStack(q[i], bitmap);
    }
    forall c: nat | Bit(bitmap', c) ensures HasOwner(r, c) {
      if c == b {
        assert r[|q|] == task;
      } else {
        assert Bit(bitmap, c) && HasOwner(q, c);
        var i :| 0 <= i < |q| && q[i].id != BOOT && OwnsBlock(q[i]) == Some(c);
        assert r[i] == q[i];
      }
    }
  }

  /** Moving the front task to the back. */
  lemma {:induction false} RotateOwned(q: seq<Task>, bitmap: nat, back: Task)
    requires q != [] && Owned(q, bitmap) && back.id == q[0].id && back.kind == q[0].kind
    ensures Owned(q[1..] + [back], bitmap)
  {
    var r := q[1..] + [back];
    assert OwnsBlock(back) == OwnsBlock(q[0]);
    forall i | 0 <= i < |r| && r[i].id != BOOT ensures HoldsStack(r[i], bitmap) {
      var k := if i + 1 < |q| then i + 1 else 0;
      assert HoldsStack(q[k], bitmap);
      var c: nat :| c < 128 && StackOf(q[k].kind) == Some(StackTop(c)) && OwnsBlock(q[k]) == Some(c) && Bit(bitmap, c);
      assert OwnsBlock(r[i]) == Some(c);
    }
    forall c: nat | Bit(bitmap, c) ensures HasOwner(r, c) {
      assert HasOwner(q, c);
      var i :| 0 <= i < |q| && q[i].id != BOOT && OwnsBlock(q[i]) == Some(c);
      var k := if i == 0 then |q| - 1 else i - 1;
      assert r[k].id == q[i].id && OwnsBlock(r[k]) == Some(c);
    }
    forall i, j | 0 <= i < j < |r| && r[i].id != BOOT && r[j].id != BOOT ensures OwnsBlock(r[i]) != OwnsBlock(r[j]) {
      assert r[i] == q[i + 1];
      assert j + 1 < |q| ==> r[j] == q[j + 1];
    }
  }

  /** Dropping the front task and clearing the bit of its stack. */
  lemma {:induction false} DropOwned(q: seq<Task>, bitmap: nat, bitmap': nat)
    requires q != [] && Owned(q, bitmap) && q[0].id != BOOT && bitmap' < Pow2(128)
    requires forall i: nat :: Bit(bitmap', i) <==> Bit(bitmap, i) && OwnsBlock(q[0]) != Some(i)
    ensures Owned(q[1..], bitmap')
  {
    var r := q[1..];
    forall i | 0 <= i < |r| && r[i].id != BOOT ensures HoldsStack(r[i], bitmap') {
      assert r[i] == q[i + 1] && HoldsStack(q[i + 1], bitmap);
      var c: nat :| c < 128 && StackOf(q[i + 1].kind) == Some(StackTop(c)) && OwnsBlock(q[i + 1]) == Some(c)
                    && Bit(bitmap, c);
      assert Bit(bitmap', c);
    }
    forall c: nat | Bit(bitmap', c) ensures HasOwner(r, c) {
      assert Bit(bitmap, c) && HasOwner(q, c);
      var i :| 0 <= i < |q| && q[i].id != BOOT && OwnsBlock(q[i]) == Some(c);
      assert r[i - 1] == q[i];
    }
  }

  /** After a tick exactly one task is running, and it is the front one. */
  ghost predicate OneRunning(q: seq<Task>) {
    q != [] && forall i :: 0 <= i < |q| ==> (q[i].state == Running <==> i == 0)
  }

  lemma {:induction false} TickInv(s: Machine, ctx: Registers, t: Machine)
    requires Inv(s) && Step(s, Tick(ctx), t)
    ensures Inv(t) && OneRunning(t.queue)
  {
    var q := s.queue;
    var m := Requeue(q, ctx);
    RequeueShape(q, ctx);
    RequeueKeeps(q, m);
    TickOwned(s, ctx, t);
    assert SameTasks(m, t.queue);
    SameTasksKeep(m, t.queue);
    SameTasksOwned(m, t.queue, t.bitmap);
  }

  lemma {:induction false} TickOwned(s: Machine, ctx: Registers, t: Machine)
    requires Inv(s) && Step(s, Tick(ctx), t)
    ensures Owned(Requeue(s.queue, ctx), t.bitmap)
  {
    var m := Requeue(s.queue, ctx);
    RequeueShape(s.queue, ctx);
    if s.queue[0].state == Terminated {
      DropOwned(s.queue, s.bitmap, t.bitmap);
    } else {
      RotateOwned(s.queue, s.bitmap, m[|s.queue| - 1]);
      SameBits(m, s.bitmap, t.bitmap);
    }
  }

  /** After saving the front task nothing is running or terminated. */
  ghost predicate AllIdle(q: seq<Task>) {
    forall i :: 0 <= i < |q| ==> q[i].state.Ready? || q[i].state.Waiting?
  }

  lemma {:induction false} RequeueKeeps(q: seq<Task>, m: seq<Task>)
    requires q != [] && Named(q) && HasBoot(q) && Orderly(q)
    requires if q[0].state == Terminated then m == q[1..]
      else |m| == |q| && m == q[1..] + [m[|q| - 1]] && m[|q| - 1].id == q[0].id && m[|q| - 1].kind == q[0].kind
           && (m[|q| - 1].state.Ready? || m[|q| - 1].state.Waiting?)
    ensures Named(m) && HasBoot(m) && Orderly(m) && AllIdle(m)
  {
    var b :| 0 <= b < |q| && q[b].id == BOOT;
    assert m[if b == 0 then |q| - 1 else b - 1].id == BOOT;
    assert forall i :: 0 <= i < |q| - 1 ==> m[i] == q[i + 1];
  }

  lemma {:induction false} SameBits(q: seq<Task>, bitmap: nat, bitmap': nat)
    requires Owned(q, bitmap) && bitmap' < Pow2(128) && forall i: nat :: Bit(bitmap', i) <==> Bit(bitmap, i)
    ensures Owned(q, bitmap')
  {
    forall i | 0 <= i < |q| && q[i].id != BOOT ensures HoldsStack(q[i], bitmap') {
      assert HoldsStack(q[i], bitmap);
    }
  }

  /** Where each task goes: one place forward, or the front task to the back. */
  lemma {:induction false} RequeueShape(q: seq<Task>, ctx: Registers)
    requires q != []
    ensures var m := Requeue(q, ctx);
      && (q[0].state == Terminated ==> m == q[1..])
      && (q[0].state != Terminated ==>
            && m == q[1..] + [m[|q| - 1]]
            && m[|q| - 1].id == q[0].id && m[|q| - 1].kind == q[0].kind && m[|q| - 1].regs == ctx
            && (m[|q| - 1].state.Ready? || m[|q| - 1].state.Waiting?))
  {
  }

  /** Where a tick leaves every task: the interrupted one, unless finished, at the back with the registers
      it was interrupted with and still waiting if it was waiting; the next one running at the front;
      and the others one place forward, untouched. */
  lemma {:induction false} TickMoves(s: Machine, ctx: Registers, t: Machine)
    requires Step(s, Tick(ctx), t)
    ensures s.queue != [] && |t.queue| == |s.queue| - (if s.queue[0].state == Terminated then 1 else 0) >= 1
    ensures |s.queue| > 1 ==> t.queue[0] == s.queue[1].(state := Running)
    ensures forall i :: 1 < i < |s.queue| ==> t.queue[i - 1] == s.queue[i]
    ensures s.queue[0].state != Terminated ==> var front, back := s.queue[0], t.queue[|s.queue| - 1];
      && back.id == front.id && back.kind == front.kind && back.cr3 == front.cr3 && back.regs == ctx
      && (|s.queue| > 1 ==> back.state == if front.state.Waiting? then front.state else Ready)
  {
    var q, m := s.queue, Requeue(s.queue, ctx);
    assert forall i :: 0 < i < |q| ==> m[i - 1] == q[i];
    assert t.queue[1..] == m[1..];
  }

  /** Behind the front only a wake-up touches a task that does not move. */
  lemma {:induction false} BehindFront(s: Machine, e: Event, u: Machine, k: nat)
    requires Step(s, e, u) && 0 < k < |s.queue|
    ensures e.Tick? ==> k - 1 < |u.queue| && u.queue[k - 1] == s.queue[k].(state := u.queue[k - 1].state)
    ensures e.Tick? && k > 1 ==> u.queue[k - 1].state == s.queue[k].state
    ensures !e.Tick? ==> k < |u.queue|
    ensures e.Wake? && s.queue[k].state == Waiting(e.interrupt) ==> u.queue[k] == s.queue[k].(state := Ready)
    ensures !e.Tick? && !(e.Wake? && s.queue[k].state == Waiting(e.interrupt)) ==> u.queue[k] == s.queue[k]
  {
    match e
    case Tick(ctx) => TickMoves(s, ctx, u);
    case Wake(interrupt) => WakeAllIsPointwise(s.queue, interrupt, k);
    case _ =>
  }

  /** The one step that `kinit_multitasking` forbids: the boot task must never finish. */
  predicate BootExits(s: Machine, e: Event) {
    e.Exit? && s.queue != [] && s.queue[0].id == BOOT
  }

  /** Every step keeps the invariant, except exactly the exit of the boot task. */
  lemma {:induction false} StepInv(s: Machine, e: Event, t: Machine)
    requires Inv(s) && Step(s, e, t)
    ensures Inv(t) <==> !BootExits(s, e)
  {
    match e
    case Tick(ctx) => TickInv(s, ctx, t);
    case Yield(interrupt) => MarkInv(s, Waiting(interrupt));
    case Wake(interrupt) => WakeInv(s, interrupt);
    case Exit => MarkInv(s, Terminated);
    case Create(task) => CreateInv(s, task, t);
    case CreateFailed =>
  }

  // ---- runs ----

  ghost predicate Run(ss: seq<Machine>, es: seq<Event>) {
    && |ss| == |es| + 1
    && forall i {:trigger Step(ss[i], es[i], ss[i + 1])} :: 0 <= i < |es| ==> Step(ss[i], es[i], ss[i + 1])
  }

  ghost predicate BootStays(ss: seq<Machine>, es: seq<Event>)
    requires |ss| == |es| + 1
  {
    forall i :: 0 <= i < |es| ==> !BootExits(ss[i], es[i])
  }

  function Ticks(es: seq<Event>): nat {
    if es == [] then 0 else Ticks(es[..|es| - 1]) + (if es[|es| - 1].Tick? then 1 else 0)
  }

  /** Every run from a booted machine in which the boot task does not exit keeps the invariant, and
      each of its ticks leaves exactly one running task, at the front, whose saved registers and
      address space are the ones loaded. */
  lemma {:induction false} RunInv(ss: seq<Machine>, es: seq<Event>)
    requires Run(ss, es) && BootStays(ss, es) && Inv(ss[0])
    ensures Inv(ss[|es|])
    ensures es != [] && es[|es| - 1].Tick? ==>
      OneRunning(ss[|es|].queue) && ss[|es|].cpu == ss[|es|].queue[0].regs && ss[|es|].cr3 == ss[|es|].queue[0].cr3
    decreases |es|
  {
    if es != [] {
      var n := |es| - 1;
      RunInv(ss[..n + 1], es[..n]);
      StepInv(ss[n], es[n], ss[n + 1]);
      if es[n].Tick? { TickInv(ss[n], es[n].ctx, ss[n + 1]); }
    }
  }

  /** `t` stands at place `k` of the queue, with its identity, stacks and address space and, unless it is
      the running front task, its saved registers. */
  predicate StandsAt(s: Machine, k: nat, t: Task) {
    && k < |s.queue| && s.queue[k].id == t.id && s.queue[k].kind == t.kind
    && s.queue[k].regs == t.regs && s.queue[k].cr3 == t.cr3
  }

  /** `t` is what the last switch loaded. */
  predicate Loaded(s: Machine, t: Task) { s.cpu == t.regs && s.cr3 == t.cr3 }

  lemma {:induction false} StepMoves(s: Machine, e: Event, u: Machine, k: nat, t: Task)
    requires Step(s, e, u) && StandsAt(s, k, t)
    ensures e.Tick? && k > 0 ==> StandsAt(u, k - 1, t) && (k == 1 ==> Loaded(u, t))
    ensures !e.Tick? ==> StandsAt(u, k, t) && u.cpu == s.cpu && u.cr3 == s.cr3
  {
    match e
    case Tick(ctx) => TickMoves(s, ctx, u);
    case Wake(interrupt) => WakeAllIsPointwise(s.queue, interrupt, k);
    case _ =>
  }

  lemma {:induction false} TicksTo(es: seq<Event>, n: nat)
    requires n < |es|
    ensures Ticks(es[..n + 1]) == Ticks(es[..n]) + (if es[n].Tick? then 1 else 0)
  {
    assert es[..n + 1][..n] == es[..n];
  }

  lemma {:induction false} NextMoves(ss: seq<Machine>, es: seq<Event>, n: nat, k: nat, t: Task)
    requires Run(ss, es) && n < |es| && StandsAt(ss[n], k, t)
    ensures es[n].Tick? && k > 0 ==> StandsAt(ss[n + 1], k - 1, t) && (k == 1 ==> Loaded(ss[n + 1], t))
    ensures !es[n].Tick? ==> StandsAt(ss[n + 1], k, t) && (Loaded(ss[n], t) ==> Loaded(ss[n + 1], t))
  {
    assert Step(ss[n], es[n], ss[n + 1]);
    StepMoves(ss[n], es[n], ss[n + 1], k, t);
  }

  /** Where `t` stands after the first `n` steps. */
  lemma {:induction false} MovesUp(ss: seq<Machine>, es: seq<Event>, n: nat, k: nat, t: Task)
    requires Run(ss, es) && n <= |es| && StandsAt(ss[0], k, t) && Ticks(es[..n]) <= k
    ensures StandsAt(ss[n], k - Ticks(es[..n]), t)
    ensures Ticks(es[..n]) == k > 0 ==> Loaded(ss[n], t)
    decreases n
  {
    if n > 0 {
      TicksTo(es, n - 1);
      MovesUp(ss, es, n - 1, k, t);
      NextMoves(ss, es, n - 1, k - Ticks(es[..n - 1]), t);
    }
  }

  /** The dispatch bound. Whatever creates, yields, wakes and exits happen in between, a task at
      place `k` is at place `k - n` after `n <= k` ticks, so it is dispatched by the `k`th tick, and
      it resumes with exactly the registers that were saved for it, in its own address space. */
  lemma {:induction false} DispatchedAfter(ss: seq<Machine>, es: seq<Event>, k: nat, t: Task)
    requires Run(ss, es) && StandsAt(ss[0], k, t) && Ticks(es) <= k
    ensures StandsAt(ss[|es|], k - Ticks(es), t)
    ensures Ticks(es) == k > 0 ==> ss[|es|].queue[0].id == t.id && ss[|es|].queue[0].kind == t.kind
    ensures Ticks(es) == k > 0 ==> ss[|es|].cpu == t.regs && ss[|es|].cr3 == t.cr3
  {
    assert es[..|es|] == es;
    MovesUp(ss, es, |es|, k, t);
  }

  lemma {:induction false} NotDispatchedBefore(ss: seq<Machine>, es: seq<Event>, k: nat, t: Task)
    requires Run(ss, es) && BootStays(ss, es) && Inv(ss[0]) && StandsAt(ss[0], k, t) && Ticks(es) < k
    ensures ss[|es|].queue != [] && ss[|es|].queue[0].id != t.id
  {
    DispatchedAfter(ss, es, k, t);
    RunInv(ss, es);
  }

  /** A task interrupted with registers `ctx` is handed exactly `ctx` when its turn comes again:
      after one tick for every other task then queued, and in the address space it was running in. */
  lemma {:induction false} ResumesWhereSuspended(s: Machine, ctx: Registers, ss: seq<Machine>, es: seq<Event>)
    requires Inv(s) && s.queue[0].state != Terminated
    requires Run(ss, es) && Step(s, Tick(ctx), ss[0]) && Ticks(es) == |ss[0].queue| - 1
    ensures ss[|es|].queue != [] && ss[|es|].queue[0].id == s.queue[0].id && ss[|es|].cpu == ctx
    ensures ss[|es|].queue[0].kind == s.queue[0].kind && ss[|es|].cr3 == s.queue[0].cr3
  {
    var k := |ss[0].queue| - 1;
    var t := ss[0].queue[k];
    TickMoves(s, ctx, ss[0]);
    TickInv(s, ctx, ss[0]);
    DispatchedAfter(ss, es, k, t);
    if k == 0 { CpuKept(ss, es); }
  }

  lemma {:induction false} CpuKept(ss: seq<Machine>, es: seq<Event>)
    requires Run(ss, es) && Ticks(es) == 0
    ensures ss[|es|].cpu == ss[0].cpu && ss[|es|].cr3 == ss[0].cr3
    decreases |es|
  {
    if es != [] {
      var n := |es| - 1;
      CpuKept(ss[..n + 1], es[..n]);
      assert Step(ss[n], es[n], ss[n + 1]);
    }
  }

  lemma {:induction false} NextWaits(ss: seq<Machine>, es: seq<Event>, n: nat, k: nat, interrupt: nat)
    requires Run(ss, es) && n < |es| && 0 < k < |ss[n].queue| && ss[n].queue[k].state == Waiting(interrupt)
    requires es[n] != Wake(interrupt)
    ensures es[n].Tick? && k > 1 ==> k - 1 < |ss[n + 1].queue| && ss[n + 1].queue[k - 1].state == Waiting(interrupt)
    ensures !es[n].Tick? ==> k < |ss[n + 1].queue| && ss[n + 1].queue[k].state == Waiting(interrupt)
  {
    assert Step(ss[n], es[n], ss[n + 1]);
    BehindFront(ss[n], es[n], ss[n + 1], k);
  }

  lemma {:induction false} WaitsOn(ss: seq<Machine>, es: seq<Event>, n: nat, k: nat, interrupt: nat)
    requires Run(ss, es) && n <= |es| && k < |ss[0].queue| && ss[0].queue[k].state == Waiting(interrupt)
    requires Ticks(es[..n]) < k && Wake(interrupt) !in es[..n]
    ensures k - Ticks(es[..n]) < |ss[n].queue| && ss[n].queue[k - Ticks(es[..n])].state == Waiting(interrupt)
    decreases n
  {
    if n > 0 {
      TicksTo(es, n - 1);
      WaitsOn(ss, es, n - 1, k, interrupt);
      assert es[n - 1] in es[..n];
      NextWaits(ss, es, n - 1, k - Ticks(es[..n - 1]), interrupt);
    }
  }

  /** A task that waits for an interrupt goes on waiting until a wake-up for that interrupt or until it has
      come to the front. */
  lemma {:induction false} StaysWaiting(ss: seq<Machine>, es: seq<Event>, k: nat, interrupt: nat)
    requires Run(ss, es) && k < |ss[0].queue| && ss[0].queue[k].state == Waiting(interrupt) && Ticks(es) < k
    requires Wake(interrupt) !in es
    ensures k - Ticks(es) < |ss[|es|].queue| && ss[|es|].queue[k - Ticks(es)].state == Waiting(interrupt)
  {
    assert es[..|es|] == es;
    WaitsOn(ss, es, |es|, k, interrupt);
  }

  // ---- the operations ----

  lemma {:induction false} StackTopFits(b: nat)
    requires b < 128
    ensures KERNEL_TASKS_START <= StackTop(b) < Pow2(64) && BlockOf(StackTop(b)) == b
  {
    WordBounds();
    BlockOfStackTop(b);
  }

  class TaskScheduler {
    const slab: KernelSlab
    var taskList: seq<Task>
    var cr3: nat
    /** The registers that the last switch loaded. */
    ghost var cpu: Registers

    constructor (slab: KernelSlab, cr3: nat, ghost cpu: Registers)
      requires slab.Valid() && slab.bitmap == 0
      ensures BeforeBoot(Abs()) && this.slab == slab && Abs() == Machine([], 0, cpu, cr3)
    {
      this.slab := slab;
      taskList := [];
      this.cr3 := cr3;
      this.cpu := cpu;
      new;
      forall b: nat ensures !Bit(slab.bitmap, b) { BitOfZero(b); }
    }

    ghost function Abs(): Machine
      reads this, slab
    {
      Machine(taskList, slab.bitmap, cpu, cr3)
    }

    method KInitMultitasking(regs: Registers, cr3: nat)
      requires BeforeBoot(Abs())
      modifies this
      ensures Abs() == WithBoot(old(Abs()), regs, cr3) && Inv(Abs())
      ensures |taskList| == |old(taskList)| + 1 && taskList[1..] == old(taskList)
      ensures taskList[0] == Task(BOOT, Kernel(None), regs, Running, cr3)
    {
      BootEstablishes(Abs(), regs, cr3);
      taskList := [Task(BOOT, Kernel(None), regs, Running, cr3)] + taskList;
    }

    /** Queues a kernel task at the back, on a fresh stack. Without a stack nothing changes. */
    method KCreateTask(id: nat, entry: nat, cs: nat, rflags: nat, ss: nat, taskCr3: nat, mapped: bool)
      returns (ok: bool)
      requires slab.Valid() && id != BOOT && forall i :: 0 <= i < |taskList| ==> taskList[i].id != id
      modifies this, slab
      ensures slab.Valid()
      ensures ok <==> mapped && exists i :: 0 <= i < 128 && !Bit(old(slab.bitmap), i)
      ensures !ok ==> Step(old(Abs()), CreateFailed, Abs())
      ensures ok ==> exists stack :: Step(old(Abs()),
        Create(Task(id, Kernel(Some(stack)), Fresh(entry, cs, Or(rflags, 0x200), stack, ss), Ready, taskCr3)), Abs())
      ensures ok ==> |taskList| == |old(taskList)| + 1 && taskList[..|old(taskList)|] == old(taskList)
      ensures ok ==> var t := taskList[|old(taskList)|];
        && t.id == id && t.state == Ready && t.cr3 == taskCr3 && t.kind == Kernel(Some(t.regs.rsp))
        && StartsAt(t.regs, entry, cs, rflags, ss)
    {
      var stack := slab.GetStack(mapped);
      if stack.None? {
        return false;
      }
      var task := Task(id, Kernel(stack), Fresh(entry, cs, Or(rflags, 0x200), stack.value, ss), Ready, taskCr3);
      taskList := taskList + [task];
      FreshStarts(entry, cs, rflags, task.regs.rsp, ss);
      assert Step(old(Abs()), Create(task), Abs());
      ok := true;
    }

    /** Queues a user task; its kernel stack comes from the same slab. `mapped` is the outcome of
        building its address space and its stacks. */
    method UCreateTask(id: nat, entry: nat, cs: nat, rflags: nat, ss: nat, userCr3: nat,
                       userStack: nat, userLimit: nat, pages: nat, mapped: bool) returns (ok: bool)
      requires slab.Valid() && id != BOOT && forall i :: 0 <= i < |taskList| ==> taskList[i].id != id
      modifies this, slab
      ensures slab.Valid()
      ensures ok <==> entry < 0x0000_8000_0000_0000 && mapped && exists i :: 0 <= i < 128 && !Bit(old(slab.bitmap), i)
      ensures !ok ==> Step(old(Abs()), CreateFailed, Abs())
      ensures ok ==> exists stack :: Step(old(Abs()),
        Create(Task(id, User(userStack, userLimit, pages, stack),
                    Fresh(entry, cs, Or(rflags, 0x200), userStack, ss), Ready, userCr3)), Abs())
      ensures ok ==> |taskList| == |old(taskList)| + 1 && taskList[..|old(taskList)|] == old(taskList)
      ensures ok ==> var t := taskList[|old(taskList)|];
        && t.id == id && t.state == Ready && t.cr3 == userCr3 && t.regs.rsp == userStack
        && t.kind.User? && t.kind == User(userStack, userLimit, pages, t.kind.kernelStack)
        && StartsAt(t.regs, entry, cs, rflags, ss)
    {
      if entry >= 0x0000_8000_0000_0000 {
        return false;
      }
      var stack := slab.GetStack(mapped);
      if stack.None? {
        return false;
      }
      var task := Task(id, User(userStack, userLimit, pages, stack.value),
                       Fresh(entry, cs, Or(rflags, 0x200), userStack, ss), Ready, userCr3);
      taskList := taskList + [task];
      FreshStarts(entry, cs, rflags, task.regs.rsp, ss);
      assert Step(old(Abs()), Create(task), Abs());
      ok := true;
    }

    method KYieldTask(interrupt: nat)
      requires Inv(Abs())
      modifies this`taskList
      ensures Step(old(Abs()), Yield(interrupt), Abs()) && Inv(Abs()) && |taskList| == |old(taskList)| > 0
      ensures taskList[0] == old(taskList)[0].(state := Waiting(interrupt)) && taskList[1..] == old(taskList)[1..]
    {
      MarkInv(Abs(), Waiting(interrupt));
      taskList := taskList[0 := taskList[0].(state := Waiting(interrupt))];
    }

    method ExitTask()
      requires Inv(Abs())
      modifies this`taskList
      ensures Step(old(Abs()), Exit, Abs()) && |taskList| == |old(taskList)| > 0
      ensures taskList[0] == old(taskList)[0].(state := Terminated) && taskList[1..] == old(taskList)[1..]
      ensures Inv(Abs()) <==> old(taskList)[0].id != BOOT
    {
      MarkInv(Abs(), Terminated);
      taskList := taskList[0 := taskList[0].(state := Terminated)];
    }

    /** Makes every task that waits for the interrupt ready, wherever it is queued. */
    method WakeTasks(interrupt: nat)
      requires Inv(Abs())
      modifies this`taskList
      ensures Step(old(Abs()), Wake(interrupt), Abs()) && Inv(Abs()) && |taskList| == |old(taskList)|
      ensures forall i :: 0 <= i < |taskList| ==> var t := old(taskList)[i];
        taskList[i] == if t.state == Waiting(interrupt) then t.(state := Ready) else t
    {
      ghost var q := taskList;
      WakeInv(Abs(), interrupt);
      for i := 0 to |taskList|
        invariant |taskList| == |q|
        invariant forall j :: 0 <= j < i ==>
          taskList[j] == if q[j].state == Waiting(interrupt) then q[j].(state := Ready) else q[j]
        invariant forall j :: i <= j < |q| ==> taskList[j] == q[j]
        invariant slab.bitmap == old(slab.bitmap) && cpu == old(cpu) && cr3 == old(cr3)
      {
        if taskList[i].state == Waiting(interrupt) {
          taskList := taskList[i := taskList[i].(state := Ready)];
        }
      }
      AllWoken(q, interrupt, taskList);
    }

    /** Switches tasks: saves the interrupted registers, frees the stack of a finished task, and
        hands back the registers of the next one. */
    method ScheduleInner(ctx: Registers) returns (next: Registers)
      requires Inv(Abs())
      modifies this, slab
      ensures Step(old(Abs()), Tick(ctx), Abs()) && Inv(Abs()) && OneRunning(taskList)
      ensures next == cpu == taskList[0].regs && cr3 == taskList[0].cr3
      ensures |old(taskList)| > 1 ==> taskList[0] == old(taskList)[1].(state := Running)
      ensures |taskList| == |old(taskList)| - (if old(taskList)[0].state == Terminated then 1 else 0)
      ensures forall i :: 1 < i < |old(taskList)| ==> taskList[i - 1] == old(taskList)[i]
      ensures old(taskList)[0].state != Terminated ==>
        var front, back := old(taskList)[0], taskList[|old(taskList)| - 1];
        && back.id == front.id && back.kind == front.kind && back.cr3 == front.cr3 && back.regs == ctx
        && (|taskList| > 1 ==> back.state == if front.state.Waiting? then front.state else Ready)
    {
      NonEmptyAfter(taskList, ctx);
      SaveCurrent(ctx);
      taskList := taskList[0 := taskList[0].(state := Running)];
      if cr3 != taskList[0].cr3 {
        cr3 := taskList[0].cr3;
      }
      next := taskList[0].regs;
      cpu := next;
      TickInv(old(Abs()), ctx, Abs());
      TickMoves(old(Abs()), ctx, Abs());
    }

    /** Takes the interrupted task off the front: back into the queue, or away for good. */
    method SaveCurrent(ctx: Registers)
      requires Inv(Abs())
      modifies this`taskList, slab
      ensures taskList == Requeue(old(taskList), ctx) && slab.Valid()
      ensures forall i: nat :: Bit(slab.bitmap, i) <==>
        Bit(old(slab.bitmap), i) && !(old(taskList)[0].state == Terminated && OwnsBlock(old(taskList)[0]) == Some(i))
    {
      var current := taskList[0];
      taskList := taskList[1..];
      if current.state == Terminated {
        FinishedOwns(old(Abs()));
        match current.kind {
          case Kernel(Some(stack)) => slab.ReturnStack(stack);
          case User(_, _, _, kernelStack) => slab.ReturnStack(kernelStack);
          case Kernel(None) =>
        }
      } else if current.state.Waiting? {
        taskList := taskList + [current.(regs := ctx)];
      } else {
        taskList := taskList + [current.(regs := ctx, state := Ready)];
      }
    }
  }

  function Fresh(entry: nat, cs: nat, rflags: nat, rsp: nat, ss: nat): Registers {
    Registers(seq(15, _ => 0), entry, cs, rflags, rsp, ss)
  }

  /** Cleared registers, execution at `entry`, and interrupts on with every other flag as given. */
  ghost predicate StartsAt(r: Registers, entry: nat, cs: nat, rflags: nat, ss: nat) {
    && |r.general| == 15 && (forall i :: 0 <= i < 15 ==> r.general[i] == 0)
    && r.rip == entry && r.cs == cs && r.ss == ss
    && forall i: nat :: Bit(r.rflags, i) <==> Bit(rflags, i) || i == 9
  }

  lemma {:induction false} FreshStarts(entry: nat, cs: nat, rflags: nat, rsp: nat, ss: nat)
    ensures StartsAt(Fresh(entry, cs, Or(rflags, 0x200), rsp, ss), entry, cs, rflags, ss)
  {
    assert 0x200 == Pow2(9);
    forall i: nat ensures Bit(Or(rflags, 0x200), i) <==> Bit(rflags, i) || i == 9 {
      BitOfOr(rflags, 0x200, i);
      BitOfPow2(9, i);
    }
  }

  /** The boot task keeps the queue from running empty. */
  lemma {:induction false} NonEmptyAfter(q: seq<Task>, ctx: Registers)
    requires q != [] && HasBoot(q) && Orderly(q)
    ensures Requeue(q, ctx) != []
  {
  }

  lemma {:induction false} FinishedOwns(s: Machine)
    requires Inv(s) && s.queue[0].state == Terminated
    ensures s.queue[0].kind != Kernel(None)
    ensures var a := StackOf(s.queue[0].kind).value;
      && KERNEL_TASKS_START <= a < Pow2(64) && BlockOf(a) < 128 && Bit(s.bitmap, BlockOf(a))
      && OwnsBlock(s.queue[0]) == Some(BlockOf(a))
  {
    assert HoldsStack(s.queue[0], s.bitmap);
    var b: nat :| b < 128 && StackOf(s.queue[0].kind) == Some(StackTop(b)) && OwnsBlock(s.queue[0]) == Some(b)
                  && Bit(s.bitmap, b);
    StackTopFits(b);
  }
}
