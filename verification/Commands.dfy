/** Execution of platform commands by concurrent tasks: a cache of results makes replays
    safe, and a table of reference-counted locks serialises the lifecycle commands of an
    instance. Every interleaving of the tasks' atomic steps is a run. */
module Commands {
  import opened Wrappers

  const RESULT_TTL := 3600
  const SOFT_LIMIT := 1024

  type Reply = string

  datatype Entry = Running | Done(reply: Reply, at: nat)

  /** Where a task is. `Unlocked` has released the lock but still refers to it; its result
      is None when the command panicked. */
  datatype Phase =
    | Spawned
    | Waiting(lock: nat)
    | Inside(lock: nat)
    | Unlocked(lock: nat, result: Option<Reply>)
    | Finished(reply: Reply)

  /** A spawned execution; `vm` is the instance whose lock its command takes, if any. */
  datatype Task = Task(cmd: string, vm: Option<string>, phase: Phase) {
    function Lock(): Option<nat> {
      match phase
      case Waiting(l) => Some(l)
      case Inside(l) => Some(l)
      case Unlocked(l, _) => Some(l)
      case _ => None
    }
  }

  datatype Event =
    | Started(cmd: string, at: nat)
    | Cached(cmd: string, reply: Reply, at: nat)
    | Replayed(cmd: string, reply: Reply, at: nat)

  /** `locks` is the table, `strong` the count of owners of every live lock (the table and
      the tasks), `holder` the task inside each held lock. */
  datatype State = State(
    now: nat, cache: map<string, Entry>, locks: map<string, nat>, strong: map<nat, nat>, holder: map<nat, nat>,
    tasks: map<nat, Task>, nextLock: nat, nextTask: nat, log: seq<Event>)

  const INIT := State(0, map[], map[], map[], map[], map[], 0, 0, [])

  datatype Step =
    | Tick(d: nat)
    | Submit(cmd: string, vm: Option<string>)
    | TakeRef(t: nat)                          // the table's critical section in lock_vm
    | Acquire(t: nat)                          // the lock is granted
    | Release(t: nat, result: Option<Reply>)   // the guard unlocks, after the work or a panic
    | DropRef(t: nat)                          // the guard's reference goes
    | Work(t: nat, reply: Reply)               // a command that takes no lock completes
    | Store(t: nat)                            // the result is cached
    | Panic(t: nat)                            // the task dies outside the lock

  // ---------- the shared maps ----------

  /** Expired results leave the cache once it has grown to the limit. */
  function Pruned(cache: map<string, Entry>, now: nat): map<string, Entry> {
    if |cache| >= SOFT_LIMIT
    then map c | c in cache && (cache[c].Running? || now < cache[c].at + RESULT_TTL) :: cache[c]
    else cache
  }

  /** Locks that only the table refers to leave it once it has grown past the limit. */
  function Retained(locks: map<string, nat>, strong: map<nat, nat>): map<string, nat> {
    if |locks| > SOFT_LIMIT
    then map v | v in locks && locks[v] in strong && strong[locks[v]] > 1 :: locks[v]
    else locks
  }

  /** Below the limit the cache is left alone, running commands and results that have not
      lived their time always stay, and whatever reaches the limit after pruning is only
      these. */
  lemma PruneLimits(cache: map<string, Entry>, now: nat)
    ensures |cache| < SOFT_LIMIT ==> Pruned(cache, now) == cache
    ensures forall c :: c in cache && (cache[c].Running? || now - cache[c].at < RESULT_TTL) ==>
      c in Pruned(cache, now) && Pruned(cache, now)[c] == cache[c]
    ensures |Pruned(cache, now)| >= SOFT_LIMIT ==>
      forall c :: c in Pruned(cache, now) ==> cache[c].Running? || now - cache[c].at < RESULT_TTL
  {
  }

  /** The same of the lock table: what is left beyond the limit is referred to by tasks. */
  lemma RetainLimits(locks: map<string, nat>, strong: map<nat, nat>)
    ensures |locks| <= SOFT_LIMIT ==> Retained(locks, strong) == locks
    ensures |Retained(locks, strong)| > SOFT_LIMIT ==>
      forall v :: v in Retained(locks, strong) ==> locks[v] in strong && strong[locks[v]] > 1
  {
  }

  function Submitted(s: State, cmd: string, vm: Option<string>): State {
    if cmd != "" && cmd in s.cache then
      match s.cache[cmd]
      case Running => s
      case Done(reply, _) => s.(log := s.log + [Replayed(cmd, reply, s.now)])
    else
      s.(cache := (if cmd == "" then s.cache else Pruned(s.cache, s.now)[cmd := Running]),
         tasks := s.tasks[s.nextTask := Task(cmd, vm, Spawned)], nextTask := s.nextTask + 1,
         log := s.log + [Started(cmd, s.now)])
  }

  /** A lock dropped from the table is freed with it. */
  function Survivors(locks: map<string, nat>, strong: map<nat, nat>): map<nat, nat> {
    var kept := Retained(locks, strong);
    map l | l in strong && (l in kept.Values || l !in locks.Values) :: strong[l]
  }

  function Collected(s: State): State {
    s.(locks := Retained(s.locks, s.strong), strong := Survivors(s.locks, s.strong))
  }

  /** Looks the instance's lock up, or enters a new one, and takes a reference. */
  function Referred(s: State, t: nat): State
    requires t in s.tasks && s.tasks[t].vm.Some?
  {
    var vm := s.tasks[t].vm.value;
    if vm in s.locks then
      var l := s.locks[vm];
      s.(strong := s.strong[l := (if l in s.strong then s.strong[l] else 0) + 1],
         tasks := s.tasks[t := s.tasks[t].(phase := Waiting(l))])
    else
      var l := s.nextLock;
      s.(locks := s.locks[vm := l], strong := s.strong[l := 2], nextLock := l + 1,
         tasks := s.tasks[t := s.tasks[t].(phase := Waiting(l))])
  }

  function Dropped(strong: map<nat, nat>, l: nat): map<nat, nat> {
    if l !in strong then strong
    else if strong[l] <= 1 then strong - {l}
    else strong[l := strong[l] - 1]
  }

  predicate Enabled(s: State, step: Step) {
    match step
    case Tick(_) => true
    case Submit(_, _) => true
    case TakeRef(t) => t in s.tasks && s.tasks[t].phase.Spawned? && s.tasks[t].vm.Some?
    case Acquire(t) => t in s.tasks && s.tasks[t].phase.Waiting? && s.tasks[t].phase.lock !in s.holder
    case Release(t, _) => t in s.tasks && s.tasks[t].phase.Inside?
    case DropRef(t) => t in s.tasks && s.tasks[t].phase.Unlocked?
    case Work(t, _) => t in s.tasks && s.tasks[t].phase.Spawned? && s.tasks[t].vm.None?
    case Store(t) => t in s.tasks && s.tasks[t].phase.Finished?
    case Panic(t) => t in s.tasks && (s.tasks[t].phase.Spawned? || s.tasks[t].phase.Waiting? || s.tasks[t].phase.Finished?)
  }

  function Next(s: State, step: Step): State
    requires Enabled(s, step)
  {
    match step
    case Tick(d) => s.(now := s.now + d)
    case Submit(cmd, vm) => Submitted(s, cmd, vm)
    case TakeRef(t) => Referred(Collected(s), t)
    case Acquire(t) =>
      var l := s.tasks[t].phase.lock;
      s.(holder := s.holder[l := t], tasks := s.tasks[t := s.tasks[t].(phase := Inside(l))])
    case Release(t, result) =>
      var l := s.tasks[t].phase.lock;
      s.(holder := s.holder - {l}, tasks := s.tasks[t := s.tasks[t].(phase := Unlocked(l, result))])
    case DropRef(t) =>
      var u := s.tasks[t].phase;
      s.(strong := Dropped(s.strong, u.lock),
         tasks := if u.result.Some? then s.tasks[t := s.tasks[t].(phase := Finished(u.result.value))] else s.tasks - {t})
    case Work(t, reply) => s.(tasks := s.tasks[t := s.tasks[t].(phase := Finished(reply))])
    case Store(t) =>
      var task := s.tasks[t];
      if task.cmd == "" then s.(tasks := s.tasks - {t})
      else s.(cache := s.cache[task.cmd := Done(task.phase.reply, s.now)], tasks := s.tasks - {t},
              log := s.log + [Cached(task.cmd, task.phase.reply, s.now)])
    case Panic(t) =>
      var task := s.tasks[t];
      s.(strong := (if task.phase.Waiting? then Dropped(s.strong, task.phase.lock) else s.strong), tasks := s.tasks - {t})
  }

  /** A run: steps that are not enabled are skipped. */
  function Run(steps: seq<Step>): State {
    if steps == [] then INIT
    else
      var s := Run(steps[..|steps| - 1]);
      var step := steps[|steps| - 1];
      if Enabled(s, step) then Next(s, step) else s
  }

  // ---------- locks ----------

  /** Tasks referring to a lock. */
  ghost function Refs(tasks: map<nat, Task>, l: nat): set<nat> {
    set t | t in tasks && tasks[t].Lock() == Some(l)
  }

  /** Every lock a task waits for, holds or still refers to is the one its instance has in
      the table. */
  ghost predicate InTable(locks: map<string, nat>, tasks: map<nat, Task>) {
    forall t :: t in tasks && tasks[t].Lock().Some? ==>
      tasks[t].vm.Some? && tasks[t].vm.value in locks && locks[tasks[t].vm.value] == tasks[t].Lock().value
  }

  /** The live locks are those of the table, one per instance. */
  ghost predicate Live(locks: map<string, nat>, strong: map<nat, nat>, nextLock: nat) {
    && (forall l :: l in strong ==> l < nextLock && l in locks.Values)
    && (forall v :: v in locks ==> locks[v] in strong)
    && (forall v, w :: v in locks && w in locks && locks[v] == locks[w] ==> v == w)
  }

  /** Each is owned by the table and by the tasks referring to it. */
  ghost predicate Counted(strong: map<nat, nat>, tasks: map<nat, Task>) {
    forall l :: l in strong ==> strong[l] == |Refs(tasks, l)| + 1
  }

  /** A lock is held exactly by the one task inside it. */
  ghost predicate Held(holder: map<nat, nat>, tasks: map<nat, Task>) {
    && (forall t :: t in tasks && tasks[t].phase.Inside? ==>
          tasks[t].phase.lock in holder && holder[tasks[t].phase.lock] == t)
    && (forall l :: l in holder ==> holder[l] in tasks && tasks[holder[l]].phase == Inside(l))
  }

  ghost predicate LocksOk(s: State) {
    && InTable(s.locks, s.tasks) && Live(s.locks, s.strong, s.nextLock)
    && Counted(s.strong, s.tasks) && Held(s.holder, s.tasks) && Numbered(s)
  }

  ghost predicate Numbered(s: State) {
    forall t :: t in s.tasks ==> t < s.nextTask
  }

  lemma RefsUpdate(tasks: map<nat, Task>, t: nat, task: Task, l: nat)
    ensures Refs(tasks[t := task], l) == if task.Lock() == Some(l) then Refs(tasks, l) + {t} else Refs(tasks, l) - {t}
  {
  }

  /** Changing a task without changing the lock it refers to keeps the counts. */
  lemma SameRefs(strong: map<nat, nat>, tasks: map<nat, Task>, t: nat, task: Task)
    requires Counted(strong, tasks)
    requires if t in tasks then task.Lock() == tasks[t].Lock() else task.Lock().None?
    ensures Counted(strong, tasks[t := task])
  {
    forall l | l in strong ensures Refs(tasks[t := task], l) == Refs(tasks, l) {
      RefsUpdate(tasks, t, task, l);
    }
  }

  /** A referred lock is live, counted for the table and the task. */
  lemma Referenced(s: State, t: nat, l: nat)
    requires LocksOk(s) && t in s.tasks && s.tasks[t].Lock() == Some(l)
    ensures l in s.strong && s.strong[l] >= 2 && t in Refs(s.tasks, l)
  {
    assert t in Refs(s.tasks, l);
    hide Refs, Held;
  }

  /** Replacing a task by one that is not inside, itself or before, keeps the holders. */
  lemma HeldOutside(holder: map<nat, nat>, tasks: map<nat, Task>, t: nat, task: Task)
    requires Held(holder, tasks) && (t in tasks ==> !tasks[t].phase.Inside?) && !task.phase.Inside?
    ensures Held(holder, tasks[t := task])
  {
  }

  lemma SpawnedTable(locks: map<string, nat>, tasks: map<nat, Task>, t: nat, task: Task)
    requires InTable(locks, tasks) && task.Lock().None?
    ensures InTable(locks, tasks[t := task])
  {
  }

  lemma SubmittedLocks(s: State, cmd: string, vm: Option<string>)
    requires LocksOk(s)
    ensures LocksOk(Submitted(s, cmd, vm))
  {
    hide Pruned, Counted, Live, Held, InTable;
    var task := Task(cmd, vm, Spawned);
    assert s.nextTask !in s.tasks;
    SameRefs(s.strong, s.tasks, s.nextTask, task);
    HeldOutside(s.holder, s.tasks, s.nextTask, task);
    SpawnedTable(s.locks, s.tasks, s.nextTask, task);
  }

  /** The collection never drops a lock that a task refers to. */
  lemma CollectedTable(s: State)
    requires LocksOk(s)
    ensures InTable(Retained(s.locks, s.strong), s.tasks)
  {
    var kept := Retained(s.locks, s.strong);
    forall t | t in s.tasks && s.tasks[t].Lock().Some?
      ensures s.tasks[t].vm.Some? && s.tasks[t].vm.value in kept && kept[s.tasks[t].vm.value] == s.tasks[t].Lock().value
    {
      Referenced(s, t, s.tasks[t].Lock().value);
      hide Refs, Held, Counted, Live;
    }
  }

  lemma CollectedLive(s: State)
    requires Live(s.locks, s.strong, s.nextLock)
    ensures Live(Collected(s).locks, Collected(s).strong, s.nextLock)
  {
    var kept := Retained(s.locks, s.strong);
    assert forall v :: v in kept ==> v in s.locks && kept[v] == s.locks[v] && kept[v] in kept.Values;
  }

  lemma CollectedLocks(s: State)
    requires LocksOk(s)
    ensures LocksOk(Collected(s))
  {
    CollectedTable(s);
    CollectedLive(s);
    hide Retained, InTable, Live, Held, Refs;
  }

  lemma ReferredLocks(s: State, t: nat)
    requires LocksOk(s) && t in s.tasks && s.tasks[t].phase.Spawned? && s.tasks[t].vm.Some?
    ensures LocksOk(Referred(s, t))
  {
    hide LocksOk;
    if s.tasks[t].vm.value in s.locks {
      ReferredKnown(s, t, s.tasks[t].vm.value);
    } else {
      ReferredNew(s, t, s.tasks[t].vm.value);
    }
  }

  lemma ReferredKnown(s: State, t: nat, vm: string)
    requires LocksOk(s) && t in s.tasks && s.tasks[t].phase.Spawned? && s.tasks[t].vm == Some(vm) && vm in s.locks
    ensures LocksOk(Referred(s, t))
  {
    var l := s.locks[vm];
    assert l in s.strong;
    hide Live, Held, Counted, InTable;
    EnteredLive(s.locks, s.strong, s.nextLock, vm, s.strong[l] + 1);
    ReferredCounts(s, t, l, s.strong[l := s.strong[l] + 1]);
    HeldOutside(s.holder, s.tasks, t, s.tasks[t].(phase := Waiting(l)));
    ReferredTable(s.locks, s.tasks, t, vm, l);
    assert s.locks[vm := l] == s.locks;
  }

  lemma ReferredNew(s: State, t: nat, vm: string)
    requires LocksOk(s) && t in s.tasks && s.tasks[t].phase.Spawned? && s.tasks[t].vm == Some(vm) && vm !in s.locks
    ensures LocksOk(Referred(s, t))
  {
    var l := s.nextLock;
    hide Live, Held, Counted, InTable;
    EnteredLive(s.locks, s.strong, l, vm, 2);
    ReferredCounts(s, t, l, s.strong[l := 2]);
    HeldOutside(s.holder, s.tasks, t, s.tasks[t].(phase := Waiting(l)));
    ReferredTable(s.locks, s.tasks, t, vm, l);
  }

  lemma ReferredTable(locks: map<string, nat>, tasks: map<nat, Task>, t: nat, vm: string, l: nat)
    requires InTable(locks, tasks) && t in tasks && tasks[t].vm == Some(vm) && (vm in locks ==> locks[vm] == l)
    ensures InTable(locks[vm := l], tasks[t := tasks[t].(phase := Waiting(l))])
  {
  }

  lemma EnteredLive(locks: map<string, nat>, strong: map<nat, nat>, nextLock: nat, vm: string, n: nat)
    requires Live(locks, strong, nextLock)
    ensures nextLock !in strong
    ensures vm in locks ==> locks[vm] in strong && Live(locks, strong[locks[vm] := n], nextLock)
    ensures vm !in locks ==> Live(locks[vm := nextLock], strong[nextLock := n], nextLock + 1)
  {
    if vm !in locks {
      var table := locks[vm := nextLock];
      assert forall v :: v in locks ==> v in table && table[v] == locks[v] && table[v] in table.Values;
      assert nextLock == table[vm] && nextLock in table.Values;
    }
  }

  /** Taking a reference adds one to the lock's count, a new lock's beside the table's. */
  lemma ReferredCounts(s: State, t: nat, l: nat, strong: map<nat, nat>)
    requires LocksOk(s) && t in s.tasks && s.tasks[t].phase.Spawned?
    requires if l in s.strong then strong == s.strong[l := s.strong[l] + 1] else l == s.nextLock && strong == s.strong[l := 2]
    ensures Counted(strong, s.tasks[t := s.tasks[t].(phase := Waiting(l))])
  {
    if l !in s.strong {
      Unreferred(s, l);
    }
    hide Held, Live, InTable, Refs;
    WaitingCounts(s.strong, s.tasks, t, l, strong);
  }

  lemma Unreferred(s: State, l: nat)
    requires LocksOk(s) && l !in s.strong
    ensures Refs(s.tasks, l) == {}
  {
    hide Held, Counted;
  }

  lemma WaitingCounts(strong: map<nat, nat>, tasks: map<nat, Task>, t: nat, l: nat, strong': map<nat, nat>)
    requires Counted(strong, tasks) && t in tasks && tasks[t].phase.Spawned?
    requires if l in strong then strong' == strong[l := strong[l] + 1] else Refs(tasks, l) == {} && strong' == strong[l := 2]
    ensures Counted(strong', tasks[t := tasks[t].(phase := Waiting(l))])
  {
    var task := tasks[t].(phase := Waiting(l));
    forall k ensures Refs(tasks[t := task], k) == if k == l then Refs(tasks, l) + {t} else Refs(tasks, k) {
      RefsUpdate(tasks, t, task, k);
      assert t !in Refs(tasks, k);
    }
    assert t !in Refs(tasks, l);
    hide Refs;
  }

  /** Tasks after t has gone on without a lock, or ended. */
  ghost predicate Freed(tasks: map<nat, Task>, t: nat, left: map<nat, Task>) {
    left == tasks - {t} || (t in left && left[t].Lock().None? && left == tasks[t := left[t]])
  }

  lemma FreedRefs(tasks: map<nat, Task>, t: nat, left: map<nat, Task>, k: nat)
    requires Freed(tasks, t, left)
    ensures Refs(left, k) == Refs(tasks, k) - {t}
  {
  }

  lemma FreedTable(locks: map<string, nat>, holder: map<nat, nat>, tasks: map<nat, Task>, t: nat, left: map<nat, Task>)
    requires Freed(tasks, t, left) && t in tasks && !tasks[t].phase.Inside?
    ensures InTable(locks, tasks) ==> InTable(locks, left)
    ensures Held(holder, tasks) ==> Held(holder, left)
    ensures left.Keys <= tasks.Keys
  {
  }

  /** What a step that only frees a task keeps. */
  ghost predicate Frees(s: State, t: nat, s': State) {
    && s'.locks == s.locks && s'.holder == s.holder && s'.nextLock == s.nextLock && s'.nextTask == s.nextTask
    && Freed(s.tasks, t, s'.tasks)
  }

  /** A task that gives its reference up leaves the lock to the table at least. */
  lemma DroppedCounts(strong: map<nat, nat>, tasks: map<nat, Task>, t: nat, l: nat, left: map<nat, Task>)
    requires Counted(strong, tasks) && t in tasks && tasks[t].Lock() == Some(l) && l in strong && strong[l] >= 2
    requires Freed(tasks, t, left)
    ensures Counted(strong[l := strong[l] - 1], left)
  {
    forall k | k in strong ensures |Refs(left, k)| == |Refs(tasks, k)| - if k == l then 1 else 0 {
      FreedRefs(tasks, t, left, k);
      assert t in Refs(tasks, k) <==> k == l;
    }
    hide Refs;
  }

  lemma DroppedLocks(s: State, t: nat, l: nat, s': State)
    requires LocksOk(s) && t in s.tasks && s.tasks[t].Lock() == Some(l) && !s.tasks[t].phase.Inside?
    requires Frees(s, t, s') && s'.strong == Dropped(s.strong, l)
    ensures LocksOk(s')
  {
    Referenced(s, t, l);
    DroppedCounts(s.strong, s.tasks, t, l, s'.tasks);
    FreedTable(s.locks, s.holder, s.tasks, t, s'.tasks);
    hide Freed, Refs, Counted, InTable, Held;
  }

  lemma FreeLocks(s: State, t: nat, s': State)
    requires LocksOk(s) && t in s.tasks && s.tasks[t].Lock().None?
    requires Frees(s, t, s') && s'.strong == s.strong
    ensures LocksOk(s')
  {
    FreedTable(s.locks, s.holder, s.tasks, t, s'.tasks);
    forall k ensures Refs(s'.tasks, k) == Refs(s.tasks, k) {
      FreedRefs(s.tasks, t, s'.tasks, k);
      assert t !in Refs(s.tasks, k);
      hide Freed, InTable, Held, Live, Counted;
    }
    hide Freed, Refs, InTable, Held, Live;
  }

  /** Every step keeps the lock invariant. */
  lemma LocksStep(s: State, step: Step)
    requires LocksOk(s) && Enabled(s, step)
    ensures LocksOk(Next(s, step))
  {
    hide LocksOk, Submitted, Collected, Referred, Dropped;
    match step
    case Tick(d) => TickLocks(s, d);
    case Submit(cmd, vm) => SubmittedLocks(s, cmd, vm);
    case TakeRef(t) => TakeRefLocks(s, t);
    case Acquire(t) => AcquireLocks(s, t);
    case Release(t, result) => ReleaseLocks(s, t, result);
    case DropRef(t) =>
      DroppedLocks(s, t, s.tasks[t].phase.lock, Next(s, step));
    case Work(t, reply) =>
      FreeLocks(s, t, Next(s, step));
    case Store(t) =>
      FreeLocks(s, t, Next(s, step));
    case Panic(t) =>
      if s.tasks[t].phase.Waiting? {
        DroppedLocks(s, t, s.tasks[t].phase.lock, Next(s, step));
      } else {
        FreeLocks(s, t, Next(s, step));
      }
  }

  lemma TickLocks(s: State, d: nat)
    requires LocksOk(s)
    ensures LocksOk(s.(now := s.now + d))
  {
    hide Counted, InTable, Held, Live;
  }

  lemma TakeRefLocks(s: State, t: nat)
    requires LocksOk(s) && Enabled(s, TakeRef(t))
    ensures LocksOk(Next(s, TakeRef(t)))
  {
    hide LocksOk;
    CollectedLocks(s);
    ReferredLocks(Collected(s), t);
  }

  /** A waiting task entering a lock nobody holds becomes its holder. */
  lemma EnteredHeld(holder: map<nat, nat>, tasks: map<nat, Task>, t: nat, l: nat)
    requires Held(holder, tasks) && t in tasks && tasks[t].phase == Waiting(l) && l !in holder
    ensures Held(holder[l := t], tasks[t := tasks[t].(phase := Inside(l))])
  {
  }

  /** A change of phase that keeps the lock keeps the table. */
  lemma SameTable(locks: map<string, nat>, tasks: map<nat, Task>, t: nat, task: Task)
    requires InTable(locks, tasks) && t in tasks && task.Lock() == tasks[t].Lock() && task.vm == tasks[t].vm
    ensures InTable(locks, tasks[t := task])
  {
  }

  lemma AcquireLocks(s: State, t: nat)
    requires LocksOk(s) && Enabled(s, Acquire(t))
    ensures LocksOk(Next(s, Acquire(t)))
  {
    var l := s.tasks[t].phase.lock;
    var task := s.tasks[t].(phase := Inside(l));
    SameRefs(s.strong, s.tasks, t, task);
    SameTable(s.locks, s.tasks, t, task);
    EnteredHeld(s.holder, s.tasks, t, l);
    hide Counted, Live, InTable, Held;
  }

  /** Leaving frees the lock, and only that one. */
  lemma LeftHeld(holder: map<nat, nat>, tasks: map<nat, Task>, t: nat, l: nat, result: Option<Reply>)
    requires Held(holder, tasks) && t in tasks && tasks[t].phase == Inside(l)
    ensures Held(holder - {l}, tasks[t := tasks[t].(phase := Unlocked(l, result))])
  {
  }

  lemma ReleaseLocks(s: State, t: nat, result: Option<Reply>)
    requires LocksOk(s) && Enabled(s, Release(t, result))
    ensures LocksOk(Next(s, Release(t, result)))
  {
    var l := s.tasks[t].phase.lock;
    var task := s.tasks[t].(phase := Unlocked(l, result));
    SameRefs(s.strong, s.tasks, t, task);
    SameTable(s.locks, s.tasks, t, task);
    LeftHeld(s.holder, s.tasks, t, l, result);
    hide Counted, Live, InTable, Held;
  }

  lemma {:induction false} LocksAlways(steps: seq<Step>)
    ensures LocksOk(Run(steps))
  {
    if steps != [] {
      var s := Run(steps[..|steps| - 1]);
      LocksAlways(steps[..|steps| - 1]);
      hide LocksOk, Next;
      if Enabled(s, steps[|steps| - 1]) {
        LocksStep(s, steps[|steps| - 1]);
      }
    }
  }

  /** In every interleaving at most one command of an instance is inside its critical
      section, and whatever lock a command waits for or holds is the table's. */
  lemma MutualExclusion(steps: seq<Step>, t: nat, u: nat)
    requires t in Run(steps).tasks && u in Run(steps).tasks && Run(steps).tasks[t].vm == Run(steps).tasks[u].vm
    requires Run(steps).tasks[t].phase.Inside?
    ensures Run(steps).tasks[u].phase.Inside? ==> t == u
    ensures Run(steps).tasks[u].Lock().Some? ==> Run(steps).tasks[u].Lock() == Run(steps).tasks[t].Lock()
  {
    LocksAlways(steps);
    hide Refs, Run;
  }

  // ---------- the cache ----------

  /** The last start or result of a command among the first n events. */
  ghost function Last(log: seq<Event>, n: nat, c: string): Option<Event>
    requires n <= |log|
  {
    if n == 0 then None
    else if log[n - 1].cmd == c && !log[n - 1].Replayed? then Some(log[n - 1])
    else Last(log, n - 1, c)
  }

  /** An execution starts only when none ran before or the last one's result has been cached
      for its time to live; a result follows a start; a replay repeats the last result. */
  ghost predicate EventOk(log: seq<Event>, j: nat)
    requires j < |log|
  {
    var last := Last(log, j, log[j].cmd);
    match log[j]
    case Started(c, at) => c == "" || last.None? || (last.value.Cached? && at >= last.value.at + RESULT_TTL)
    case Cached(c, _, _) => c != "" && last.Some? && last.value.Started?
    case Replayed(c, reply, _) => c != "" && last.Some? && last.value.Cached? && last.value.reply == reply
  }

  /** What the cache says of a command is what the log says. */
  ghost predicate Tracked(log: seq<Event>, cache: map<string, Entry>, now: nat, c: string) {
    var last := Last(log, |log|, c);
    if last.None? then c !in cache
    else if last.value.Started? then c in cache && cache[c] == Running
    else last.value.Cached? &&
         if c in cache then cache[c] == Done(last.value.reply, last.value.at) else now >= last.value.at + RESULT_TTL
  }

  ghost predicate AllTracked(log: seq<Event>, cache: map<string, Entry>, now: nat) {
    forall c :: c != "" ==> Tracked(log, cache, now, c)
  }

  /** A named command has at most one task, and the cache says it runs. */
  ghost predicate Single(cache: map<string, Entry>, tasks: map<nat, Task>) {
    && (forall t :: t in tasks && tasks[t].cmd != "" ==> tasks[t].cmd in cache && cache[tasks[t].cmd] == Running)
    && (forall t, u :: t in tasks && u in tasks && tasks[t].cmd == tasks[u].cmd != "" ==> t == u)
  }

  ghost predicate Timed(log: seq<Event>, now: nat) {
    && (forall i :: 0 <= i < |log| ==> log[i].at <= now)
    && (forall i, j :: 0 <= i < j < |log| ==> log[i].at <= log[j].at)
  }

  ghost predicate Spaced(log: seq<Event>) {
    forall j :: 0 <= j < |log| ==> EventOk(log, j)
  }

  ghost predicate CacheOk(s: State) {
    && Single(s.cache, s.tasks) && Numbered(s)
    && Timed(s.log, s.now) && Spaced(s.log) && AllTracked(s.log, s.cache, s.now)
  }

  lemma {:induction false} LastAppend(log: seq<Event>, e: Event, n: nat, c: string)
    requires n <= |log|
    ensures Last(log + [e], n, c) == Last(log, n, c)
  {
    if n > 0 { LastAppend(log, e, n - 1, c); }
  }

  /** The last event is one of the log's, with no start or result of the command after it. */
  lemma {:induction false} LastMeans(log: seq<Event>, n: nat, c: string)
    requires n <= |log|
    ensures Last(log, n, c).None? ==> forall k :: 0 <= k < n && log[k].cmd == c ==> log[k].Replayed?
    ensures Last(log, n, c).Some? ==> exists k :: LastAt(log, n, c, k, Last(log, n, c).value)
  {
    if n > 0 {
      LastMeans(log, n - 1, c);
      if log[n - 1].cmd == c && !log[n - 1].Replayed? {
        assert LastAt(log, n, c, n - 1, log[n - 1]);
      } else if Last(log, n - 1, c).Some? {
        var e := Last(log, n - 1, c).value;
        var k :| LastAt(log, n - 1, c, k, e);
        assert LastAt(log, n, c, k, e);
      }
    }
  }

  ghost predicate LastAt(log: seq<Event>, n: nat, c: string, k: int, e: Event)
    requires n <= |log|
  {
    && 0 <= k < n && log[k] == e && e.cmd == c && !e.Replayed?
    && forall i :: k < i < n && log[i].cmd == c ==> log[i].Replayed?
  }

  lemma SpacedAppend(log: seq<Event>, e: Event, now: nat)
    requires Spaced(log) && Timed(log, now) && e.at == now && EventOk(log + [e], |log|)
    ensures Spaced(log + [e]) && Timed(log + [e], now)
  {
    forall j | 0 <= j < |log| ensures EventOk(log + [e], j) {
      assert EventOk(log, j);
      LastAppend(log, e, j, log[j].cmd);
    }
  }

  /** An event of one command leaves what is tracked of the others. */
  lemma TrackedAppend(log: seq<Event>, cache: map<string, Entry>, now: nat, e: Event, entry: Entry)
    requires AllTracked(log, cache, now)
    requires e.cmd != "" ==> Tracked(log + [e], cache[e.cmd := entry], now, e.cmd)
    ensures AllTracked(log + [e], if e.cmd == "" then cache else cache[e.cmd := entry], now)
  {
    var cache' := if e.cmd == "" then cache else cache[e.cmd := entry];
    var log' := log + [e];
    forall c | c != "" && c != e.cmd ensures Tracked(log', cache', now, c) {
      assert Tracked(log, cache, now, c);
      LastAppend(log, e, |log|, c);
    }
  }

  /** Pruning forgets only results that have lived their time. */
  lemma PrunedTracked(log: seq<Event>, cache: map<string, Entry>, now: nat)
    requires AllTracked(log, cache, now)
    ensures AllTracked(log, Pruned(cache, now), now)
  {
    forall c | c != "" ensures Tracked(log, Pruned(cache, now), now, c) {
      assert Tracked(log, cache, now, c);
      hide Last;
    }
  }

  /** A step that leaves cache, log and clock alone and starts nothing. */
  lemma KeptCache(s: State, s': State)
    requires CacheOk(s) && s'.cache == s.cache && s'.log == s.log && s'.now == s.now && s'.nextTask == s.nextTask
    requires SameCommands(s.tasks, s'.tasks)
    ensures CacheOk(s')
  {
    hide Timed, Spaced, AllTracked;
  }

  lemma TickCache(s: State, d: nat)
    requires CacheOk(s)
    ensures CacheOk(s.(now := s.now + d))
  {
    var now := s.now + d;
    forall c | c != "" ensures Tracked(s.log, s.cache, now, c) {
      assert Tracked(s.log, s.cache, s.now, c);
      hide Last;
    }
    hide Single, Spaced, Tracked;
  }

  lemma ReplayedCache(s: State, cmd: string, vm: Option<string>)
    requires CacheOk(s) && cmd != "" && cmd in s.cache && s.cache[cmd].Done?
    ensures CacheOk(Submitted(s, cmd, vm))
  {
    var e := Replayed(cmd, s.cache[cmd].reply, s.now);
    assert Tracked(s.log, s.cache, s.now, cmd);
    LastAppend(s.log, e, |s.log|, cmd);
    assert Last(s.log + [e], |s.log| + 1, cmd) == Last(s.log, |s.log|, cmd);
    hide Last;
    assert s.cache == s.cache[cmd := s.cache[cmd]];
    SpacedAppend(s.log, e, s.now);
    TrackedAppend(s.log, s.cache, s.now, e, s.cache[cmd]);
    hide Spaced, AllTracked, Timed;
  }

  lemma StartedSingle(s: State, cmd: string, vm: Option<string>)
    requires CacheOk(s) && (cmd == "" || cmd !in s.cache)
    ensures Single(Submitted(s, cmd, vm).cache, Submitted(s, cmd, vm).tasks) && Numbered(Submitted(s, cmd, vm))
  {
    hide Timed, Spaced, AllTracked;
  }

  lemma StartedCache(s: State, cmd: string, vm: Option<string>)
    requires CacheOk(s) && (cmd == "" || cmd !in s.cache)
    ensures CacheOk(Submitted(s, cmd, vm))
  {
    var e := Started(cmd, s.now);
    StartedSingle(s, cmd, vm);
    if cmd != "" {
      PrunedTracked(s.log, s.cache, s.now);
      assert Tracked(s.log, s.cache, s.now, cmd);
    }
    LastAppend(s.log, e, |s.log|, cmd);
    assert Last(s.log + [e], |s.log| + 1, cmd) == Some(e);
    hide Last;
    SpacedAppend(s.log, e, s.now);
    TrackedAppend(s.log, if cmd == "" then s.cache else Pruned(s.cache, s.now), s.now, e, Running);
    hide Spaced, AllTracked, Timed, Single, Numbered, Pruned;
  }

  lemma StoredCache(s: State, t: nat)
    requires CacheOk(s) && Enabled(s, Store(t)) && s.tasks[t].cmd != ""
    ensures CacheOk(Next(s, Store(t)))
  {
    var cmd := s.tasks[t].cmd;
    var e := Cached(cmd, s.tasks[t].phase.reply, s.now);
    assert Tracked(s.log, s.cache, s.now, cmd);
    LastAppend(s.log, e, |s.log|, cmd);
    LastMeans(s.log, |s.log|, cmd);
    assert Last(s.log + [e], |s.log| + 1, cmd) == Some(e);
    hide Last;
    SpacedAppend(s.log, e, s.now);
    TrackedAppend(s.log, s.cache, s.now, e, Done(e.reply, s.now));
    hide Spaced, AllTracked, Timed;
  }

  /** Tasks of the old ones, with their commands. */
  ghost predicate SameCommands(tasks: map<nat, Task>, tasks': map<nat, Task>) {
    forall t :: t in tasks' ==> t in tasks && tasks'[t].cmd == tasks[t].cmd
  }

  /** All steps but submissions and stores leave the cache, the log and the commands alone. */
  lemma StepKeeps(s: State, step: Step)
    requires Enabled(s, step) && !step.Submit? && !step.Store?
    ensures var s' := Next(s, step);
      && s'.cache == s.cache && s'.log == s.log && s'.nextTask == s.nextTask && SameCommands(s.tasks, s'.tasks)
      && (!step.Tick? ==> s'.now == s.now)
  {
    hide Submitted, Retained, Survivors, Dropped;
    match step
    case TakeRef(t) => TakeRefKeeps(s, t);
    case _ =>
  }

  lemma TakeRefKeeps(s: State, t: nat)
    requires Enabled(s, Step.TakeRef(t))
    ensures var s' := Next(s, Step.TakeRef(t));
      && s'.cache == s.cache && s'.log == s.log && s'.nextTask == s.nextTask && SameCommands(s.tasks, s'.tasks) && s'.now == s.now
  {
    hide Retained, Survivors;
  }

  /** Every step keeps the cache invariant. */
  lemma CacheStep(s: State, step: Step)
    requires CacheOk(s) && Enabled(s, step)
    ensures CacheOk(Next(s, step))
  {
    hide CacheOk, Pruned, Retained, Dropped;
    match step
    case Tick(d) => TickCache(s, d);
    case Submit(cmd, vm) =>
      if cmd == "" || cmd !in s.cache {
        StartedCache(s, cmd, vm);
      } else if s.cache[cmd].Done? {
        ReplayedCache(s, cmd, vm);
      }
    case Store(t) =>
      if s.tasks[t].cmd != "" {
        StoredCache(s, t);
      } else {
        KeptCache(s, Next(s, step));
      }
    case _ =>
      StepKeeps(s, step);
      hide Next;
      KeptCache(s, Next(s, step));
  }

  lemma {:induction false} CacheAlways(steps: seq<Step>)
    ensures CacheOk(Run(steps))
  {
    if steps != [] {
      var s := Run(steps[..|steps| - 1]);
      CacheAlways(steps[..|steps| - 1]);
      hide CacheOk, Next;
      if Enabled(s, steps[|steps| - 1]) {
        CacheStep(s, steps[|steps| - 1]);
      }
    }
  }

  /** Executions of a named command never overlap. */
  lemma NoOverlap(steps: seq<Step>, t: nat, u: nat)
    requires t in Run(steps).tasks && u in Run(steps).tasks
    requires Run(steps).tasks[t].cmd == Run(steps).tasks[u].cmd != ""
    ensures t == u
  {
    CacheAlways(steps);
  }

  lemma StartsSpaced(log: seq<Event>, now: nat, i: nat, j: nat)
    requires Spaced(log) && Timed(log, now) && i < j < |log| && log[i].Started? && log[j].Started? && log[i].cmd == log[j].cmd != ""
    ensures exists k :: i < k < j && log[k].Cached? && log[k].cmd == log[i].cmd
    ensures forall k :: 0 <= k < j && log[k].Cached? && log[k].cmd == log[i].cmd ==> log[j].at >= log[k].at + RESULT_TTL
  {
    var c := log[i].cmd;
    assert EventOk(log, j);
    LastMeans(log, j, c);
    hide Last, Spaced;
    var k :| LastAt(log, j, c, k, Last(log, j, c).value);
    assert i < k;
    assert log[j].at >= log[k].at + RESULT_TTL;
    forall m | 0 <= m < j && log[m].Cached? && log[m].cmd == c ensures log[j].at >= log[m].at + RESULT_TTL {
      assert m <= k;
    }
  }

  /** Between two executions of a named command its result was cached, and the second starts
      only when every result cached before it has lived its time. */
  lemma ExecutionsSpaced(steps: seq<Step>, i: nat, j: nat)
    requires i < j < |Run(steps).log| && Run(steps).log[i].Started? && Run(steps).log[j].Started?
    requires Run(steps).log[i].cmd == Run(steps).log[j].cmd != ""
    ensures exists k :: i < k < j && Run(steps).log[k].Cached? && Run(steps).log[k].cmd == Run(steps).log[i].cmd
    ensures forall k :: 0 <= k < j && Run(steps).log[k].Cached? && Run(steps).log[k].cmd == Run(steps).log[i].cmd ==>
                          Run(steps).log[j].at >= Run(steps).log[k].at + 3600
  {
    CacheAlways(steps);
    hide Run, Spaced, Timed, AllTracked, Single;
    StartsSpaced(Run(steps).log, Run(steps).now, i, j);
  }

  /** A replay repeats the result of the command's last execution. */
  lemma ReplaysFaithful(steps: seq<Step>, j: nat)
    requires j < |Run(steps).log| && Run(steps).log[j].Replayed?
    ensures exists k, e :: LastAt(Run(steps).log, j, Run(steps).log[j].cmd, k, e) && e.Cached? && e.reply == Run(steps).log[j].reply
  {
    CacheAlways(steps);
    var log := Run(steps).log;
    hide Run, Single, AllTracked, Timed;
    assert EventOk(log, j);
    LastMeans(log, j, log[j].cmd);
  }

  /** What a submission of a named command does, from the history of that command alone. */
  ghost predicate Answered(s: State, c: string, s': State) {
    var last := Last(s.log, |s.log|, c);
    if last.None? then s'.log == s.log + [Started(c, s.now)]
    else if last.value.Started? then s' == s
    else last.value.Cached? &&
         (s.now < last.value.at + RESULT_TTL ==> s' == s.(log := s.log + [Replayed(c, last.value.reply, s.now)]))
  }

  /** A replay before the last result has lived its time is answered with that result and
      starts nothing; one of a command that has started and not finished is ignored. */
  lemma ReplayBeforeExpiry(steps: seq<Step>, c: string, vm: Option<string>)
    requires c != ""
    ensures Answered(Run(steps), c, Submitted(Run(steps), c, vm))
  {
    CacheAlways(steps);
    assert Tracked(Run(steps).log, Run(steps).cache, Run(steps).now, c);
    hide Run, Last, Pruned;
  }

  // ---------- a lost command ----------

  /** A command that started and whose task is gone without a result. */
  ghost predicate Lost(s: State, c: string) {
    c != "" && c in s.cache && s.cache[c] == Running && forall t :: t in s.tasks ==> s.tasks[t].cmd != c
  }

  lemma LostStep(s: State, step: Step, c: string)
    requires Lost(s, c) && Enabled(s, step)
    ensures Lost(Next(s, step), c)
    ensures forall k :: |s.log| <= k < |Next(s, step).log| ==> Next(s, step).log[k].cmd != c
    ensures s.log <= Next(s, step).log
  {
    match step
    case Submit(cmd, vm) => LostSubmit(s, cmd, vm, c);
    case Store(t) => LostStore(s, t, c);
    case _ =>
      StepKeeps(s, step);
      hide Lost, Next;
      LostKept(s, Next(s, step), c);
  }

  lemma LostStore(s: State, t: nat, c: string)
    requires Lost(s, c) && Enabled(s, Step.Store(t))
    ensures Lost(Next(s, Step.Store(t)), c)
    ensures forall k :: |s.log| <= k < |Next(s, Step.Store(t)).log| ==> Next(s, Step.Store(t)).log[k].cmd != c
    ensures s.log <= Next(s, Step.Store(t)).log
  {
    hide Submitted, Referred, Collected, Dropped;
  }

  lemma LostKept(s: State, s': State, c: string)
    requires Lost(s, c) && s'.cache == s.cache && SameCommands(s.tasks, s'.tasks)
    ensures Lost(s', c)
  {
  }

  lemma LostSubmit(s: State, cmd: string, vm: Option<string>, c: string)
    requires Lost(s, c)
    ensures Lost(Submitted(s, cmd, vm), c)
    ensures forall k :: |s.log| <= k < |Submitted(s, cmd, vm).log| ==> Submitted(s, cmd, vm).log[k].cmd != c
    ensures s.log <= Submitted(s, cmd, vm).log
  {
  }

  /** The steps of `more` after those of `steps`. */
  lemma {:induction false} LostForever(steps: seq<Step>, more: seq<Step>, c: string)
    requires Lost(Run(steps), c)
    ensures Lost(Run(steps + more), c)
    ensures Run(steps).log <= Run(steps + more).log
    ensures forall k :: |Run(steps).log| <= k < |Run(steps + more).log| ==> Run(steps + more).log[k].cmd != c
  {
    if more == [] {
      assert steps + more == steps;
    } else {
      var init := more[..|more| - 1];
      var step := more[|more| - 1];
      LostForever(steps, init, c);
      assert steps + more == (steps + init) + [step];
      assert (steps + more)[..|steps + more| - 1] == steps + init;
      var s := Run(steps + init);
      hide Lost, Next;
      if Enabled(s, step) {
        LostStep(s, step, c);
      }
    }
  }

  /** A named command whose task ends is lost exactly when it ends without storing a result. */
  lemma EndsLost(steps: seq<Step>, step: Step, t: nat)
    requires Enabled(Run(steps), step) && t in Run(steps).tasks && Run(steps).tasks[t].cmd != ""
    requires t !in Next(Run(steps), step).tasks
    ensures Lost(Next(Run(steps), step), Run(steps).tasks[t].cmd) <==> !step.Store?
  {
    CacheAlways(steps);
    hide Run, Timed, Spaced, AllTracked, Pruned, Retained, Dropped;
  }

  // ---------- the shared maps in place ----------

  /** The sweep of the lock table, with the instances of `todo` still ahead. */
  ghost predicate Sweep(table: map<string, nat>, count: map<nat, nat>, locks: map<string, nat>, strong: map<nat, nat>,
                        todo: set<string>)
  {
    && todo <= locks.Keys <= table.Keys
    && (forall v :: v in locks ==> locks[v] == table[v])
    && (forall v :: v in table ==> table[v] in count && (v !in todo ==> (v in locks <==> count[table[v]] > 1)))
    && (forall l :: l in strong ==> l in count && strong[l] == count[l])
    && (forall v :: v in table ==> (v in locks <==> table[v] in strong))
  }

  lemma SweepStarts(table: map<string, nat>, count: map<nat, nat>, nextLock: nat)
    requires Live(table, count, nextLock)
    ensures Sweep(table, count, table, count, table.Keys)
    ensures |table| <= SOFT_LIMIT ==> table == Retained(table, count) && Survivors(table, count) == count
  {
  }

  lemma SweepStep(table: map<string, nat>, count: map<nat, nat>, nextLock: nat, locks: map<string, nat>,
                  strong: map<nat, nat>, todo: set<string>, v: string)
    requires Live(table, count, nextLock) && Sweep(table, count, locks, strong, todo) && v in todo
    ensures v in locks && locks[v] in strong
    ensures strong[locks[v]] <= 1 ==> Sweep(table, count, locks - {v}, strong - {locks[v]}, todo - {v})
    ensures strong[locks[v]] > 1 ==> Sweep(table, count, locks, strong, todo - {v})
  {
  }

  lemma Swept(table: map<string, nat>, count: map<nat, nat>, locks: map<string, nat>, strong: map<nat, nat>)
    requires |table| > SOFT_LIMIT && Sweep(table, count, locks, strong, {})
    requires forall l :: l in count ==> l in table.Values
    ensures locks == Retained(table, count) && strong == Survivors(table, count)
  {
    assert locks == Retained(table, count);
    assert forall v :: v in locks ==> locks[v] in locks.Values;
    assert forall l :: l in locks.Values ==> l in strong;
    forall l | l in count && l !in locks.Values ensures l !in strong {
      var v :| v in table && table[v] == l;
    }
  }

  /** The command runner: its cache and lock table, and the tasks and locks around them. */
  class Runner {
    var now: nat
    var cache: map<string, Entry>
    var locks: map<string, nat>
    var strong: map<nat, nat>
    var holder: map<nat, nat>
    var tasks: map<nat, Task>
    var nextLock: nat
    var nextTask: nat
    ghost var log: seq<Event>

    ghost function View(): State
      reads this
    {
      State(now, cache, locks, strong, holder, tasks, nextLock, nextTask, log)
    }

    constructor ()
      ensures View() == INIT
    {
      now, cache, locks, strong, holder, tasks, nextLock, nextTask := 0, map[], map[], map[], map[], map[], 0, 0;
      log := [];
    }

    method Prune()
      modifies this`cache
      ensures cache == Pruned(old(cache), now)
    {
      if |cache| >= SOFT_LIMIT {
        var todo := cache.Keys;
        while todo != {}
          invariant todo <= cache.Keys <= old(cache).Keys
          invariant forall c :: c in cache ==> cache[c] == old(cache)[c]
          invariant forall c :: c in old(cache) && c !in todo ==>
            (c in cache <==> old(cache)[c].Running? || now < old(cache)[c].at + RESULT_TTL)
          decreases |todo|
        {
          var c :| c in todo;
          if cache[c].Done? && now >= cache[c].at + RESULT_TTL {
            cache := cache - {c};
          }
          todo := todo - {c};
        }
      }
    }

    method Submit(cmd: string, vm: Option<string>)
      modifies this
      ensures View() == Submitted(old(View()), cmd, vm)
    {
      if cmd != "" {
        if cmd in cache {
          if cache[cmd].Done? {
            log := log + [Replayed(cmd, cache[cmd].reply, now)];
          }
          return;
        }
        Prune();
        cache := cache[cmd := Running];
      }
      tasks := tasks[nextTask := Task(cmd, vm, Spawned)];
      nextTask := nextTask + 1;
      log := log + [Started(cmd, now)];
    }

    /** Drops the locks that only the table refers to; they are freed. */
    method Collect()
      requires Live(locks, strong, nextLock)
      modifies this`locks, this`strong
      ensures locks == Retained(old(locks), old(strong)) && strong == Survivors(old(locks), old(strong))
    {
      hide Sweep, Retained, Survivors;
      ghost var table, count := locks, strong;
      SweepStarts(table, count, nextLock);
      if |locks| > SOFT_LIMIT {
        var todo := locks.Keys;
        while todo != {}
          invariant Sweep(table, count, locks, strong, todo)
          decreases |todo|
        {
          var v :| v in todo;
          SweepStep(table, count, nextLock, locks, strong, todo, v);
          if strong[locks[v]] <= 1 {
            strong := strong - {locks[v]};
            locks := locks - {v};
          }
          todo := todo - {v};
        }
        Swept(table, count, locks, strong);
      }
    }

    /** The table's critical section of lock_vm. */
    method TakeRef(t: nat)
      requires LocksOk(View()) && Enabled(View(), Step.TakeRef(t))
      modifies this
      ensures View() == Next(old(View()), Step.TakeRef(t))
    {
      hide InTable, Held, Counted, Retained, Survivors;
      CollectedLive(View());
      Collect();
      var vm := tasks[t].vm.value;
      var l: nat;
      if vm in locks {
        l := locks[vm];
        strong := strong[l := strong[l] + 1];
      } else {
        l := nextLock;
        nextLock := nextLock + 1;
        locks := locks[vm := l];
        strong := strong[l := 2];
      }
      tasks := tasks[t := tasks[t].(phase := Waiting(l))];
    }

    method Store(t: nat)
      requires Enabled(View(), Step.Store(t))
      modifies this
      ensures View() == Next(old(View()), Step.Store(t))
    {
      var task := tasks[t];
      if task.cmd != "" {
        cache := cache[task.cmd := Done(task.phase.reply, now)];
        log := log + [Cached(task.cmd, task.phase.reply, now)];
      }
      tasks := tasks - {t};
    }
  }
}
