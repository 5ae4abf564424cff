/** The life of one execution in a run: which submission started it, that a lifecycle
    command does its work inside its instance's lock, and where every logged result comes
    from. */
module Executions {
  import opened Wrappers
  import opened Commands

  /** The state after the first n steps. */
  ghost function At(steps: seq<Step>, n: nat): State
    requires n <= |steps|
  {
    Run(steps[..n])
  }

  /** Step n takes place: it is not skipped. */
  ghost predicate Taken(steps: seq<Step>, n: nat)
    requires n < |steps|
  {
    Enabled(At(steps, n), steps[n])
  }

  lemma AtNext(steps: seq<Step>, n: nat)
    requires n < |steps|
    ensures At(steps, n + 1) == if Taken(steps, n) then Next(At(steps, n), steps[n]) else At(steps, n)
  {
    assert steps[..n + 1][..n] == steps[..n];
    hide Next, Enabled;
  }

  lemma AtStart(steps: seq<Step>)
    ensures At(steps, 0) == INIT
  {
  }

  lemma AtEnd(steps: seq<Step>)
    ensures At(steps, |steps|) == Run(steps)
  {
    assert steps[..|steps|] == steps;
    hide Run;
  }

  // ---------- one step ----------

  /** How a step may move task t on. */
  ghost predicate Move(task: Task, step: Step, t: nat, after: Phase) {
    || after == task.phase
    || (step == TakeRef(t) && task.phase.Spawned? && task.vm.Some? && after.Waiting?)
    || (step == Acquire(t) && task.phase.Waiting? && after == Inside(task.phase.lock))
    || (step.Release? && step.t == t && task.phase.Inside? && after == Unlocked(task.phase.lock, step.result))
    || (step == DropRef(t) && task.phase.Unlocked? && task.phase.result.Some? && after == Finished(task.phase.result.value))
    || (step.Work? && step.t == t && task.phase.Spawned? && task.vm.None? && after == Finished(step.reply))
  }

  /** Tasks come only from submissions, with the command and the instance submitted, keep
      both, and move on only by their own steps. */
  ghost predicate Moved(s: State, step: Step, s': State, t: nat) {
    if t in s.tasks then
      t in s'.tasks ==>
        && s'.tasks[t].cmd == s.tasks[t].cmd && s'.tasks[t].vm == s.tasks[t].vm
        && Move(s.tasks[t], step, t, s'.tasks[t].phase)
    else
      t in s'.tasks ==> step.Submit? && t == s.nextTask && s'.tasks[t] == Task(step.cmd, step.vm, Spawned)
  }

  lemma StepMoves(s: State, step: Step, t: nat)
    requires Enabled(s, step) && Numbered(s)
    ensures Moved(s, step, Next(s, step), t)
  {
    hide Pruned, Retained, Survivors, Dropped;
    match step
    case Submit(cmd, vm) =>
    case TakeRef(u) =>
    case _ =>
  }

  /** What adds an event to the log, and which. */
  ghost predicate Origin(s: State, step: Step, e: Event) {
    match e
    case Started(c, at) => step.Submit? && step.cmd == c && s.now == at
    case Cached(c, reply, at) =>
      && step.Store? && step.t in s.tasks && s.tasks[step.t].cmd == c && s.tasks[step.t].phase == Finished(reply) && s.now == at
    case Replayed(c, _, at) => step.Submit? && step.cmd == c && s.now == at
  }

  lemma StepLogs(s: State, step: Step)
    requires Enabled(s, step)
    ensures var log := Next(s, step).log;
      log == s.log || (|log| == |s.log| + 1 && log[..|s.log|] == s.log && Origin(s, step, log[|s.log|]))
  {
    hide Pruned, Retained, Survivors, Dropped;
    match step
    case Submit(cmd, vm) =>
    case Store(t) =>
    case _ => StepKeeps(s, step);
  }

  // ---------- the life of a task ----------

  ghost predicate Born(steps: seq<Step>, n: nat, t: nat, task: Task)
    requires n < |steps|
  {
    Taken(steps, n) && steps[n] == Submit(task.cmd, task.vm) && At(steps, n).nextTask == t
  }

  ghost predicate InsideAt(steps: seq<Step>, n: nat, t: nat, vm: Option<string>)
    requires n <= |steps|
  {
    t in At(steps, n).tasks && At(steps, n).tasks[t].vm == vm && At(steps, n).tasks[t].phase.Inside?
  }

  /** Task t entered its lock at step j and has been inside ever since. */
  ghost predicate Entered(steps: seq<Step>, n: nat, t: nat, vm: Option<string>, j: nat)
    requires n <= |steps|
  {
    j < n && steps[j] == Acquire(t) && Taken(steps, j) && forall i :: j < i <= n ==> InsideAt(steps, i, t, vm)
  }

  /** From its entry at step j to its leave at step k task t was inside, with that result. */
  ghost predicate Section(steps: seq<Step>, n: nat, t: nat, vm: Option<string>, j: nat, k: nat, reply: Reply)
    requires n <= |steps|
  {
    k < n && Entered(steps, k, t, vm, j) && steps[k] == Release(t, Some(reply)) && Taken(steps, k)
  }

  ghost predicate Worked(steps: seq<Step>, n: nat, t: nat, k: nat, reply: Reply)
    requires n <= |steps|
  {
    k < n && steps[k] == Work(t, reply) && Taken(steps, k)
  }

  ghost predicate HasBirth(steps: seq<Step>, n: nat, t: nat, task: Task)
    requires n <= |steps|
  {
    exists i :: 0 <= i < n && Born(steps, i, t, task)
  }

  ghost predicate HasEntered(steps: seq<Step>, n: nat, t: nat, vm: Option<string>)
    requires n <= |steps|
  {
    exists j :: Entered(steps, n, t, vm, j)
  }

  ghost predicate HasSection(steps: seq<Step>, n: nat, t: nat, vm: Option<string>, reply: Reply)
    requires n <= |steps|
  {
    exists j, k :: Section(steps, n, t, vm, j, k, reply)
  }

  ghost predicate HasWorked(steps: seq<Step>, n: nat, t: nat, reply: Reply)
    requires n <= |steps|
  {
    exists k :: Worked(steps, n, t, k, reply)
  }

  /** What is true of a task after n steps. */
  ghost predicate Lived(steps: seq<Step>, n: nat, t: nat, task: Task)
    requires n <= |steps|
  {
    && HasBirth(steps, n, t, task)
    && match task.phase
       case Inside(_) => HasEntered(steps, n, t, task.vm)
       case Unlocked(_, result) => result.Some? ==> task.vm.Some? && HasSection(steps, n, t, task.vm, result.value)
       case Finished(reply) =>
         if task.vm.Some? then HasSection(steps, n, t, task.vm, reply) else HasWorked(steps, n, t, reply)
       case Waiting(_) => task.vm.Some?
       case Spawned => true
  }

  lemma BirthLater(steps: seq<Step>, n: nat, t: nat, task: Task, task': Task)
    requires n < |steps| && HasBirth(steps, n, t, task) && task'.cmd == task.cmd && task'.vm == task.vm
    ensures HasBirth(steps, n + 1, t, task')
  {
    var i :| 0 <= i < n && Born(steps, i, t, task);
    hide Taken, At;
    assert Born(steps, i, t, task');
  }

  lemma SectionLater(steps: seq<Step>, n: nat, t: nat, vm: Option<string>, reply: Reply)
    requires n < |steps| && HasSection(steps, n, t, vm, reply)
    ensures HasSection(steps, n + 1, t, vm, reply)
  {
    var j, k :| Section(steps, n, t, vm, j, k, reply);
    hide Taken, Entered;
    assert Section(steps, n + 1, t, vm, j, k, reply);
  }

  lemma WorkedLater(steps: seq<Step>, n: nat, t: nat, reply: Reply)
    requires n < |steps| && HasWorked(steps, n, t, reply)
    ensures HasWorked(steps, n + 1, t, reply)
  {
    var k :| Worked(steps, n, t, k, reply);
    hide Taken;
    assert Worked(steps, n + 1, t, k, reply);
  }

  lemma EnteredLater(steps: seq<Step>, n: nat, t: nat, vm: Option<string>)
    requires n < |steps| && HasEntered(steps, n, t, vm) && InsideAt(steps, n + 1, t, vm)
    ensures HasEntered(steps, n + 1, t, vm)
  {
    var j :| Entered(steps, n, t, vm, j);
    hide InsideAt, Taken;
    assert Entered(steps, n + 1, t, vm, j);
  }

  lemma EntersNow(steps: seq<Step>, n: nat, t: nat, vm: Option<string>)
    requires n < |steps| && steps[n] == Acquire(t) && Taken(steps, n) && InsideAt(steps, n + 1, t, vm)
    ensures HasEntered(steps, n + 1, t, vm)
  {
    hide InsideAt, Taken;
    assert Entered(steps, n + 1, t, vm, n);
  }

  lemma LeavesNow(steps: seq<Step>, n: nat, t: nat, vm: Option<string>, reply: Reply)
    requires n < |steps| && HasEntered(steps, n, t, vm) && steps[n] == Release(t, Some(reply)) && Taken(steps, n)
    ensures HasSection(steps, n + 1, t, vm, reply)
  {
    var j :| Entered(steps, n, t, vm, j);
    hide InsideAt, Taken, Entered;
    assert Section(steps, n + 1, t, vm, j, n, reply);
  }

  lemma WorksNow(steps: seq<Step>, n: nat, t: nat, reply: Reply)
    requires n < |steps| && steps[n] == Work(t, reply) && Taken(steps, n)
    ensures HasWorked(steps, n + 1, t, reply)
  {
    hide Taken;
    assert Worked(steps, n + 1, t, n, reply);
  }

  /** A task that was there before lives on. */
  lemma LivesOn(steps: seq<Step>, n: nat, t: nat, task: Task, task': Task)
    requires n < |steps| && Taken(steps, n) && Lived(steps, n, t, task)
    requires task'.cmd == task.cmd && task'.vm == task.vm && Move(task, steps[n], t, task'.phase)
    requires t in At(steps, n + 1).tasks && At(steps, n + 1).tasks[t] == task'
    requires task.phase.Inside? ==> task.vm.Some?
    ensures Lived(steps, n + 1, t, task')
  {
    hide HasBirth, HasSection, HasWorked, HasEntered, Taken, At;
    BirthLater(steps, n, t, task, task');
    match task'.phase
    case Inside(_) =>
      if task.phase.Inside? {
        EnteredLater(steps, n, t, task.vm);
      } else {
        EntersNow(steps, n, t, task.vm);
      }
    case Unlocked(_, result) =>
      if result.Some? {
        if task.phase.Inside? {
          LeavesNow(steps, n, t, task.vm, result.value);
        } else {
          SectionLater(steps, n, t, task.vm, result.value);
        }
      }
    case Finished(reply) =>
      if task.vm.Some? {
        SectionLater(steps, n, t, task.vm, reply);
      } else if task.phase.Spawned? {
        WorksNow(steps, n, t, reply);
      } else {
        WorkedLater(steps, n, t, reply);
      }
    case _ =>
  }

  lemma Idles(steps: seq<Step>, n: nat, t: nat, task: Task)
    requires n < |steps| && At(steps, n + 1) == At(steps, n) && t in At(steps, n).tasks && At(steps, n).tasks[t] == task
    requires Lived(steps, n, t, task)
    ensures Lived(steps, n + 1, t, task)
  {
    hide HasBirth, HasSection, HasWorked, HasEntered, At;
    BirthLater(steps, n, t, task, task);
    match task.phase
    case Inside(_) => EnteredLater(steps, n, t, task.vm);
    case Unlocked(_, result) =>
      if result.Some? { SectionLater(steps, n, t, task.vm, result.value); }
    case Finished(reply) =>
      if task.vm.Some? { SectionLater(steps, n, t, task.vm, reply); } else { WorkedLater(steps, n, t, reply); }
    case _ =>
  }

  /** Every task at every moment of every run was started by a submission of its command for
      its instance; a lifecycle command that has a result got it inside its lock. */
  lemma {:induction false} TasksLive(steps: seq<Step>, n: nat, t: nat)
    requires n <= |steps| && t in At(steps, n).tasks
    ensures Lived(steps, n, t, At(steps, n).tasks[t])
  {
    if n == 0 {
      AtStart(steps);
    } else {
      var s, s' := At(steps, n - 1), At(steps, n);
      AtNext(steps, n - 1);
      LocksAlways(steps[..n - 1]);
      RefersMeansInstance(s, t);
      if t in s.tasks {
        TasksLive(steps, n - 1, t);
      }
      if Taken(steps, n - 1) {
        StepMoves(s, steps[n - 1], t);
        if t in s.tasks {
          hide Lived, Next, At, Taken, LocksOk;
          LivesOn(steps, n - 1, t, s.tasks[t], s'.tasks[t]);
        } else {
          hide Next, At, Taken, LocksOk;
          assert Born(steps, n - 1, t, s'.tasks[t]);
        }
      } else {
        hide Lived, Next, At, Taken, LocksOk;
        Idles(steps, n - 1, t, s.tasks[t]);
      }
    }
  }

  lemma RefersMeansInstance(s: State, t: nat)
    requires LocksOk(s)
    ensures Numbered(s) && (t in s.tasks && s.tasks[t].Lock().Some? ==> s.tasks[t].vm.Some?)
  {
    hide Live, Counted, Held;
  }

  /** Two lifecycle commands of one instance do their work one after the other. */
  lemma SectionsApart(steps: seq<Step>, n: nat, t: nat, u: nat, vm: Option<string>, j: nat, k: nat, a: nat, b: nat, r: Reply, q: Reply)
    requires n <= |steps| && t != u && Section(steps, n, t, vm, j, k, r) && Section(steps, n, u, vm, a, b, q)
    ensures k < a || b < j
  {
    if j <= b && a <= k {
      var i := if j < a then a + 1 else j + 1;
      assert j < i && a < i;
      if i <= k && i <= b {
        assert InsideAt(steps, i, t, vm) && InsideAt(steps, i, u, vm);
        hide Section, Entered, Taken;
        MutualExclusion(steps[..i], t, u);
      } else {
        SameStep(steps, n, t, u, vm, j, k, a, b, r, q);
      }
    }
  }

  /** One step cannot be the entry or leave of two tasks. */
  lemma SameStep(steps: seq<Step>, n: nat, t: nat, u: nat, vm: Option<string>, j: nat, k: nat, a: nat, b: nat, r: Reply, q: Reply)
    requires n <= |steps| && t != u && Section(steps, n, t, vm, j, k, r) && Section(steps, n, u, vm, a, b, q)
    ensures j != a && j != b && k != a && k != b
  {
    hide InsideAt, Taken;
  }

  // ---------- where results come from ----------

  ghost predicate Cause(steps: seq<Step>, n: nat, e: Event)
    requires n < |steps|
  {
    Taken(steps, n) && Origin(At(steps, n), steps[n], e)
  }

  lemma LogNext(steps: seq<Step>, n: nat, i: nat)
    requires n < |steps| && i < |At(steps, n + 1).log|
    ensures var log := At(steps, n).log;
      if i < |log| then At(steps, n + 1).log[i] == log[i] else Cause(steps, n, At(steps, n + 1).log[i])
  {
    AtNext(steps, n);
    hide At, Next, Enabled, Origin;
    if Taken(steps, n) {
      var s := At(steps, n);
      StepLogs(s, steps[n]);
      assert i < |s.log| ==> At(steps, n + 1).log[..|s.log|][i] == s.log[i];
    }
  }

  /** Every logged event has a step that caused it. */
  lemma {:induction false} EventsCaused(steps: seq<Step>, n: nat, i: nat) returns (k: nat)
    requires n <= |steps| && i < |At(steps, n).log|
    ensures k < n && Cause(steps, k, At(steps, n).log[i])
  {
    AtStart(steps);
    hide At, Cause;
    LogNext(steps, n - 1, i);
    if i < |At(steps, n - 1).log| {
      k := EventsCaused(steps, n - 1, i);
    } else {
      k := n - 1;
    }
  }

  /** Every cached result is the result of a task of that command, which got it inside the
      lock of its instance, or by working without one if it has none. */
  lemma ResultsGenuine(steps: seq<Step>, i: nat) returns (k: nat, t: nat, task: Task)
    requires i < |Run(steps).log| && Run(steps).log[i].Cached?
    ensures var e := Run(steps).log[i];
      && k < |steps| && steps[k] == Step.Store(t) && t in At(steps, k).tasks && At(steps, k).tasks[t] == task
      && task.cmd == e.cmd && task.phase == Finished(e.reply) && At(steps, k).now == e.at
      && (if task.vm.Some? then HasSection(steps, k, t, task.vm, e.reply) else HasWorked(steps, k, t, e.reply))
  {
    AtEnd(steps);
    k := EventsCaused(steps, |steps|, i);
    t := steps[k].t;
    task := At(steps, k).tasks[t];
    TasksLive(steps, k, t);
    hide Run, At, Taken, HasBirth, HasSection, HasWorked;
  }

  // ---------- what a command gets ----------

  lemma RunNext(steps: seq<Step>, step: Step)
    ensures Run(steps + [step]) == if Enabled(Run(steps), step) then Next(Run(steps), step) else Run(steps)
  {
    assert (steps + [step])[..|steps|] == steps;
    hide Next, Enabled;
  }

  /** A submission starts a task for its command and its instance, unless it is answered from
      the cache: a named command that is there is ignored while it runs and replayed after. */
  lemma SubmissionStarts(steps: seq<Step>, c: string, vm: Option<string>)
    ensures var s, s' := Run(steps), Run(steps + [Submit(c, vm)]);
      if c == "" || c !in s.cache then
        && s.nextTask !in s.tasks && s'.tasks == s.tasks[s.nextTask := Task(c, vm, Spawned)]
        && s'.log == s.log + [Started(c, s.now)] && (c != "" ==> c in s'.cache && s'.cache[c] == Running)
      else
        s' == s.(log := if s.cache[c].Running? then s.log else s.log + [Replayed(c, s.cache[c].reply, s.now)])
  {
    RunNext(steps, Submit(c, vm));
    LocksAlways(steps);
    hide Run, Pruned, InTable, Live, Counted, Held;
  }

  /** Leaving, dropping the reference and storing caches the result, for a named command. */
  ghost predicate Answers(s: State, s': State, task: Task, t: nat, reply: Reply) {
    && t !in s'.tasks && s'.now == s.now
    && (if task.cmd == "" then s'.log == s.log && s'.cache == s.cache
        else s'.log == s.log + [Cached(task.cmd, reply, s.now)] && s'.cache == s.cache[task.cmd := Done(reply, s.now)])
  }

  lemma StoreAnswers(s: State, t: nat)
    requires t in s.tasks && s.tasks[t].phase.Finished?
    ensures Enabled(s, Step.Store(t)) && Answers(s, Next(s, Step.Store(t)), s.tasks[t], t, s.tasks[t].phase.reply)
  {
  }

  lemma ReleaseGoes(s: State, t: nat, reply: Reply)
    requires t in s.tasks && s.tasks[t].phase.Inside?
    ensures var s1 := Next(s, Release(t, Some(reply)));
      && Enabled(s1, DropRef(t))
      && var s2 := Next(s1, DropRef(t));
      && s2.log == s.log && s2.cache == s.cache && s2.now == s.now && t in s2.tasks
      && s2.tasks[t] == s.tasks[t].(phase := Finished(reply))
  {
  }

  lemma AnswersAlike(s: State, s2: State, s': State, task: Task, t: nat, reply: Reply)
    requires s2.log == s.log && s2.cache == s.cache && s2.now == s.now && Answers(s2, s', task.(phase := Finished(reply)), t, reply)
    ensures Answers(s, s', task, t, reply)
  {
  }

  /** A command inside its lock that completes is answered with its result. */
  lemma InsideCompletes(steps: seq<Step>, t: nat, reply: Reply)
    requires t in Run(steps).tasks && Run(steps).tasks[t].phase.Inside?
    ensures Answers(Run(steps), Run(steps + [Release(t, Some(reply)), DropRef(t), Step.Store(t)]), Run(steps).tasks[t], t, reply)
  {
    hide Run, Next, Answers;
    var s := Run(steps);
    var a, b, c := Release(t, Some(reply)), DropRef(t), Step.Store(t);
    RunNext(steps, a);
    RunNext(steps + [a], b);
    RunNext(steps + [a] + [b], c);
    assert steps + [a] + [b] + [c] == steps + [a, b, c];
    assert Enabled(s, a);
    ReleaseGoes(s, t, reply);
    var s2 := Next(Next(s, a), b);
    StoreAnswers(s2, t);
    AnswersAlike(s, s2, Next(s2, c), s.tasks[t], t, reply);
  }

  /** A command that takes no lock completes by working. */
  lemma FreeCompletes(steps: seq<Step>, t: nat, reply: Reply)
    requires t in Run(steps).tasks && Run(steps).tasks[t].phase.Spawned? && Run(steps).tasks[t].vm.None?
    ensures Answers(Run(steps), Run(steps + [Work(t, reply), Step.Store(t)]), Run(steps).tasks[t], t, reply)
  {
    var s := Run(steps);
    RunNext(steps, Work(t, reply));
    RunNext(steps + [Work(t, reply)], Step.Store(t));
    assert steps + [Work(t, reply)] + [Step.Store(t)] == steps + [Work(t, reply), Step.Store(t)];
    StoreAnswers(Next(s, Work(t, reply)), t);
    hide Run;
  }

  /** Nobody is inside the lock of an instance. */
  ghost predicate Vacant(s: State, vm: Option<string>) {
    forall u :: u in s.tasks && s.tasks[u].vm == vm ==> !s.tasks[u].phase.Inside?
  }

  /** A lifecycle command whose instance's lock is free gets in by its two next steps, and
      one whose instance's lock is not waits. */
  lemma VacantAdmits(steps: seq<Step>, t: nat)
    requires t in Run(steps).tasks && Run(steps).tasks[t].phase.Waiting?
    ensures Enabled(Run(steps), Acquire(t)) <==> Vacant(Run(steps), Run(steps).tasks[t].vm)
  {
    LocksAlways(steps);
    var s := Run(steps);
    hide Run, Counted;
    var l := s.tasks[t].phase.lock;
    assert forall u :: u in s.tasks && s.tasks[u].vm == s.tasks[t].vm && s.tasks[u].phase.Inside? ==>
      s.tasks[u].Lock() == s.tasks[t].Lock();
    if l in s.holder {
      var u := s.holder[l];
      assert s.tasks[u].Lock() == Some(l);
      assert s.tasks[u].vm == s.tasks[t].vm;
    }
  }

  /** A step that leaves results and clock alone and task t where `phase` says. */
  ghost predicate Moves(s: State, s': State, t: nat, phase: Phase) {
    && t in s.tasks && t in s'.tasks && s'.tasks[t] == s.tasks[t].(phase := phase)
    && s'.log == s.log && s'.cache == s.cache && s'.now == s.now
  }

  lemma TakeRefWaits(steps: seq<Step>, t: nat) returns (l: nat)
    requires t in Run(steps).tasks && Run(steps).tasks[t].phase.Spawned? && Run(steps).tasks[t].vm.Some?
    ensures Moves(Run(steps), Run(steps + [TakeRef(t)]), t, Waiting(l))
    ensures Vacant(Run(steps), Run(steps).tasks[t].vm) ==> Vacant(Run(steps + [TakeRef(t)]), Run(steps).tasks[t].vm)
  {
    var s := Run(steps);
    RunNext(steps, TakeRef(t));
    hide Run, Retained, Survivors;
    var s' := Next(s, TakeRef(t));
    l := s'.tasks[t].phase.lock;
    assert forall u :: u in s'.tasks && u != t ==> u in s.tasks && s'.tasks[u] == s.tasks[u];
  }

  lemma AcquireEnters(steps: seq<Step>, t: nat)
    requires t in Run(steps).tasks && Run(steps).tasks[t].phase.Waiting? && Vacant(Run(steps), Run(steps).tasks[t].vm)
    ensures Moves(Run(steps), Run(steps + [Acquire(t)]), t, Inside(Run(steps).tasks[t].phase.lock))
  {
    VacantAdmits(steps, t);
    RunNext(steps, Acquire(t));
    hide Run, Vacant;
  }

  /** A lifecycle command whose instance is free runs through to its answer. */
  lemma LifecycleCompletes(steps: seq<Step>, t: nat, reply: Reply)
    requires t in Run(steps).tasks && Run(steps).tasks[t].phase.Spawned? && Run(steps).tasks[t].vm.Some?
    requires Vacant(Run(steps), Run(steps).tasks[t].vm)
    ensures Answers(Run(steps), Run(steps + [TakeRef(t), Acquire(t), Release(t, Some(reply)), DropRef(t), Step.Store(t)]),
                    Run(steps).tasks[t], t, reply)
  {
    var one, two := steps + [TakeRef(t)], steps + [TakeRef(t), Acquire(t)];
    assert one + [Acquire(t)] == two;
    assert two + [Release(t, Some(reply)), DropRef(t), Step.Store(t)]
        == steps + [TakeRef(t), Acquire(t), Release(t, Some(reply)), DropRef(t), Step.Store(t)];
    hide Run, Vacant;
    var l := TakeRefWaits(steps, t);
    AcquireEnters(one, t);
    InsideCompletes(two, t, reply);
  }

  /** The clock of a run is the time its steps let pass. */
  ghost function Elapsed(steps: seq<Step>): nat {
    if steps == [] then 0
    else
      var step := steps[|steps| - 1];
      Elapsed(steps[..|steps| - 1]) + if step.Tick? then step.d else 0
  }

  lemma {:induction false} ClockRuns(steps: seq<Step>)
    ensures Run(steps).now == Elapsed(steps)
  {
    if steps != [] {
      var init, step := steps[..|steps| - 1], steps[|steps| - 1];
      ClockRuns(init);
      var s := Run(init);
      if Enabled(s, step) && !step.Submit? && !step.Store? {
        StepKeeps(s, step);
        assert step.Tick? ==> Next(s, step).now == s.now + step.d;
      }
      assert step.Submit? ==> Submitted(s, step.cmd, step.vm).now == s.now;
      hide Pruned, Retained, Survivors, Dropped;
    }
  }
}
