/**
  Proxy method calls marshalled between threads: `MethodCall::Marshal` invokes the method at once
  on its own thread, and otherwise posts itself to the target thread and blocks until the target
  has run it.

  Methods may marshal further calls; a blocked thread runs no tasks.  A run is any sequence of
  steps of any threads; a step that is not enabled does nothing.
 */
module ProxyCalls {
  import opened Wrappers

  type Value = int

  /** `invocations` counts how often the method ran and `ranOn` says where; `result` is what the
      invocation stored, after which the event is set; `returned` is what `Marshal` returned. */
  datatype Call = Call(
    caller: nat, target: nat, invocations: nat, ranOn: Option<nat>, result: Option<Value>, returned: Option<Value>)

  /** A method being executed, or a caller blocked on the event of its call. */
  datatype Frame = Running(call: nat) | Blocked(call: nat)

  datatype Thread = Thread(stack: seq<Frame>, queue: seq<nat>)

  datatype State = State(threads: seq<Thread>, calls: seq<Call>)

  datatype Step = Marshal(t: nat, target: nat) | RunTask(t: nat) | Finish(t: nat, value: Value) | Return(t: nat)

  function Top(th: Thread): Option<Frame> {
    if th.stack == [] then None else Some(th.stack[|th.stack| - 1])
  }

  function Popped(th: Thread): Thread {
    if th.stack == [] then th else th.(stack := th.stack[..|th.stack| - 1])
  }

  function Pushed(th: Thread, f: Frame): Thread {
    th.(stack := th.stack + [f])
  }

  predicate Enabled(st: State, step: Step) {
    step.t < |st.threads| &&
    var th := st.threads[step.t];
    match step
    case Marshal(_, target) => target < |st.threads| && (Top(th).None? || Top(th).value.Running?)
    case RunTask(_) => th.stack == [] && th.queue != [] && th.queue[0] < |st.calls|
    case Finish(_, _) => Top(th).Some? && Top(th).value.Running? && Top(th).value.call < |st.calls|
    case Return(_) =>
      && Top(th).Some? && Top(th).value.Blocked? && Top(th).value.call < |st.calls|
      && st.calls[Top(th).value.call].result.Some?
  }

  function Apply(st: State, step: Step): State
    requires Enabled(st, step)
  {
    var th := st.threads[step.t];
    match step
    case Marshal(t, target) =>
      var c := |st.calls|;
      if t == target then
        State(st.threads[t := Pushed(th, Running(c))], st.calls + [Call(t, target, 1, Some(t), None, None)])
      else
        var threads := st.threads[t := Pushed(th, Blocked(c))];
        State(threads[target := threads[target].(queue := threads[target].queue + [c])],
              st.calls + [Call(t, target, 0, None, None, None)])
    case RunTask(t) =>
      var c := th.queue[0];
      var call := st.calls[c];
      State(st.threads[t := Pushed(th.(queue := th.queue[1..]), Running(c))],
            st.calls[c := call.(invocations := call.invocations + 1, ranOn := Some(t))])
    case Finish(t, value) =>
      var c := Top(th).value.call;
      var call := st.calls[c].(result := Some(value));
      State(st.threads[t := Popped(th)],
            st.calls[c := if call.caller == call.target then call.(returned := Some(value)) else call])
    case Return(t) =>
      var c := Top(th).value.call;
      State(st.threads[t := Popped(th)], st.calls[c := st.calls[c].(returned := st.calls[c].result)])
  }

  function Initial(n: nat): State {
    State(seq(n, i => Thread([], [])), [])
  }

  function Next(st: State, step: Step): State {
    if Enabled(st, step) then Apply(st, step) else st
  }

  function Exec(n: nat, steps: seq<Step>): State {
    if steps == [] then Initial(n) else Next(Exec(n, steps[..|steps| - 1]), steps[|steps| - 1])
  }

  lemma ExecSnoc(n: nat, steps: seq<Step>, step: Step)
    ensures Exec(n, steps + [step]) == Next(Exec(n, steps), step)
  {
    assert (steps + [step])[..|steps|] == steps;
  }

  // ----- What every step keeps

  /** A call that has not been invoked yet and waits on thread `t`. */
  ghost predicate IsQueued(calls: seq<Call>, c: nat, t: nat) {
    c < |calls| && calls[c].target == t != calls[c].caller && calls[c].invocations == 0
    && calls[c].result.None? && calls[c].returned.None?
  }

  /** A call whose method is being executed on `t`. */
  ghost predicate IsRunning(calls: seq<Call>, c: nat, t: nat) {
    c < |calls| && calls[c].target == t && calls[c].invocations == 1 && calls[c].ranOn == Some(t)
    && calls[c].result.None? && calls[c].returned.None?
  }

  /** A call from `t` to another thread that has not returned. */
  ghost predicate IsBlocked(calls: seq<Call>, c: nat, t: nat) {
    c < |calls| && calls[c].caller == t != calls[c].target && calls[c].returned.None?
  }

  ghost predicate FrameOk(calls: seq<Call>, f: Frame, t: nat) {
    if f.Running? then IsRunning(calls, f.call, t) else IsBlocked(calls, f.call, t)
  }

  ghost predicate ThreadOk(calls: seq<Call>, th: Thread, t: nat) {
    && (forall i :: 0 <= i < |th.stack| ==> FrameOk(calls, th.stack[i], t))
    && (forall i :: 0 <= i < |th.stack| - 1 ==> th.stack[i].Running?)
    && (forall i :: 0 <= i < |th.queue| ==> IsQueued(calls, th.queue[i], t))
    && (forall i, j :: 0 <= i < j < |th.stack| ==> th.stack[i] != th.stack[j])
    && (forall i, j :: 0 <= i < j < |th.queue| ==> th.queue[i] != th.queue[j])
  }

  /** A finished invocation ran exactly once, on the target, and what `Marshal` returned is its
      result; an unfinished one is in its target's queue or on its target's stack, and a caller
      that has not returned is blocked. */
  ghost predicate CallOk(st: State, c: nat)
    requires c < |st.calls|
  {
    var call := st.calls[c];
    && call.target < |st.threads| && call.caller < |st.threads|
    && (call.result.Some? ==> call.invocations == 1 && call.ranOn == Some(call.target))
    && (call.returned.Some? ==> call.returned == call.result)
    && (call.result.None? ==>
          c in st.threads[call.target].queue || Running(c) in st.threads[call.target].stack)
    && (call.returned.None? ==>
          if call.caller == call.target then call.result.None? else Blocked(c) in st.threads[call.caller].stack)
  }

  ghost predicate Invariant(st: State) {
    && (forall t :: 0 <= t < |st.threads| ==> ThreadOk(st.calls, st.threads[t], t))
    && (forall c :: 0 <= c < |st.calls| ==> CallOk(st, c))
  }

  /** Adding a call leaves what is known of the others. */
  lemma MoreCalls(calls: seq<Call>, more: seq<Call>, th: Thread, t: nat)
    requires ThreadOk(calls, th, t) && calls <= more
    ensures ThreadOk(more, th, t)
  {
    forall i | 0 <= i < |th.stack| ensures FrameOk(more, th.stack[i], t) {
      assert FrameOk(calls, th.stack[i], t);
    }
  }

  lemma MarshalHereKeeps(st: State, t: nat)
    requires Invariant(st) && Enabled(st, Marshal(t, t))
    ensures Invariant(Apply(st, Marshal(t, t)))
  {
    var st' := Apply(st, Marshal(t, t));
    forall u | 0 <= u < |st.threads| ensures ThreadOk(st'.calls, st'.threads[u], u) {
      MoreCalls(st.calls, st'.calls, st.threads[u], u);
    }
    forall c | 0 <= c < |st'.calls| ensures CallOk(st', c) {
      if c < |st.calls| {
        assert CallOk(st, c);
        StackGrows(st.threads[t].stack, Running(|st.calls|));
      } else {
        assert st'.threads[t].stack[|st.threads[t].stack|] == Running(c);
      }
    }
  }

  lemma StackGrows(stack: seq<Frame>, f: Frame)
    ensures forall g :: g in stack ==> g in stack + [f]
  {}

  lemma MarshalAwayThread(st: State, t: nat, target: nat, u: nat)
    requires Invariant(st) && Enabled(st, Marshal(t, target)) && t != target && u < |st.threads|
    ensures ThreadOk(Apply(st, Marshal(t, target)).calls, Apply(st, Marshal(t, target)).threads[u], u)
  {
    MoreCalls(st.calls, Apply(st, Marshal(t, target)).calls, st.threads[u], u);
  }

  lemma MarshalAwayCall(st: State, t: nat, target: nat, c: nat)
    requires Invariant(st) && Enabled(st, Marshal(t, target)) && t != target && c <= |st.calls|
    ensures CallOk(Apply(st, Marshal(t, target)), c)
  {
    var st' := Apply(st, Marshal(t, target));
    if c < |st.calls| {
      assert CallOk(st, c);
      StackGrows(st.threads[t].stack, Blocked(|st.calls|));
    } else {
      assert st'.threads[target].queue[|st.threads[target].queue|] == c;
      assert st'.threads[t].stack[|st.threads[t].stack|] == Blocked(c);
    }
  }

  lemma MarshalAwayKeeps(st: State, t: nat, target: nat)
    requires Invariant(st) && Enabled(st, Marshal(t, target)) && t != target
    ensures Invariant(Apply(st, Marshal(t, target)))
  {
    var st' := Apply(st, Marshal(t, target));
    forall u | 0 <= u < |st.threads| ensures ThreadOk(st'.calls, st'.threads[u], u) {
      MarshalAwayThread(st, t, target, u);
    }
    forall c | 0 <= c < |st'.calls| ensures CallOk(st', c) {
      MarshalAwayCall(st, t, target, c);
    }
  }

  /** A thread that does not depend on what changed in call `c` stays consistent. */
  ghost predicate Independent(th: Thread, c: nat) {
    && (forall i :: 0 <= i < |th.stack| ==> th.stack[i].call != c)
    && (forall i :: 0 <= i < |th.queue| ==> th.queue[i] != c)
  }

  lemma IndependentOk(calls: seq<Call>, c: nat, call: Call, th: Thread, t: nat)
    requires ThreadOk(calls, th, t) && c < |calls| && Independent(th, c)
    ensures ThreadOk(calls[c := call], th, t)
  {
    forall i | 0 <= i < |th.stack| ensures FrameOk(calls[c := call], th.stack[i], t) {
      assert FrameOk(calls, th.stack[i], t);
    }
  }

  /** A thread other than the target of `c` sees only whether it has returned. */
  lemma ElsewhereOk(calls: seq<Call>, c: nat, call: Call, th: Thread, t: nat)
    requires ThreadOk(calls, th, t) && c < |calls| && calls[c].target != t
    requires call.caller == calls[c].caller && call.target == calls[c].target
    requires call.returned == calls[c].returned || call.caller == call.target
    ensures ThreadOk(calls[c := call], th, t)
  {
    forall i | 0 <= i < |th.stack| ensures FrameOk(calls[c := call], th.stack[i], t) {
      assert FrameOk(calls, th.stack[i], t);
    }
  }

  lemma PoppedOk(calls: seq<Call>, th: Thread, t: nat)
    requires ThreadOk(calls, th, t)
    ensures ThreadOk(calls, Popped(th), t)
  {}

  lemma RunTaskThread(calls: seq<Call>, th: Thread, t: nat)
    requires ThreadOk(calls, th, t) && th.stack == [] && th.queue != [] && th.queue[0] < |calls|
    ensures var c := th.queue[0];
            ThreadOk(calls[c := calls[c].(invocations := calls[c].invocations + 1, ranOn := Some(t))],
                     Thread([Running(c)], th.queue[1..]), t)
  {}

  lemma RunTaskThreads(st: State, t: nat, u: nat)
    requires Invariant(st) && Enabled(st, RunTask(t)) && u < |st.threads|
    ensures ThreadOk(Apply(st, RunTask(t)).calls, Apply(st, RunTask(t)).threads[u], u)
  {
    var st' := Apply(st, RunTask(t));
    var th := st.threads[t];
    var c := th.queue[0];
    assert ThreadOk(st.calls, th, t) && ThreadOk(st.calls, st.threads[u], u) && IsQueued(st.calls, c, t);
    if u != t {
      ElsewhereOk(st.calls, c, st'.calls[c], st.threads[u], u);
    } else {
      RunTaskThread(st.calls, th, t);
      assert th.stack + [Running(c)] == [Running(c)];
    }
  }

  lemma RunTaskCalls(st: State, t: nat, d: nat)
    requires Enabled(st, RunTask(t)) && d < |st.calls| && CallOk(st, d) && IsQueued(st.calls, st.threads[t].queue[0], t)
    ensures CallOk(Apply(st, RunTask(t)), d)
  {
    var st' := Apply(st, RunTask(t));
    var queue := st.threads[t].queue;
    if d == queue[0] {
      assert st'.threads[t].stack[|st.threads[t].stack|] == Running(d);
    } else {
      assert queue == [queue[0]] + queue[1..];
      StackGrows(st.threads[t].stack, Running(queue[0]));
    }
  }

  lemma RunTaskKeeps(st: State, t: nat)
    requires Invariant(st) && Enabled(st, RunTask(t))
    ensures Invariant(Apply(st, RunTask(t)))
  {
    forall u | 0 <= u < |st.threads|
      ensures ThreadOk(Apply(st, RunTask(t)).calls, Apply(st, RunTask(t)).threads[u], u)
    {
      RunTaskThreads(st, t, u);
    }
    assert ThreadOk(st.calls, st.threads[t], t);
    forall d | 0 <= d < |st.calls| ensures CallOk(Apply(st, RunTask(t)), d) {
      RunTaskCalls(st, t, d);
    }
  }

  lemma FinishThread(calls: seq<Call>, th: Thread, t: nat)
    requires ThreadOk(calls, th, t) && Top(th).Some? && Top(th).value.Running?
    ensures Independent(Popped(th), Top(th).value.call)
  {
    var c := Top(th).value.call;
    assert FrameOk(calls, th.stack[|th.stack| - 1], t);
    forall i | 0 <= i < |th.stack| - 1 ensures th.stack[i].call != c {
      assert FrameOk(calls, th.stack[i], t);
    }
  }

  lemma FinishKeeps(st: State, t: nat, value: Value)
    requires Invariant(st) && Enabled(st, Finish(t, value))
    ensures Invariant(Apply(st, Finish(t, value)))
  {
    var st' := Apply(st, Finish(t, value));
    var th := st.threads[t];
    var c := Top(th).value.call;
    assert ThreadOk(st.calls, th, t) && FrameOk(st.calls, th.stack[|th.stack| - 1], t);
    forall u | 0 <= u < |st.threads| ensures ThreadOk(st'.calls, st'.threads[u], u) {
      if u != t {
        ElsewhereOk(st.calls, c, st'.calls[c], st.threads[u], u);
      } else {
        FinishThread(st.calls, th, t);
        PoppedOk(st.calls, th, t);
        IndependentOk(st.calls, c, st'.calls[c], Popped(th), t);
      }
    }
    forall d | 0 <= d < |st'.calls| ensures CallOk(st', d) {
      assert CallOk(st, d);
      PopsOne(th, Running(d));
      PopsOne(th, Blocked(d));
    }
  }

  lemma PopsOne(th: Thread, f: Frame)
    ensures f in th.stack ==> f in Popped(th).stack || Top(th) == Some(f)
  {
    if f in th.stack {
      var i :| 0 <= i < |th.stack| && th.stack[i] == f;
      assert i < |th.stack| - 1 ==> Popped(th).stack[i] == f;
    }
  }

  lemma NotMentioned(calls: seq<Call>, c: nat, th: Thread, t: nat)
    requires ThreadOk(calls, th, t) && c < |calls| && calls[c].result.Some? && calls[c].caller != t
    ensures Independent(th, c)
  {
    forall i | 0 <= i < |th.stack| ensures th.stack[i].call != c {
      assert FrameOk(calls, th.stack[i], t);
    }
  }

  lemma ReturnThread(calls: seq<Call>, th: Thread, t: nat)
    requires ThreadOk(calls, th, t) && Top(th).Some? && Top(th).value.Blocked?
    requires Top(th).value.call < |calls| && calls[Top(th).value.call].result.Some?
    ensures Independent(Popped(th), Top(th).value.call)
  {
    forall i | 0 <= i < |th.stack| - 1 ensures th.stack[i].call != Top(th).value.call {
      assert FrameOk(calls, th.stack[i], t) && th.stack[i].Running?;
    }
  }

  lemma ReturnKeeps(st: State, t: nat)
    requires Invariant(st) && Enabled(st, Return(t))
    ensures Invariant(Apply(st, Return(t)))
  {
    var st' := Apply(st, Return(t));
    var th := st.threads[t];
    var c := Top(th).value.call;
    assert ThreadOk(st.calls, th, t) && FrameOk(st.calls, th.stack[|th.stack| - 1], t);
    forall u | 0 <= u < |st.threads| ensures ThreadOk(st'.calls, st'.threads[u], u) {
      if u != t {
        NotMentioned(st.calls, c, st.threads[u], u);
        IndependentOk(st.calls, c, st'.calls[c], st.threads[u], u);
      } else {
        ReturnThread(st.calls, th, t);
        PoppedOk(st.calls, th, t);
        IndependentOk(st.calls, c, st'.calls[c], Popped(th), t);
      }
    }
    forall d | 0 <= d < |st'.calls| ensures CallOk(st', d) {
      assert CallOk(st, d);
      PopsOne(th, Running(d));
      PopsOne(th, Blocked(d));
    }
  }

  lemma {:induction false} EveryRunKeepsInvariant(n: nat, steps: seq<Step>)
    ensures Invariant(Exec(n, steps))
  {
    if steps != [] {
      EveryRunKeepsInvariant(n, steps[..|steps| - 1]);
      var st, step := Exec(n, steps[..|steps| - 1]), steps[|steps| - 1];
      if Enabled(st, step) {
        match step
        case Marshal(t, target) =>
          if t == target {
            MarshalHereKeeps(st, t);
          } else {
            MarshalAwayKeeps(st, t, target);
          }
        case RunTask(t) => RunTaskKeeps(st, t);
        case Finish(t, value) => FinishKeeps(st, t, value);
        case Return(t) => ReturnKeeps(st, t);
      }
    }
  }

  // ----- Every run

  /** In every interleaving a method is invoked at most once; `Marshal` returns only after it ran
      exactly once, on the target thread, and returns what that invocation produced. */
  lemma ReturnsItsOnlyInvocation(n: nat, steps: seq<Step>, c: nat)
    requires c < |Exec(n, steps).calls|
    ensures var call := Exec(n, steps).calls[c];
            && call.invocations <= 1
            && (call.returned.Some? ==>
                  call.invocations == 1 && call.ranOn == Some(call.target) && call.returned == call.result)
  {
    EveryRunKeepsInvariant(n, steps);
    var st := Exec(n, steps);
    assert CallOk(st, c);
    var th := st.threads[st.calls[c].target];
    assert ThreadOk(st.calls, th, st.calls[c].target);
    if Running(c) in th.stack {
      var i :| 0 <= i < |th.stack| && th.stack[i] == Running(c);
      assert FrameOk(st.calls, th.stack[i], st.calls[c].target);
    }
  }

  // ----- What a call returns, by the steps alone

  /** The step ends the invocation of call `c`, which produced `v`. */
  ghost predicate Finishes(st: State, step: Step, c: nat, v: Value) {
    Enabled(st, step) && step.Finish? && step.value == v && Top(st.threads[step.t]) == Some(Running(c))
  }

  lemma StepResult(st: State, step: Step, c: nat, v: Value)
    requires Enabled(st, step) && c < |st.calls|
    ensures c < |Apply(st, step).calls| && Apply(st, step).calls[c].target == st.calls[c].target
    ensures Apply(st, step).calls[c].result == Some(v) <==>
            Finishes(st, step, c, v) || (st.calls[c].result == Some(v) && !AnyFinish(st, step, c))
  {}

  ghost predicate AnyFinish(st: State, step: Step, c: nat) {
    Enabled(st, step) && step.Finish? && Top(st.threads[step.t]) == Some(Running(c))
  }

  /** An invocation that ends has produced nothing before, and runs on its target. */
  lemma FinishIsFirst(st: State, step: Step, c: nat)
    requires Invariant(st) && AnyFinish(st, step, c)
    ensures c < |st.calls| && st.calls[c].result.None? && st.calls[c].target == step.t
  {
    var th := st.threads[step.t];
    assert ThreadOk(st.calls, th, step.t) && FrameOk(st.calls, th.stack[|th.stack| - 1], step.t);
  }

  ghost predicate FinishesAt(n: nat, steps: seq<Step>, i: nat, c: nat, v: Value)
    requires i < |steps|
  {
    Finishes(Exec(n, steps[..i]), steps[i], c, v)
  }

  ghost predicate HasResult(st: State, c: nat, v: Value) {
    c < |st.calls| && st.calls[c].result == Some(v)
  }

  lemma FinishesAtFront(n: nat, front: seq<Step>, step: Step, i: nat, c: nat, v: Value)
    requires i <= |front|
    ensures FinishesAt(n, front + [step], i, c, v) <==>
            if i < |front| then FinishesAt(n, front, i, c, v) else Finishes(Exec(n, front), step, c, v)
  {
    assert (front + [step])[..i] == front[..i];
    assert i == |front| ==> front[..i] == front;
  }

  ghost predicate IsFinished(n: nat, steps: seq<Step>, c: nat, v: Value) {
    exists i :: 0 <= i < |steps| && FinishesAt(n, steps, i, c, v)
  }

  lemma IsFinishedSnoc(n: nat, front: seq<Step>, step: Step, c: nat, v: Value)
    ensures IsFinished(n, front + [step], c, v) <==> IsFinished(n, front, c, v) || Finishes(Exec(n, front), step, c, v)
  {
    if IsFinished(n, front, c, v) {
      var i :| 0 <= i < |front| && FinishesAt(n, front, i, c, v);
      FinishesAtFront(n, front, step, i, c, v);
    }
    if IsFinished(n, front + [step], c, v) {
      var i :| 0 <= i < |front + [step]| && FinishesAt(n, front + [step], i, c, v);
      FinishesAtFront(n, front, step, i, c, v);
    }
    FinishesAtFront(n, front, step, |front|, c, v);
  }

  lemma NextResult(st: State, step: Step, c: nat, v: Value)
    requires Invariant(st)
    ensures HasResult(Next(st, step), c, v) <==> HasResult(st, c, v) || Finishes(st, step, c, v)
  {
    if Enabled(st, step) {
      if AnyFinish(st, step, c) {
        FinishIsFirst(st, step, c);
      }
      if c < |st.calls| {
        StepResult(st, step, c, v);
      } else if c < |Apply(st, step).calls| {
        NewHasNone(st, step, c);
      }
    }
  }

  lemma NewHasNone(st: State, step: Step, c: nat)
    requires Enabled(st, step) && |st.calls| <= c < |Apply(st, step).calls|
    ensures Apply(st, step).calls[c].result.None?
  {}

  /** In every run a call has a result if and only if some step ended its invocation with that value. */
  lemma {:induction false} ResultExactly(n: nat, steps: seq<Step>, c: nat, v: Value)
    ensures HasResult(Exec(n, steps), c, v) <==> IsFinished(n, steps, c, v)
  {
    if steps != [] {
      var front, step := steps[..|steps| - 1], steps[|steps| - 1];
      ResultExactly(n, front, c, v);
      EveryRunKeepsInvariant(n, front);
      NextResult(Exec(n, front), step, c, v);
      IsFinishedSnoc(n, front, step, c, v);
      assert steps == front + [step];
    }
  }

  /** The invocation of a call ends at most once. */
  lemma FinishesOnce(n: nat, steps: seq<Step>, i: nat, j: nat, c: nat, v: Value, u: Value)
    requires i <= j < |steps| && FinishesAt(n, steps, i, c, v) && FinishesAt(n, steps, j, c, u)
    ensures i == j
  {
    if i < j {
      assert steps[..j][..i] == steps[..i] && steps[..j][i] == steps[i];
      assert FinishesAt(n, steps[..j], i, c, v);
      ResultExactly(n, steps[..j], c, v);
      EveryRunKeepsInvariant(n, steps[..j]);
      FinishIsFirst(Exec(n, steps[..j]), steps[j], c);
    }
  }

  /** `i` is the one step that ends the invocation of `c`, on thread `t`, and it produces `v`. */
  ghost predicate OnlyFinish(n: nat, steps: seq<Step>, i: nat, c: nat, t: nat, v: Value) {
    && i < |steps| && steps[i] == Finish(t, v) && FinishesAt(n, steps, i, c, v)
    && forall j, u :: 0 <= j < |steps| && FinishesAt(n, steps, j, c, u) ==> j == i
  }

  lemma {:induction false} TargetStays(n: nat, steps: seq<Step>, i: nat, c: nat)
    requires i <= |steps| && c < |Exec(n, steps[..i]).calls|
    ensures c < |Exec(n, steps).calls| && Exec(n, steps).calls[c].target == Exec(n, steps[..i]).calls[c].target
    decreases |steps|
  {
    if i == |steps| {
      assert steps[..i] == steps;
    } else {
      var front, step := steps[..|steps| - 1], steps[|steps| - 1];
      assert front[..i] == steps[..i];
      TargetStays(n, front, i, c);
      if Enabled(Exec(n, front), step) {
        StepResult(Exec(n, front), step, c, 0);
      }
    }
  }

  /** In every run, if `Marshal` of a call has returned `v`, exactly one step ended an invocation of its
      method, it ran on the target thread, and `v` is what it produced. */
  lemma ReturnsWhatItsInvocationProduced(n: nat, steps: seq<Step>, c: nat, v: Value) returns (i: nat)
    requires c < |Exec(n, steps).calls| && Exec(n, steps).calls[c].returned == Some(v)
    ensures OnlyFinish(n, steps, i, c, Exec(n, steps).calls[c].target, v)
  {
    ReturnsItsOnlyInvocation(n, steps, c);
    ResultExactly(n, steps, c, v);
    i :| 0 <= i < |steps| && FinishesAt(n, steps, i, c, v);
    EveryRunKeepsInvariant(n, steps[..i]);
    FinishIsFirst(Exec(n, steps[..i]), steps[i], c);
    TargetStays(n, steps, i, c);
    forall j, u | 0 <= j < |steps| && FinishesAt(n, steps, j, c, u) ensures j == i {
      if i <= j {
        FinishesOnce(n, steps, i, j, c, v, u);
      } else {
        FinishesOnce(n, steps, j, i, c, u, v);
      }
    }
  }

  // ----- Calls are invoked in the order in which they were posted

  predicate IsRemote(call: Call) {
    call.caller != call.target
  }

  /** A queue is in order of posting, and whatever was posted after one of its calls waits too. */
  ghost predicate QueueInOrder(calls: seq<Call>, queue: seq<nat>, t: nat) {
    && (forall i, j :: 0 <= i < j < |queue| ==> queue[i] < queue[j])
    && (forall i, d :: 0 <= i < |queue| && queue[i] < d < |calls| && IsRemote(calls[d]) && calls[d].target == t ==>
          calls[d].invocations == 0)
    && (forall i :: 0 <= i < |queue| ==> queue[i] < |calls|)
  }

  ghost predicate InOrder(st: State) {
    forall t :: 0 <= t < |st.threads| ==> QueueInOrder(st.calls, st.threads[t].queue, t)
  }

  lemma PostInOrder(calls: seq<Call>, queue: seq<nat>, t: nat, call: Call)
    requires QueueInOrder(calls, queue, t) && call.invocations == 0
    ensures QueueInOrder(calls + [call], queue, t) && QueueInOrder(calls + [call], queue + [|calls|], t)
  {}

  lemma LocalInOrder(calls: seq<Call>, queue: seq<nat>, t: nat, call: Call)
    requires QueueInOrder(calls, queue, t) && !IsRemote(call)
    ensures QueueInOrder(calls + [call], queue, t)
  {}

  lemma TakeInOrder(calls: seq<Call>, queue: seq<nat>, t: nat, call: Call)
    requires QueueInOrder(calls, queue, t) && queue != []
    requires call.caller == calls[queue[0]].caller && call.target == calls[queue[0]].target
    ensures QueueInOrder(calls[queue[0] := call], queue[1..], t)
  {}

  lemma OtherInOrder(calls: seq<Call>, queue: seq<nat>, t: nat, c: nat, call: Call)
    requires QueueInOrder(calls, queue, t) && c < |calls|
    requires call.caller == calls[c].caller && call.target == calls[c].target
    requires call.invocations == calls[c].invocations || call.target != t
    ensures QueueInOrder(calls[c := call], queue, t)
  {}

  lemma MarshalInOrder(st: State, t: nat, target: nat, u: nat)
    requires InOrder(st) && Enabled(st, Marshal(t, target)) && u < |st.threads|
    ensures var st' := Apply(st, Marshal(t, target)); QueueInOrder(st'.calls, st'.threads[u].queue, u)
  {
    var call := Apply(st, Marshal(t, target)).calls[|st.calls|];
    assert QueueInOrder(st.calls, st.threads[u].queue, u);
    if t == target {
      LocalInOrder(st.calls, st.threads[u].queue, u, call);
    } else {
      PostInOrder(st.calls, st.threads[u].queue, u, call);
    }
  }

  lemma RunTaskInOrder(st: State, t: nat, u: nat)
    requires InOrder(st) && Invariant(st) && Enabled(st, RunTask(t)) && u < |st.threads|
    ensures var st' := Apply(st, RunTask(t)); QueueInOrder(st'.calls, st'.threads[u].queue, u)
  {
    var c := st.threads[t].queue[0];
    var call := Apply(st, RunTask(t)).calls[c];
    assert QueueInOrder(st.calls, st.threads[u].queue, u);
    assert ThreadOk(st.calls, st.threads[t], t) && IsQueued(st.calls, c, t);
    if u == t {
      TakeInOrder(st.calls, st.threads[t].queue, t, call);
    } else {
      OtherInOrder(st.calls, st.threads[u].queue, u, c, call);
    }
  }

  lemma EndingInOrder(st: State, step: Step, u: nat)
    requires InOrder(st) && Enabled(st, step) && (step.Finish? || step.Return?) && u < |st.threads|
    ensures var st' := Apply(st, step); QueueInOrder(st'.calls, st'.threads[u].queue, u)
  {
    var c := Top(st.threads[step.t]).value.call;
    assert QueueInOrder(st.calls, st.threads[u].queue, u);
    OtherInOrder(st.calls, st.threads[u].queue, u, c, Apply(st, step).calls[c]);
  }

  lemma StepInOrder(st: State, step: Step)
    requires InOrder(st) && Invariant(st) && Enabled(st, step)
    ensures InOrder(Apply(st, step))
  {
    var st' := Apply(st, step);
    StepKeepsStackSize(st, step);
    forall u | 0 <= u < |st.threads| ensures QueueInOrder(st'.calls, st'.threads[u].queue, u) {
      match step
      case Marshal(t, target) => MarshalInOrder(st, t, target, u);
      case RunTask(t) => RunTaskInOrder(st, t, u);
      case _ => EndingInOrder(st, step, u);
    }
  }

  lemma {:induction false} RunsInOrder(n: nat, steps: seq<Step>)
    ensures InOrder(Exec(n, steps))
  {
    if steps != [] {
      var front, step := steps[..|steps| - 1], steps[|steps| - 1];
      RunsInOrder(n, front);
      EveryRunKeepsInvariant(n, front);
      if Enabled(Exec(n, front), step) {
        StepInOrder(Exec(n, front), step);
      }
    }
  }

  /** In every run the calls posted to one thread are invoked in the order in which they were posted. */
  lemma InvokedInOrder(n: nat, steps: seq<Step>, c: nat, d: nat)
    requires c < d < |Exec(n, steps).calls|
    requires var calls := Exec(n, steps).calls;
             IsRemote(calls[c]) && IsRemote(calls[d]) && calls[c].target == calls[d].target && calls[d].invocations > 0
    ensures Exec(n, steps).calls[c].invocations == 1
  {
    var st := Exec(n, steps);
    var t := st.calls[c].target;
    EveryRunKeepsInvariant(n, steps);
    RunsInOrder(n, steps);
    assert CallOk(st, c) && ThreadOk(st.calls, st.threads[t], t) && QueueInOrder(st.calls, st.threads[t].queue, t);
    assert c !in st.threads[t].queue;
    if Running(c) in st.threads[t].stack {
      var i :| 0 <= i < |st.threads[t].stack| && st.threads[t].stack[i] == Running(c);
      assert FrameOk(st.calls, st.threads[t].stack[i], t);
    }
  }

  /** `Marshal` records who calls whom; a call on one's own thread runs at once, any other waits last in the
      target's queue while its caller is blocked. */
  lemma MarshalRecords(st: State, t: nat, target: nat)
    requires Enabled(st, Marshal(t, target))
    ensures var st', c := Apply(st, Marshal(t, target)), |st.calls|;
            && |st'.calls| == c + 1 && st'.calls[..c] == st.calls
            && st'.calls[c].caller == t && st'.calls[c].target == target && st'.calls[c].returned.None?
            && (t == target ==> Top(st'.threads[t]) == Some(Running(c)) && st'.calls[c].invocations == 1)
            && (t != target ==> Top(st'.threads[t]) == Some(Blocked(c)) && st'.calls[c].invocations == 0)
            && (t != target ==> st'.threads[target].queue == st.threads[target].queue + [c])
  {}

  // ----- Deadlock

  predicate HasWork(st: State, t: nat) {
    t < |st.threads| && (st.threads[t].stack != [] || st.threads[t].queue != [])
  }

  /** The thread can go on with work it already has. */
  predicate CanStep(st: State, t: nat) {
    Enabled(st, RunTask(t)) || Enabled(st, Finish(t, 0)) || Enabled(st, Return(t))
  }

  /** Some thread has work, and no thread with work can do anything at all. */
  ghost predicate Deadlocked(st: State) {
    && (exists t :: HasWork(st, t))
    && (forall step: Step :: HasWork(st, step.t) ==> !Enabled(st, step))
  }

  /** The run marshals only along `pairs` of caller and target. */
  ghost predicate Along(steps: seq<Step>, pairs: set<(nat, nat)>) {
    forall i :: 0 <= i < |steps| && steps[i].Marshal? ==> (steps[i].t, steps[i].target) in pairs
  }

  ghost predicate Within(st: State, pairs: set<(nat, nat)>) {
    forall c :: 0 <= c < |st.calls| ==> (st.calls[c].caller, st.calls[c].target) in pairs
  }

  /** Different threads, each of which may call the next one, and the last one the first. */
  ghost predicate IsCycle(ts: seq<nat>, n: nat, pairs: set<(nat, nat)>) {
    && |ts| >= 2 && NoRepeats(ts) && (forall i :: 0 <= i < |ts| ==> ts[i] < n)
    && forall i {:trigger After(ts, i)} :: 0 <= i < |ts| ==> (ts[i], After(ts, i)) in pairs
  }

  function After(ts: seq<nat>, i: nat): nat
    requires i < |ts|
  {
    if i + 1 < |ts| then ts[i + 1] else ts[0]
  }

  lemma {:induction false} RunsStayWithin(n: nat, steps: seq<Step>, pairs: set<(nat, nat)>)
    requires Along(steps, pairs)
    ensures Within(Exec(n, steps), pairs) && |Exec(n, steps).threads| == n
  {
    if steps != [] {
      RunsStayWithin(n, steps[..|steps| - 1], pairs);
    }
  }

  /** A blocked thread waits for one that has work. */
  lemma BlockedOnWork(st: State, t: nat)
    requires Invariant(st) && HasWork(st, t) && !CanStep(st, t)
    ensures Top(st.threads[t]).Some? && Top(st.threads[t]).value.Blocked?
    ensures var c := Top(st.threads[t]).value.call;
            c < |st.calls| && st.calls[c].caller == t != st.calls[c].target && HasWork(st, st.calls[c].target)
  {
    var th := st.threads[t];
    assert ThreadOk(st.calls, th, t);
    if th.stack != [] {
      assert FrameOk(st.calls, th.stack[|th.stack| - 1], t);
      assert CallOk(st, Top(th).value.call);
    }
  }

  lemma {:induction false} Pigeonhole(ts: seq<nat>, n: nat)
    requires NoRepeats(ts) && forall i :: 0 <= i < |ts| ==> ts[i] < n
    ensures |ts| <= n
    decreases n
  {
    if ts != [] {
      assert ts[0] < n;
      var m := n - 1;
      if m in ts {
        var k :| 0 <= k < |ts| && ts[k] == m;
        Pigeonhole(ts[..k] + ts[k + 1..], m);
      } else {
        Pigeonhole(ts, m);
      }
    }
  }

  /** Threads that wait for each other in turn. */
  ghost predicate IsChain(st: State, path: seq<nat>, pairs: set<(nat, nat)>) {
    && path != [] && NoRepeats(path) && HasWork(st, path[|path| - 1])
    && (forall i :: 0 <= i < |path| ==> path[i] < |st.threads|)
    && (forall i {:trigger After(path, i)} :: 0 <= i < |path| - 1 ==> (path[i], After(path, i)) in pairs)
  }

  /** If no thread with work can go on, following who waits for whom comes round to a cycle. */
  lemma {:induction false} FollowWaits(st: State, path: seq<nat>, pairs: set<(nat, nat)>) returns (cycle: seq<nat>)
    requires Invariant(st) && Within(st, pairs) && IsChain(st, path, pairs)
    requires forall u :: HasWork(st, u) ==> !CanStep(st, u)
    ensures IsCycle(cycle, |st.threads|, pairs)
    decreases |st.threads| - |path|
  {
    var last := path[|path| - 1];
    BlockedOnWork(st, last);
    var next := st.calls[Top(st.threads[last]).value.call].target;
    if next in path {
      cycle := CloseCycle(st, path, next, pairs);
    } else {
      Pigeonhole(path + [next], |st.threads|);
      ChainGrows(st, path, next, pairs);
      cycle := FollowWaits(st, path + [next], pairs);
    }
  }

  lemma CloseCycle(st: State, path: seq<nat>, next: nat, pairs: set<(nat, nat)>) returns (cycle: seq<nat>)
    requires IsChain(st, path, pairs) && next in path && next != path[|path| - 1] && (path[|path| - 1], next) in pairs
    ensures IsCycle(cycle, |st.threads|, pairs)
  {
    var k :| 0 <= k < |path| && path[k] == next;
    cycle := path[k..];
    forall i | 0 <= i < |cycle| ensures (cycle[i], After(cycle, i)) in pairs {
      assert cycle[i] == path[k + i];
      assert i + 1 < |cycle| ==> After(cycle, i) == After(path, k + i);
    }
  }

  lemma ChainGrows(st: State, path: seq<nat>, next: nat, pairs: set<(nat, nat)>)
    requires IsChain(st, path, pairs) && next !in path && HasWork(st, next) && (path[|path| - 1], next) in pairs
    ensures IsChain(st, path + [next], pairs)
  {
    var longer := path + [next];
    forall i | 0 <= i < |path| ensures (longer[i], After(longer, i)) in pairs {
      assert i < |path| - 1 ==> After(longer, i) == After(path, i);
    }
  }

  // ----- Threads that wait for each other never go on

  /** Every thread of `ts` is blocked on a call to another of them that has no result. */
  ghost predicate Frozen(st: State, ts: seq<nat>) {
    forall t {:trigger FrozenThread(st, ts, t)} :: t in ts ==> FrozenThread(st, ts, t)
  }

  ghost predicate FrozenThread(st: State, ts: seq<nat>, t: nat) {
    && t < |st.threads| && Top(st.threads[t]).Some? && Top(st.threads[t]).value.Blocked?
    && Hopeless(st.calls, ts, Top(st.threads[t]).value.call)
  }

  ghost predicate Hopeless(calls: seq<Call>, ts: seq<nat>, c: nat) {
    c < |calls| && calls[c].result.None? && calls[c].target in ts
  }

  ghost predicate SameStacks(st: State, st': State, ts: seq<nat>) {
    && |st.threads| == |st'.threads|
    && forall t :: t in ts && t < |st.threads| ==> st'.threads[t].stack == st.threads[t].stack
  }

  lemma FrozenCannotStep(st: State, ts: seq<nat>, step: Step)
    requires Frozen(st, ts) && step.t in ts
    ensures !Enabled(st, step)
  {
    assert FrozenThread(st, ts, step.t);
  }

  lemma StepKeepsStack(st: State, step: Step, t: nat)
    requires Enabled(st, step) && t < |st.threads| && t != step.t
    ensures |Apply(st, step).threads| == |st.threads| && Apply(st, step).threads[t].stack == st.threads[t].stack
  {}

  lemma StaysHopeless(st: State, step: Step, ts: seq<nat>, c: nat)
    requires Invariant(st) && Enabled(st, step) && step.t !in ts && Hopeless(st.calls, ts, c)
    ensures Hopeless(Apply(st, step).calls, ts, c)
  {
    var th := st.threads[step.t];
    assert ThreadOk(st.calls, th, step.t);
    assert step.Finish? ==> FrameOk(st.calls, th.stack[|th.stack| - 1], step.t);
  }

  lemma FrozenStep(st: State, ts: seq<nat>, step: Step)
    requires Invariant(st) && Frozen(st, ts) && Enabled(st, step)
    ensures Frozen(Apply(st, step), ts) && SameStacks(st, Apply(st, step), ts)
  {
    var st' := Apply(st, step);
    assert step.t !in ts by {
      if step.t in ts {
        FrozenCannotStep(st, ts, step);
      }
    }
    forall t | t in ts
      ensures t < |st.threads| && FrozenThread(st', ts, t) && st'.threads[t].stack == st.threads[t].stack
    {
      assert FrozenThread(st, ts, t);
      StepKeepsStack(st, step, t);
      StaysHopeless(st, step, ts, Top(st.threads[t]).value.call);
    }
    StepKeepsStackSize(st, step);
  }

  lemma StepKeepsStackSize(st: State, step: Step)
    requires Enabled(st, step)
    ensures |Apply(st, step).threads| == |st.threads|
  {}

  lemma {:induction false} FrozenForEver(n: nat, steps: seq<Step>, more: seq<Step>, ts: seq<nat>)
    requires Frozen(Exec(n, steps), ts)
    ensures Frozen(Exec(n, steps + more), ts) && SameStacks(Exec(n, steps), Exec(n, steps + more), ts)
    decreases |more|
  {
    if more == [] {
      assert steps + more == steps;
    } else {
      var front, step := more[..|more| - 1], more[|more| - 1];
      FrozenForEver(n, steps, front, ts);
      assert (steps + more)[..|steps + more| - 1] == steps + front;
      EveryRunKeepsInvariant(n, steps + front);
      if Enabled(Exec(n, steps + front), step) {
        FrozenStep(Exec(n, steps + front), ts, step);
      }
    }
  }

  /** `Marshal` of call `c` has been entered and returns in no continuation whatever. */
  ghost predicate NeverReturns(n: nat, steps: seq<Step>, c: nat) {
    && c < |Exec(n, steps).calls|
    && forall more: seq<Step> :: !HasReturned(Exec(n, steps + more), c)
  }

  ghost predicate HasReturned(st: State, c: nat) {
    c < |st.calls| && st.calls[c].returned.Some?
  }

  lemma FrozenNeverReturns(n: nat, steps: seq<Step>, ts: seq<nat>, c: nat)
    requires Frozen(Exec(n, steps), ts) && ts != [] && |Exec(n, steps).threads| > ts[0]
    requires Top(Exec(n, steps).threads[ts[0]]) == Some(Blocked(c))
    ensures NeverReturns(n, steps, c)
  {
    assert FrozenThread(Exec(n, steps), ts, ts[0]);
    forall more: seq<Step> ensures !HasReturned(Exec(n, steps + more), c) {
      FrozenForEver(n, steps, more, ts);
      EveryRunKeepsInvariant(n, steps + more);
      NotReturned(Exec(n, steps + more), ts[0], c);
    }
  }

  lemma NotReturned(st: State, t: nat, c: nat)
    requires Invariant(st) && t < |st.threads| && Top(st.threads[t]) == Some(Blocked(c))
    ensures !HasReturned(st, c)
  {
    var th := st.threads[t];
    assert ThreadOk(st.calls, th, t) && FrameOk(st.calls, th.stack[|th.stack| - 1], t);
  }

  // ----- Calling round a cycle

  function Round(ts: seq<nat>, k: nat): seq<Step>
    requires k <= |ts|
  {
    if k == 0 then [] else Round(ts, k - 1) + [Marshal(ts[k - 1], After(ts, k - 1))]
  }

  ghost predicate Waits(st: State, ts: seq<nat>, i: nat)
    requires i < |ts|
  {
    && i < |st.calls| && st.calls[i] == Call(ts[i], After(ts, i), 0, None, None, None)
    && ts[i] < |st.threads| && st.threads[ts[i]].stack == [Blocked(i)]
  }

  /** The first `k` threads of the cycle have called the next one and are blocked. */
  ghost predicate Rounded(st: State, ts: seq<nat>, k: nat, n: nat)
    requires k <= |ts|
  {
    && |st.threads| == n && |st.calls| == k && (forall i :: 0 <= i < |ts| ==> ts[i] < n)
    && (forall i {:trigger Waits(st, ts, i)} :: 0 <= i < k ==> Waits(st, ts, i))
    && (forall t :: 0 <= t < n && t !in ts[..k] ==> st.threads[t].stack == [])
    && (forall t :: 0 <= t < n && st.threads[t].queue != [] ==> t in ts)
  }

  lemma RoundStep(st: State, ts: seq<nat>, k: nat, n: nat)
    requires k < |ts| && NoRepeats(ts) && |ts| >= 2 && Rounded(st, ts, k, n)
    ensures Enabled(st, Marshal(ts[k], After(ts, k))) && Rounded(Apply(st, Marshal(ts[k], After(ts, k))), ts, k + 1, n)
  {
    var t, u := ts[k], After(ts, k);
    assert t !in ts[..k];
    var st' := Apply(st, Marshal(t, u));
    assert st'.threads[t].stack == [Blocked(k)];
    forall i | 0 <= i <= k ensures Waits(st', ts, i) {
      assert i < k ==> Waits(st, ts, i) && ts[i] in ts[..k];
    }
    forall v | 0 <= v < n ensures v != t ==> st'.threads[v].stack == st.threads[v].stack {}
    forall v | 0 <= v < n && st'.threads[v].queue != [] ensures v in ts {
      assert v == u || st'.threads[v].queue == st.threads[v].queue;
    }
    assert ts[..k + 1] == ts[..k] + [t];
  }

  lemma RoundSnoc(ts: seq<nat>, k: nat, n: nat)
    requires 0 < k <= |ts|
    ensures Exec(n, Round(ts, k)) == Next(Exec(n, Round(ts, k - 1)), Marshal(ts[k - 1], After(ts, k - 1)))
  {
    ExecSnoc(n, Round(ts, k - 1), Marshal(ts[k - 1], After(ts, k - 1)));
  }

  lemma {:induction false} RoundBlocks(ts: seq<nat>, k: nat, n: nat)
    requires k <= |ts| && |ts| >= 2 && NoRepeats(ts) && forall i :: 0 <= i < |ts| ==> ts[i] < n
    ensures Rounded(Exec(n, Round(ts, k)), ts, k, n)
  {
    if k > 0 {
      RoundBlocks(ts, k - 1, n);
      RoundStep(Exec(n, Round(ts, k - 1)), ts, k - 1, n);
      RoundSnoc(ts, k, n);
    }
  }

  lemma {:induction false} RoundAlong(ts: seq<nat>, k: nat, n: nat, pairs: set<(nat, nat)>)
    requires k <= |ts| && IsCycle(ts, n, pairs)
    ensures Along(Round(ts, k), pairs)
  {
    if k > 0 {
      RoundAlong(ts, k - 1, n, pairs);
    }
  }

  lemma RoundedDeadlocked(st: State, ts: seq<nat>, n: nat)
    requires |ts| >= 2 && Rounded(st, ts, |ts|, n)
    ensures Frozen(st, ts) && Deadlocked(st)
  {
    assert Waits(st, ts, 0) && ts[..|ts|] == ts && HasWork(st, ts[0]);
    forall t | t in ts ensures FrozenThread(st, ts, t) {
      var i :| 0 <= i < |ts| && ts[i] == t;
      assert Waits(st, ts, i);
    }
    forall step: Step | HasWork(st, step.t) ensures !Enabled(st, step) {
      FrozenCannotStep(st, ts, step);
    }
  }

  // ----- Without a cycle every call can return

  /** How many steps a call still takes. */
  function Left(call: Call): nat {
    if call.returned.Some? then 0
    else if call.caller == call.target || call.result.Some? then 1
    else if call.invocations > 0 then 2
    else 3
  }

  function AllLeft(calls: seq<Call>): nat {
    if calls == [] then 0 else AllLeft(calls[..|calls| - 1]) + Left(calls[|calls| - 1])
  }

  lemma {:induction false} AllLeftUpdate(calls: seq<Call>, c: nat, call: Call)
    requires c < |calls|
    ensures AllLeft(calls[c := call]) == AllLeft(calls) - Left(calls[c]) + Left(call)
  {
    var n := |calls| - 1;
    if c < n {
      AllLeftUpdate(calls[..n], c, call);
      assert calls[c := call][..n] == calls[..n][c := call];
    } else {
      assert calls[c := call][..n] == calls[..n];
    }
  }

  lemma StepLeavesLess(st: State, step: Step)
    requires Invariant(st) && Enabled(st, step) && !step.Marshal?
    ensures AllLeft(Apply(st, step).calls) < AllLeft(st.calls) && |Apply(st, step).calls| == |st.calls|
  {
    var th := st.threads[step.t];
    assert ThreadOk(st.calls, th, step.t);
    var c := if step.RunTask? then th.queue[0] else Top(th).value.call;
    assert step.RunTask? || FrameOk(st.calls, th.stack[|th.stack| - 1], step.t);
    AllLeftUpdate(st.calls, c, Apply(st, step).calls[c]);
  }

  lemma IdleHasReturned(st: State, c: nat)
    requires Invariant(st) && c < |st.calls| && forall t :: !HasWork(st, t)
    ensures st.calls[c].returned.Some?
  {
    assert CallOk(st, c) && !HasWork(st, st.calls[c].target) && !HasWork(st, st.calls[c].caller);
  }

  lemma QuiescentHasReturned(st: State, pairs: set<(nat, nat)>, c: nat)
    requires Invariant(st) && Within(st, pairs) && (forall ts :: !IsCycle(ts, |st.threads|, pairs))
    requires c < |st.calls| && forall step: Step :: !step.Marshal? ==> !Enabled(st, step)
    ensures HasReturned(st, c)
  {
    forall t ensures !HasWork(st, t) {
      if HasWork(st, t) {
        var cycle := DeadlockHasCycle(st, pairs);
      }
    }
    IdleHasReturned(st, c);
  }

  /** The calls made so far have all returned. */
  ghost predicate AllReturned(st: State, count: nat) {
    |st.calls| == count && forall c :: 0 <= c < count ==> HasReturned(st, c)
  }

  lemma AllQuiescent(st: State, pairs: set<(nat, nat)>)
    requires Invariant(st) && Within(st, pairs) && (forall ts :: !IsCycle(ts, |st.threads|, pairs))
    requires forall step: Step :: !step.Marshal? ==> !Enabled(st, step)
    ensures AllReturned(st, |st.calls|)
  {
    forall c | 0 <= c < |st.calls| ensures HasReturned(st, c) {
      QuiescentHasReturned(st, pairs, c);
    }
  }

  /** From any state of a run whose calls cannot form a cycle, the work at hand can be finished, so
      that every call made so far has returned. */
  lemma {:induction false} AllCanReturn(n: nat, steps: seq<Step>, pairs: set<(nat, nat)>) returns (more: seq<Step>)
    requires Along(steps, pairs) && forall ts :: !IsCycle(ts, n, pairs)
    ensures forall i :: 0 <= i < |more| ==> !more[i].Marshal?
    ensures AllReturned(Exec(n, steps + more), |Exec(n, steps).calls|)
    decreases AllLeft(Exec(n, steps).calls)
  {
    var st := Exec(n, steps);
    EveryRunKeepsInvariant(n, steps);
    RunsStayWithin(n, steps, pairs);
    if step: Step :| Enabled(st, step) && !step.Marshal? {
      StepLeavesLess(st, step);
      ExecSnoc(n, steps, step);
      var rest := AllCanReturn(n, steps + [step], pairs);
      more := [step] + rest;
      assert steps + [step] + rest == steps + more;
    } else {
      more := [];
      assert steps + more == steps;
      AllQuiescent(st, pairs);
    }
  }

  // ----- Exactly when marshalling deadlocks

  ghost predicate CanDeadlock(n: nat, pairs: set<(nat, nat)>) {
    exists steps: seq<Step> :: Along(steps, pairs) && Deadlocked(Exec(n, steps))
  }

  ghost predicate CanHang(n: nat, pairs: set<(nat, nat)>) {
    exists steps: seq<Step>, c :: Along(steps, pairs) && NeverReturns(n, steps, c)
  }

  ghost predicate HasCycle(n: nat, pairs: set<(nat, nat)>) {
    exists ts :: IsCycle(ts, n, pairs)
  }

  /** A run of `n` threads that marshals only along `pairs` can reach a state where some thread has
      work and none with work can do anything, if and only if the pairs contain a cycle. */
  lemma DeadlockExactlyWithCycle(n: nat, pairs: set<(nat, nat)>)
    ensures CanDeadlock(n, pairs) <==> HasCycle(n, pairs)
  {
    if ts :| IsCycle(ts, n, pairs) {
      RoundBlocks(ts, |ts|, n);
      RoundAlong(ts, |ts|, n, pairs);
      RoundedDeadlocked(Exec(n, Round(ts, |ts|)), ts, n);
    }
    if steps: seq<Step> :| Along(steps, pairs) && Deadlocked(Exec(n, steps)) {
      EveryRunKeepsInvariant(n, steps);
      RunsStayWithin(n, steps, pairs);
      forall step: Step | !step.Marshal? ensures !Enabled(Exec(n, steps), step) {}
      var cycle := DeadlockHasCycle(Exec(n, steps), pairs);
    }
  }

  lemma DeadlockHasCycle(st: State, pairs: set<(nat, nat)>) returns (cycle: seq<nat>)
    requires Invariant(st) && Within(st, pairs) && (exists t :: HasWork(st, t))
    requires forall step: Step :: !step.Marshal? ==> !Enabled(st, step)
    ensures IsCycle(cycle, |st.threads|, pairs)
  {
    var t :| HasWork(st, t);
    cycle := FollowWaits(st, [t], pairs);
  }

  /** Some call can be left that never returns, whatever any thread does from then on, if and only if
      the pairs contain a cycle; without one every call can always still return. */
  lemma HangExactlyWithCycle(n: nat, pairs: set<(nat, nat)>)
    ensures CanHang(n, pairs) <==> HasCycle(n, pairs)
  {
    if ts :| IsCycle(ts, n, pairs) {
      var steps := Round(ts, |ts|);
      RoundBlocks(ts, |ts|, n);
      RoundAlong(ts, |ts|, n, pairs);
      RoundedDeadlocked(Exec(n, steps), ts, n);
      assert Waits(Exec(n, steps), ts, 0);
      FrozenNeverReturns(n, steps, ts, 0);
    } else if steps: seq<Step>, c :| Along(steps, pairs) && NeverReturns(n, steps, c) {
      var more := AllCanReturn(n, steps, pairs);
      assert false;
    }
  }

  /** Two threads that may call each other can deadlock. */
  lemma MutualCallsDeadlock(n: nat, pairs: set<(nat, nat)>, t: nat, u: nat)
    requires t < n && u < n && t != u && (t, u) in pairs && (u, t) in pairs
    ensures CanDeadlock(n, pairs) && CanHang(n, pairs)
  {
    assert IsCycle([t, u], n, pairs);
    DeadlockExactlyWithCycle(n, pairs);
    HangExactlyWithCycle(n, pairs);
  }

  /** Calls to another thread go to a thread of lower rank. */
  ghost predicate Downward(pairs: set<(nat, nat)>, rank: nat -> nat) {
    forall t, u :: (t, u) in pairs && t != u ==> rank(u) < rank(t)
  }

  lemma {:induction false} RankFalls(ts: seq<nat>, n: nat, pairs: set<(nat, nat)>, rank: nat -> nat, k: nat)
    requires Downward(pairs, rank) && IsCycle(ts, n, pairs) && k < |ts|
    ensures rank(ts[k]) + k <= rank(ts[0])
  {
    if k > 0 {
      RankFalls(ts, n, pairs, rank, k - 1);
      assert After(ts, k - 1) == ts[k];
    }
  }

  lemma CycleRises(ts: seq<nat>, n: nat, pairs: set<(nat, nat)>, rank: nat -> nat)
    requires IsCycle(ts, n, pairs)
    ensures !Downward(pairs, rank)
  {
    assert After(ts, |ts| - 1) == ts[0] != ts[|ts| - 1];
    if Downward(pairs, rank) {
      RankFalls(ts, n, pairs, rank, |ts| - 1);
    }
  }

  /** If calls only go to threads of lower rank, marshalling never deadlocks and every call can always
      still return. */
  lemma RankedRunsNeverDeadlock(n: nat, pairs: set<(nat, nat)>, rank: nat -> nat)
    requires Downward(pairs, rank)
    ensures !CanDeadlock(n, pairs) && !CanHang(n, pairs)
  {
    if ts :| IsCycle(ts, n, pairs) {
      CycleRises(ts, n, pairs, rank);
      assert false;
    }
    DeadlockExactlyWithCycle(n, pairs);
    HangExactlyWithCycle(n, pairs);
  }

  // ----- Which thread a proxy method goes to

  datatype ProxyMember = Method | WorkerMethod | SignallingDestructor | WorkerDestructor

  const WORKER := 0
  const SIGNALLING := 1

  function TargetThread(m: ProxyMember): nat {
    match m
    case Method => SIGNALLING
    case WorkerMethod => WORKER
    case SignallingDestructor => SIGNALLING
    case WorkerDestructor => WORKER
  }

  /** Application threads rank above the signalling thread, which ranks above the worker. */
  function ProxyRank(t: nat): nat {
    if t == WORKER then 0 else if t == SIGNALLING then 1 else 2
  }

  /** The calls proxies can make from `n` threads: any member, from any thread. */
  ghost function ProxyPairs(n: nat): set<(nat, nat)> {
    set t: nat, m: ProxyMember | t < n && m in PROXY_MEMBERS :: (t, TargetThread(m))
  }

  const PROXY_MEMBERS := {Method, WorkerMethod, SignallingDestructor, WorkerDestructor}

  /** Application threads above the worker, which ranks above the signalling thread. */
  function WorkerFirstRank(t: nat): nat {
    if t == SIGNALLING then 0 else if t == WORKER then 1 else 2
  }

  /** Whichever proxy calls a program makes, they can deadlock if and only if the worker makes calls to the
      signalling thread and the signalling thread makes calls to the worker. */
  lemma ProxiesDeadlockExactly(n: nat, pairs: set<(nat, nat)>)
    requires pairs <= ProxyPairs(n)
    ensures CanDeadlock(n, pairs) <==> (WORKER, SIGNALLING) in pairs && (SIGNALLING, WORKER) in pairs
    ensures CanHang(n, pairs) <==> (WORKER, SIGNALLING) in pairs && (SIGNALLING, WORKER) in pairs
  {
    if (WORKER, SIGNALLING) !in pairs {
      assert Downward(pairs, ProxyRank);
      RankedRunsNeverDeadlock(n, pairs, ProxyRank);
    } else if (SIGNALLING, WORKER) !in pairs {
      assert Downward(pairs, WorkerFirstRank);
      RankedRunsNeverDeadlock(n, pairs, WorkerFirstRank);
    } else {
      MutualCallsDeadlock(n, pairs, WORKER, SIGNALLING);
    }
  }
}
