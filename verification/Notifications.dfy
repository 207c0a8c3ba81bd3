/**
  What notifying a list of repeating callbacks means, with no cursor and no `iterating_` flag.

  A node is a registered callback; a cancelled one stays, dead, until the outermost notification
  is over.  A pass remembers only the callback it ran last, and whether that one was the last
  node of the list when it started.  Callback bodies are arbitrary scripts of additions,
  cancellations, changes of the removal callback and nested notifications.  A removal callback that
  uses the list again is covered too: it runs last in its operation, so its operations are those
  that follow in the script.
 */
module Notifications {
  import opened Wrappers

  datatype Op = Add | AddUnsafe | Cancel(id: nat) | SetRemoval(isSet: bool) | Notify(runs: Runs)

  datatype Script = Done | Do(op: Op, rest: Script)

  /** What the successive callbacks of one pass do; after `Quiet` they do nothing. */
  datatype Runs = Quiet | Next(body: Script, rest: Runs)

  datatype Node = Node(id: nat, live: bool)

  /** The list, the identity of the next node, the live subscriptions, whether a removal callback is
      set, how often one ran and how many cancellations took effect. */
  datatype State = State(nodes: seq<Node>, next: nat, subs: set<nat>, announce: bool, removals: nat, cancels: nat)

  function Killed(nodes: seq<Node>, id: nat): seq<Node> {
    seq(|nodes|, i requires 0 <= i < |nodes| => if nodes[i].id == id then Node(id, false) else nodes[i])
  }

  function Dropped(nodes: seq<Node>, id: nat): seq<Node> {
    if nodes == [] then []
    else (if nodes[0].id == id then [] else [nodes[0]]) + Dropped(nodes[1..], id)
  }

  /** The live nodes. */
  function Pruned(nodes: seq<Node>): seq<Node> {
    if nodes == [] then []
    else (if nodes[0].live then [nodes[0]] else []) + Pruned(nodes[1..])
  }

  function Dead(nodes: seq<Node>): nat {
    if nodes == [] then 0
    else (if nodes[0].live then 0 else 1) + Dead(nodes[1..])
  }

  /** The earliest live node after `cur`. */
  function First(nodes: seq<Node>, cur: int): Option<nat> {
    if nodes == [] then None
    else if nodes[0].live && cur < nodes[0].id then Some(nodes[0].id)
    else First(nodes[1..], cur)
  }

  predicate IsLast(nodes: seq<Node>, id: nat) {
    nodes != [] && nodes[|nodes| - 1].id == id
  }

  /** One callback of a pass: which it was, and the list just before and just after it ran. */
  datatype Step<S> = Step(id: nat, before: S, after: S)

  datatype Outcome = Outcome(state: State, log: seq<seq<nat>>)

  datatype Pass = Pass(state: State, steps: seq<Step<State>>, log: seq<seq<nat>>)

  function Ids<S>(steps: seq<Step<S>>): seq<nat> {
    seq(|steps|, i requires 0 <= i < |steps| => steps[i].id)
  }

  /** Runs the remaining live nodes with callbacks that do nothing. */
  function Silent(s: State, nodes: seq<Node>, cur: int): seq<Step<State>> {
    if nodes == [] then []
    else (if nodes[0].live && cur < nodes[0].id then [Step(nodes[0].id, s, s)] else []) + Silent(s, nodes[1..], cur)
  }

  function Run(script: Script, s: State, nested: bool): Outcome
    decreases script
  {
    match script
    case Done => Outcome(s, [])
    case Do(op, rest) =>
      var first := RunOp(op, s, nested);
      var others := Run(rest, first.state, nested);
      Outcome(others.state, first.log + others.log)
  }

  /** One operation, `nested` inside a notification or not. */
  function RunOp(op: Op, s: State, nested: bool): Outcome
    decreases op
  {
    match op
    case Add => Outcome(s.(nodes := s.nodes + [Node(s.next, true)], next := s.next + 1, subs := s.subs + {s.next}), [])
    case AddUnsafe => Outcome(s.(nodes := s.nodes + [Node(s.next, true)], next := s.next + 1), [])
    case Cancel(id) =>
      if id !in s.subs then Outcome(s, [])
      else if nested then
        Outcome(s.(nodes := Killed(s.nodes, id), subs := s.subs - {id}, cancels := s.cancels + 1), [])
      else
        Outcome(Announced(s.(nodes := Dropped(s.nodes, id), subs := s.subs - {id}, cancels := s.cancels + 1), true), [])
    case SetRemoval(isSet) => Outcome(s.(announce := isSet), [])
    case Notify(runs) =>
      if First(s.nodes, -1).None? then Outcome(s, [])
      else
        var p := Walk(runs, s, -1);
        var log := p.log + [Ids(p.steps)];
        if nested then Outcome(p.state, log)
        else Outcome(Announced(p.state.(nodes := Pruned(p.state.nodes)), Dead(p.state.nodes) > 0), log)
  }

  /** Runs the removal callback, if one is set and something was `removed`. */
  function Announced(s: State, removed: bool): State {
    if s.announce && removed then s.(removals := s.removals + 1) else s
  }

  function Walk(runs: Runs, s: State, cur: int): Pass
    decreases runs
  {
    match First(s.nodes, cur)
    case None => Pass(s, [], [])
    case Some(id) =>
      match runs
      case Quiet => Pass(s, Silent(s, s.nodes, cur), [])
      case Next(body, rest) =>
        var ran := Run(body, s, true);
        var p := if IsLast(s.nodes, id) then Pass(ran.state, [], []) else Walk(rest, ran.state, id);
        Pass(p.state, [Step(id, s, ran.state)] + p.steps, ran.log + p.log)
  }

  // ----- The list while a notification is running

  ghost predicate Sorted(nodes: seq<Node>) {
    forall i, j :: 0 <= i < j < |nodes| ==> nodes[i].id < nodes[j].id
  }

  ghost predicate AllLive(nodes: seq<Node>) {
    forall i :: 0 <= i < |nodes| ==> nodes[i].live
  }

  ghost predicate WellFormed(s: State) {
    && Sorted(s.nodes)
    && (forall i :: 0 <= i < |s.nodes| ==> s.nodes[i].id < s.next)
    && (forall id :: id in s.subs ==> Node(id, true) in s.nodes)
  }

  /** No node leaves, none comes back to life, and new nodes, from `next` on, go to the end. */
  ghost predicate Grew(nodes: seq<Node>, next: nat, nodes': seq<Node>) {
    && |nodes| <= |nodes'|
    && (forall i :: 0 <= i < |nodes| ==> nodes'[i].id == nodes[i].id && (nodes'[i].live ==> nodes[i].live))
    && (forall i :: |nodes| <= i < |nodes'| ==> next <= nodes'[i].id)
  }

  ghost predicate Extends(s: State, t: State) {
    Grew(s.nodes, s.next, t.nodes) && s.next <= t.next
  }

  /** Inside a notification every operation keeps all nodes where they are, never runs the removal
      callback, and leaves exactly one more dead node per cancellation. */
  ghost predicate Deferred(s: State, t: State) {
    && WellFormed(t) && Extends(s, t) && t.removals == s.removals
    && t.cancels - s.cancels == Dead(t.nodes) - Dead(s.nodes)
  }

  lemma {:induction false} DeadAppend(nodes: seq<Node>, n: Node)
    ensures Dead(nodes + [n]) == Dead(nodes) + (if n.live then 0 else 1)
  {
    if nodes != [] {
      DeadAppend(nodes[1..], n);
      assert (nodes + [n])[1..] == nodes[1..] + [n];
    }
  }

  lemma {:induction false} KilledNone(nodes: seq<Node>, id: nat)
    requires forall i :: 0 <= i < |nodes| ==> nodes[i].id != id
    ensures Killed(nodes, id) == nodes
  {}

  lemma {:induction false} DeadKilled(nodes: seq<Node>, id: nat)
    requires Sorted(nodes) && Node(id, true) in nodes
    ensures Dead(Killed(nodes, id)) == Dead(nodes) + 1
  {
    assert Killed(nodes, id)[1..] == Killed(nodes[1..], id);
    if nodes[0].id == id {
      KilledNone(nodes[1..], id);
    } else {
      DeadKilled(nodes[1..], id);
    }
  }

  lemma {:induction false} RunDeferred(script: Script, s: State)
    requires WellFormed(s)
    ensures Deferred(s, Run(script, s, true).state)
    decreases script
  {
    match script
    case Done =>
    case Do(op, rest) =>
      RunOpDeferred(op, s);
      RunDeferred(rest, RunOp(op, s, true).state);
  }

  lemma {:induction false} RunOpDeferred(op: Op, s: State)
    requires WellFormed(s)
    ensures Deferred(s, RunOp(op, s, true).state)
    decreases op
  {
    match op
    case Add => AddDeferred(s, true);
    case AddUnsafe => AddDeferred(s, false);
    case Cancel(id) =>
      if id in s.subs {
        CancelDeferred(s, id);
      }
    case SetRemoval(_) =>
    case Notify(runs) =>
      if First(s.nodes, -1).Some? {
        WalkDeferred(runs, s, -1);
      }
  }

  lemma AddDeferred(s: State, subscribe: bool)
    requires WellFormed(s)
    ensures Deferred(s, RunOp(if subscribe then Add else AddUnsafe, s, true).state)
  {
    DeadAppend(s.nodes, Node(s.next, true));
    var t := s.nodes + [Node(s.next, true)];
    forall id | id in s.subs ensures Node(id, true) in t {
      var i :| 0 <= i < |s.nodes| && s.nodes[i] == Node(id, true);
      assert t[i] == Node(id, true);
    }
    assert t[|s.nodes|] == Node(s.next, true);
  }

  lemma CancelDeferred(s: State, id: nat)
    requires WellFormed(s) && id in s.subs
    ensures Deferred(s, RunOp(Cancel(id), s, true).state)
  {
    DeadKilled(s.nodes, id);
    KilledShape(s.nodes, id, s.next);
    forall k | k in s.subs && k != id ensures Node(k, true) in Killed(s.nodes, id) {
      KilledOther(s.nodes, id, Node(k, true));
    }
  }

  lemma KilledShape(nodes: seq<Node>, id: nat, next: nat)
    requires Sorted(nodes)
    ensures Sorted(Killed(nodes, id)) && Grew(nodes, next, Killed(nodes, id))
  {}

  lemma KilledOther(nodes: seq<Node>, id: nat, n: Node)
    requires n in nodes && n.id != id
    ensures n in Killed(nodes, id)
  {
    var i :| 0 <= i < |nodes| && nodes[i] == n;
    assert Killed(nodes, id)[i] == n;
  }

  lemma {:induction false} WalkDeferred(runs: Runs, s: State, cur: int)
    requires WellFormed(s)
    ensures Deferred(s, Walk(runs, s, cur).state)
    decreases runs
  {
    var f := First(s.nodes, cur);
    if f.Some? && runs.Next? {
      RunDeferred(runs.body, s);
      if !IsLast(s.nodes, f.value) {
        WalkDeferred(runs.rest, Run(runs.body, s, true).state, f.value);
      }
    }
  }

  // ----- The list between notifications

  ghost predicate Clean(s: State) {
    WellFormed(s) && AllLive(s.nodes)
  }

  lemma {:induction false} PrunedMember(nodes: seq<Node>, n: Node)
    ensures n in Pruned(nodes) <==> n in nodes && n.live
  {
    if nodes != [] {
      PrunedMember(nodes[1..], n);
      assert nodes == [nodes[0]] + nodes[1..];
    }
  }

  lemma {:induction false} PrunedSorted(nodes: seq<Node>)
    requires Sorted(nodes)
    ensures Sorted(Pruned(nodes)) && AllLive(Pruned(nodes))
  {
    if nodes != [] {
      PrunedSorted(nodes[1..]);
      var rest := Pruned(nodes[1..]);
      forall i | 0 <= i < |rest| ensures nodes[0].id < rest[i].id {
        PrunedMember(nodes[1..], rest[i]);
      }
    }
  }

  lemma PrunedClean(s: State)
    requires WellFormed(s)
    ensures Clean(s.(nodes := Pruned(s.nodes)))
  {
    PrunedSorted(s.nodes);
    forall n ensures n in Pruned(s.nodes) <==> n in s.nodes && n.live {
      PrunedMember(s.nodes, n);
    }
  }

  lemma {:induction false} DroppedMember(nodes: seq<Node>, id: nat, n: Node)
    ensures n in Dropped(nodes, id) <==> n in nodes && n.id != id
  {
    if nodes != [] {
      DroppedMember(nodes[1..], id, n);
      assert nodes == [nodes[0]] + nodes[1..];
    }
  }

  lemma {:induction false} DroppedSorted(nodes: seq<Node>, id: nat)
    requires Sorted(nodes)
    ensures Sorted(Dropped(nodes, id))
  {
    if nodes != [] {
      DroppedSorted(nodes[1..], id);
      var rest := Dropped(nodes[1..], id);
      forall i | 0 <= i < |rest| ensures nodes[0].id < rest[i].id {
        DroppedMember(nodes[1..], id, rest[i]);
      }
    }
  }

  lemma DroppedClean(s: State, id: nat)
    requires Clean(s)
    ensures Clean(s.(nodes := Dropped(s.nodes, id), subs := s.subs - {id}))
  {
    DroppedSorted(s.nodes, id);
    forall n ensures n in Dropped(s.nodes, id) <==> n in s.nodes && n.id != id {
      DroppedMember(s.nodes, id, n);
    }
  }

  lemma CancelKeeps(s: State, id: nat, nested: bool)
    requires WellFormed(s) && (!nested ==> AllLive(s.nodes)) && id in s.subs
    ensures WellFormed(RunOp(Cancel(id), s, nested).state)
    ensures !nested ==> AllLive(RunOp(Cancel(id), s, nested).state.nodes)
  {
    if nested {
      CancelDeferred(s, id);
    } else {
      DroppedClean(s, id);
    }
  }

  /** Outside every notification no dead node remains, whatever operations ran, and every live
      subscription is for a live node. */
  lemma {:induction false} RunClean(script: Script, s: State)
    requires Clean(s)
    ensures Clean(Run(script, s, false).state)
    decreases script
  {
    match script
    case Done =>
    case Do(op, rest) =>
      RunOpClean(op, s);
      RunClean(rest, RunOp(op, s, false).state);
  }

  lemma RunOpClean(op: Op, s: State)
    requires Clean(s)
    ensures Clean(RunOp(op, s, false).state)
  {
    match op
    case Add => AddClean(s, true);
    case AddUnsafe => AddClean(s, false);
    case Cancel(id) => DroppedClean(s, id);
    case SetRemoval(_) =>
    case Notify(runs) => NotifyClean(runs, s);
  }

  lemma AddClean(s: State, subscribe: bool)
    requires Clean(s)
    ensures Clean(RunOp(if subscribe then Add else AddUnsafe, s, false).state)
  {
    AddDeferred(s, subscribe);
  }

  lemma NotifyClean(runs: Runs, s: State)
    requires Clean(s)
    ensures Clean(RunOp(Notify(runs), s, false).state)
  {
    WalkDeferred(runs, s, -1);
    PrunedClean(Walk(runs, s, -1).state);
  }

  // ----- The removal callback

  /** How often a removal callback is owed: once per cancellation outside a notification and once per
      outermost notification in which something was cancelled, if one is set by then. */
  function OwedOp(op: Op, s: State): nat {
    var t := RunOp(op, s, false).state;
    if t.announce && t.cancels > s.cancels then 1 else 0
  }

  function Owed(script: Script, s: State): nat {
    match script
    case Done => 0
    case Do(op, rest) => OwedOp(op, s) + Owed(rest, RunOp(op, s, false).state)
  }

  lemma {:induction false} LiveNotDead(nodes: seq<Node>)
    requires AllLive(nodes)
    ensures Dead(nodes) == 0
  {
    if nodes != [] {
      LiveNotDead(nodes[1..]);
    }
  }

  /** A removal callback runs exactly as often as it is owed. */
  lemma {:induction false} RemovalRunsWhenOwed(script: Script, s: State)
    requires Clean(s)
    ensures Run(script, s, false).state.removals == s.removals + Owed(script, s)
    decreases script
  {
    match script
    case Done =>
    case Do(op, rest) =>
      RunOpClean(op, s);
      RemovalRunsWhenOwed(rest, RunOp(op, s, false).state);
      if op.Notify? {
        WalkDeferred(op.runs, s, -1);
        LiveNotDead(s.nodes);
      }
  }

  // ----- What one pass runs

  lemma {:induction false} FirstIsEarliest(nodes: seq<Node>, cur: int)
    requires Sorted(nodes)
    ensures First(nodes, cur).None? ==> forall n :: n in nodes && n.live ==> n.id <= cur
    ensures First(nodes, cur).Some? ==>
              && Node(First(nodes, cur).value, true) in nodes && cur < First(nodes, cur).value
              && forall n :: n in nodes && n.live && cur < n.id ==> First(nodes, cur).value <= n.id
  {
    if nodes != [] {
      assert nodes == [nodes[0]] + nodes[1..];
      FirstIsEarliest(nodes[1..], cur);
    }
  }

  ghost predicate InOrder<S>(steps: seq<Step<S>>, cur: int) {
    && (forall i :: 0 <= i < |steps| ==> cur < steps[i].id)
    && (forall i, j :: 0 <= i < j < |steps| ==> steps[i].id < steps[j].id)
  }

  /** Every callback that runs is live when its turn comes. */
  ghost predicate EachLive(steps: seq<Step<State>>) {
    forall i :: 0 <= i < |steps| ==> Node(steps[i].id, true) in steps[i].before.nodes
  }

  lemma {:induction false} SilentSteps(s: State, nodes: seq<Node>, cur: int)
    requires Sorted(nodes) && forall n :: n in nodes ==> n in s.nodes
    ensures InOrder(Silent(s, nodes, cur), cur) && EachLive(Silent(s, nodes, cur))
    ensures forall i :: 0 <= i < |Silent(s, nodes, cur)| ==>
              Silent(s, nodes, cur)[i].before == s && Node(Silent(s, nodes, cur)[i].id, true) in nodes
  {
    if nodes != [] {
      assert nodes == [nodes[0]] + nodes[1..];
      SilentSteps(s, nodes[1..], cur);
    }
  }

  /** Callbacks run in list order, each at most once and each live at its turn. */
  lemma {:induction false} PassInOrder(runs: Runs, s: State, cur: int)
    requires WellFormed(s)
    ensures InOrder(Walk(runs, s, cur).steps, cur)
    ensures EachLive(Walk(runs, s, cur).steps)
    decreases runs
  {
    FirstIsEarliest(s.nodes, cur);
    var f := First(s.nodes, cur);
    if f.Some? {
      if runs.Quiet? {
        SilentSteps(s, s.nodes, cur);
      } else {
        RunDeferred(runs.body, s);
        var t := Run(runs.body, s, true).state;
        if IsLast(s.nodes, f.value) {
          FirstInOrder(Step(f.value, s, t), [], cur);
        } else {
          PassInOrder(runs.rest, t, f.value);
          FirstInOrder(Step(f.value, s, t), Walk(runs.rest, t, f.value).steps, cur);
        }
      }
    }
  }

  lemma FirstInOrder(step: Step<State>, rest: seq<Step<State>>, cur: int)
    requires cur < step.id && Node(step.id, true) in step.before.nodes && InOrder(rest, step.id) && EachLive(rest)
    ensures InOrder([step] + rest, cur) && EachLive([step] + rest)
  {}

  ghost predicate Ran<S>(steps: seq<Step<S>>, id: nat) {
    exists i :: 0 <= i < |steps| && steps[i].id == id
  }

  ghost predicate Present(nodes: seq<Node>, id: nat) {
    exists i :: 0 <= i < |nodes| && nodes[i].id == id
  }

  /** The list at the moment the pass comes to `id`. */
  function AtTurn<S>(steps: seq<Step<S>>, last: S, id: nat): S {
    if steps == [] then last
    else if id <= steps[0].id then steps[0].before
    else AtTurn(steps[1..], last, id)
  }

  lemma {:induction false} SilentRan(s: State, nodes: seq<Node>, cur: int, id: nat)
    requires Sorted(nodes) && cur < id
    ensures Ran(Silent(s, nodes, cur), id) <==> Node(id, true) in nodes
  {
    if nodes != [] {
      assert nodes == [nodes[0]] + nodes[1..];
      SilentRan(s, nodes[1..], cur, id);
      var head := if nodes[0].live && cur < nodes[0].id then [Step(nodes[0].id, s, s)] else [];
      RanConcat(head, Silent(s, nodes[1..], cur), id);
    }
  }

  lemma RanConcat<S>(a: seq<Step<S>>, b: seq<Step<S>>, id: nat)
    ensures Ran(a + b, id) <==> Ran(a, id) || Ran(b, id)
  {
    if Ran(a, id) {
      var i :| 0 <= i < |a| && a[i].id == id;
      assert (a + b)[i].id == id;
    }
    if Ran(b, id) {
      var i :| 0 <= i < |b| && b[i].id == id;
      assert (a + b)[|a| + i].id == id;
    }
  }

  lemma {:induction false} ConstantAtTurn(steps: seq<Step<State>>, s: State, id: nat)
    requires forall i :: 0 <= i < |steps| ==> steps[i].before == s
    ensures AtTurn(steps, s, id) == s
  {
    if steps != [] {
      ConstantAtTurn(steps[1..], s, id);
    }
  }

  lemma PresentStays(s: State, t: State, id: nat)
    requires Extends(s, t) && Present(s.nodes, id)
    ensures Present(t.nodes, id)
  {
    var i :| 0 <= i < |s.nodes| && s.nodes[i].id == id;
    assert t.nodes[i].id == id;
  }

  ghost predicate RanIffLive(p: Pass, id: nat) {
    Ran(p.steps, id) <==> Node(id, true) in AtTurn(p.steps, p.state, id).nodes
  }

  lemma QuietRunsLive(s: State, cur: int, id: nat)
    requires WellFormed(s) && cur < id && First(s.nodes, cur).Some?
    ensures RanIffLive(Walk(Quiet, s, cur), id)
  {
    SilentRan(s, s.nodes, cur, id);
    SilentBefore(s, s.nodes, cur);
    ConstantAtTurn(Silent(s, s.nodes, cur), s, id);
  }

  lemma RanIffLiveStep(step: Step<State>, rest: Pass, log: seq<seq<nat>>, id: nat)
    requires step.id < id && RanIffLive(rest, id)
    ensures RanIffLive(Pass(rest.state, [step] + rest.steps, log), id)
  {
    RanConcat([step], rest.steps, id);
    assert ([step] + rest.steps)[1..] == rest.steps;
  }

  /** A callback registered when the pass starts runs in it if and only if it has not been cancelled
      when its turn comes. */
  lemma {:induction false} RunsExactlyWhenLiveAtTurn(runs: Runs, s: State, cur: int, id: nat)
    requires WellFormed(s) && Present(s.nodes, id) && cur < id
    ensures RanIffLive(Walk(runs, s, cur), id)
    decreases runs
  {
    FirstIsEarliest(s.nodes, cur);
    var f := First(s.nodes, cur);
    if f.Some? {
      if runs.Quiet? {
        QuietRunsLive(s, cur, id);
      } else if id <= f.value {
        FirstRunsOrDead(runs, s, cur, id);
      } else {
        var ran := Run(runs.body, s, true);
        RunDeferred(runs.body, s);
        PresentAfterLast(s.nodes, f.value, id);
        PresentStays(s, ran.state, id);
        RunsExactlyWhenLiveAtTurn(runs.rest, ran.state, f.value, id);
        var rest := Walk(runs.rest, ran.state, f.value);
        RanIffLiveStep(Step(f.value, s, ran.state), rest, ran.log + rest.log, id);
      }
    }
  }

  lemma FirstRunsOrDead(runs: Runs, s: State, cur: int, id: nat)
    requires WellFormed(s) && cur < id && runs.Next?
    requires First(s.nodes, cur).Some? && id <= First(s.nodes, cur).value
    ensures RanIffLive(Walk(runs, s, cur), id)
  {
    FirstIsEarliest(s.nodes, cur);
    LaterStepsBeyond(runs, s, cur, id);
    var steps := Walk(runs, s, cur).steps;
    RanConcat(steps[..1], steps[1..], id);
    assert steps == steps[..1] + steps[1..] && steps[..1][0] == steps[0];
  }

  lemma PresentAfterLast(nodes: seq<Node>, last: nat, id: nat)
    requires Sorted(nodes) && Present(nodes, id) && last < id
    ensures !IsLast(nodes, last)
  {}

  lemma LaterStepsBeyond(runs: Runs, s: State, cur: int, id: nat)
    requires WellFormed(s) && Walk(runs, s, cur).steps != []
    requires id <= Walk(runs, s, cur).steps[0].id
    ensures !Ran(Walk(runs, s, cur).steps[1..], id)
  {
    PassInOrder(runs, s, cur);
    OrderedBeyond(Walk(runs, s, cur).steps, cur, id);
  }

  lemma OrderedBeyond<S>(steps: seq<Step<S>>, cur: int, id: nat)
    requires InOrder(steps, cur) && steps != [] && id <= steps[0].id
    ensures !Ran(steps[1..], id)
  {
    assert forall i :: 0 <= i < |steps[1..]| ==> steps[1..][i] == steps[i + 1];
  }

  ghost predicate History(s: State, steps: seq<Step<State>>, last: State) {
    forall i :: 0 <= i < |steps| ==>
      Extends(s, steps[i].before) && Extends(steps[i].before, last)
  }

  lemma {:induction false} PassHistory(runs: Runs, s: State, cur: int)
    requires WellFormed(s)
    ensures History(s, Walk(runs, s, cur).steps, Walk(runs, s, cur).state)
    decreases runs
  {
    var f := First(s.nodes, cur);
    if f.Some? {
      if runs.Quiet? {
        SilentBefore(s, s.nodes, cur);
      } else {
        RunDeferred(runs.body, s);
        var t := Run(runs.body, s, true).state;
        if IsLast(s.nodes, f.value) {
          HistoryStep(s, Step(f.value, s, t), [], t);
        } else {
          PassHistory(runs.rest, t, f.value);
          WalkDeferred(runs.rest, t, f.value);
          HistoryStep(s, Step(f.value, s, t), Walk(runs.rest, t, f.value).steps, Walk(runs.rest, t, f.value).state);
        }
      }
    }
  }

  lemma ExtendsTransitive(s: State, t: State, u: State)
    requires Extends(s, t) && Extends(t, u)
    ensures Extends(s, u)
  {}

  lemma HistoryStep(s: State, step: Step<State>, rest: seq<Step<State>>, last: State)
    requires step.before == s && Extends(s, step.after) && Extends(step.after, last) && History(step.after, rest, last)
    ensures History(s, [step] + rest, last)
  {
    ExtendsTransitive(s, step.after, last);
    forall i | 0 <= i < |rest| ensures Extends(s, rest[i].before) {
      ExtendsTransitive(s, step.after, rest[i].before);
    }
  }

  lemma {:induction false} SilentBefore(s: State, nodes: seq<Node>, cur: int)
    ensures forall i :: 0 <= i < |Silent(s, nodes, cur)| ==>
              Silent(s, nodes, cur)[i].before == s && Silent(s, nodes, cur)[i].after == s
  {
    if nodes != [] {
      SilentBefore(s, nodes[1..], cur);
    }
  }

  /** A node that is live later and was there before was live before. */
  lemma LiveBefore(s: State, t: State, id: nat)
    requires Extends(s, t) && WellFormed(t) && Present(s.nodes, id) && Node(id, true) in t.nodes
    ensures Node(id, true) in s.nodes
  {
    var i :| 0 <= i < |s.nodes| && s.nodes[i].id == id;
    assert t.nodes[i].id == id;
    assert s.nodes[i] == Node(id, true);
  }

  lemma {:induction false} KeptIsLiveAtTurn(s: State, steps: seq<Step<State>>, last: State, id: nat)
    requires History(s, steps, last) && WellFormed(last)
    requires Present(s.nodes, id) && Node(id, true) in last.nodes
    ensures Node(id, true) in AtTurn(steps, last, id).nodes
  {
    if steps != [] {
      if id <= steps[0].id {
        PresentStays(s, steps[0].before, id);
        LiveBefore(steps[0].before, last, id);
      } else {
        KeptIsLiveAtTurn(s, steps[1..], last, id);
      }
    }
  }

  /** A callback registered throughout the pass runs in it. */
  lemma KeptRuns(runs: Runs, s: State, cur: int, id: nat)
    requires WellFormed(s) && Present(s.nodes, id) && cur < id
    requires Node(id, true) in Walk(runs, s, cur).state.nodes
    ensures Ran(Walk(runs, s, cur).steps, id)
  {
    WalkDeferred(runs, s, cur);
    PassHistory(runs, s, cur);
    KeptIsLiveAtTurn(s, Walk(runs, s, cur).steps, Walk(runs, s, cur).state, id);
    RunsExactlyWhenLiveAtTurn(runs, s, cur, id);
  }

  lemma {:induction false} AtTurnExtends(s: State, steps: seq<Step<State>>, last: State, id: nat)
    requires History(s, steps, last) && Extends(s, last)
    ensures Extends(s, AtTurn(steps, last, id))
  {
    if steps != [] && steps[0].id < id {
      AtTurnExtends(s, steps[1..], last, id);
    }
  }

  lemma RanWasPresent(runs: Runs, s: State, cur: int, id: nat)
    requires WellFormed(s) && id < s.next && Ran(Walk(runs, s, cur).steps, id)
    ensures Present(s.nodes, id)
  {
    PassInOrder(runs, s, cur);
    PassHistory(runs, s, cur);
    var steps := Walk(runs, s, cur).steps;
    var i :| 0 <= i < |steps| && steps[i].id == id;
    PresentOnceAdded(s, steps[i].before, id);
  }

  lemma LiveAtTurnWasPresent(runs: Runs, s: State, cur: int, id: nat)
    requires WellFormed(s) && id < s.next
    requires Node(id, true) in AtTurn(Walk(runs, s, cur).steps, Walk(runs, s, cur).state, id).nodes
    ensures Present(s.nodes, id)
  {
    PassHistory(runs, s, cur);
    WalkDeferred(runs, s, cur);
    var p := Walk(runs, s, cur);
    AtTurnExtends(s, p.steps, p.state, id);
    PresentOnceAdded(s, AtTurn(p.steps, p.state, id), id);
  }

  /** The same for any callback created before the pass, registered or not. */
  lemma CreatedRunsExactlyWhenLiveAtTurn(runs: Runs, s: State, cur: int, id: nat)
    requires WellFormed(s) && cur < id < s.next
    ensures RanIffLive(Walk(runs, s, cur), id)
  {
    var p := Walk(runs, s, cur);
    if Present(s.nodes, id) {
      RunsExactlyWhenLiveAtTurn(runs, s, cur, id);
    } else if Ran(p.steps, id) {
      RanWasPresent(runs, s, cur, id);
    } else if Node(id, true) in AtTurn(p.steps, p.state, id).nodes {
      LiveAtTurnWasPresent(runs, s, cur, id);
    }
  }

  ghost predicate AddedDuring(p: Pass, k: nat, id: nat) {
    k < |p.steps| && p.steps[k].before.next <= id < p.steps[k].after.next
  }

  ghost predicate RanIffReached(p: Pass, k: nat, id: nat)
    requires k < |p.steps|
  {
    Ran(p.steps, id) <==>
    !IsLast(p.steps[k].before.nodes, p.steps[k].id) && Node(id, true) in AtTurn(p.steps, p.state, id).nodes
  }

  lemma RanIffReachedStep(step: Step<State>, rest: Pass, log: seq<seq<nat>>, k: nat, id: nat)
    requires step.id < id && k < |rest.steps| && RanIffReached(rest, k, id)
    ensures RanIffReached(Pass(rest.state, [step] + rest.steps, log), k + 1, id)
  {
    RanConcat([step], rest.steps, id);
    assert ([step] + rest.steps)[1..] == rest.steps;
  }

  /** A callback added while callback `k` of the pass ran runs in the same pass if and only if it is
      still registered when its turn comes and `k` was not the last node when it started, so that
      the cursor, already past `k`, had not reached the end. */
  lemma {:induction false} AddedRunsUnlessCursorAtEnd(runs: Runs, s: State, cur: int, k: nat, id: nat)
    requires WellFormed(s) && AddedDuring(Walk(runs, s, cur), k, id)
    ensures RanIffReached(Walk(runs, s, cur), k, id)
    decreases runs
  {
    AddedIsBeyond(runs, s, cur, k, id);
    if runs.Next? {
      var f := First(s.nodes, cur).value;
      var ran := Run(runs.body, s, true);
      RunDeferred(runs.body, s);
      if !IsLast(s.nodes, f) {
        var rest := Walk(runs.rest, ran.state, f);
        var step := Step(f, s, ran.state);
        if k == 0 {
          CreatedRunsExactlyWhenLiveAtTurn(runs.rest, ran.state, f, id);
          RanIffLiveStep(step, rest, ran.log + rest.log, id);
        } else {
          AddedLater(step, rest, ran.log + rest.log, k, id);
          AddedRunsUnlessCursorAtEnd(runs.rest, ran.state, f, k - 1, id);
          RanIffReachedStep(step, rest, ran.log + rest.log, k - 1, id);
        }
      }
    }
  }

  lemma AddedLater(step: Step<State>, rest: Pass, log: seq<seq<nat>>, k: nat, id: nat)
    requires k > 0 && AddedDuring(Pass(rest.state, [step] + rest.steps, log), k, id)
    ensures AddedDuring(rest, k - 1, id)
  {}

  lemma AddedIsBeyond(runs: Runs, s: State, cur: int, k: nat, id: nat)
    requires WellFormed(s) && AddedDuring(Walk(runs, s, cur), k, id)
    ensures runs.Next? && First(s.nodes, cur).Some? && First(s.nodes, cur).value < s.next <= id
  {
    FirstIsEarliest(s.nodes, cur);
    PassHistory(runs, s, cur);
    SilentBefore(s, s.nodes, cur);
  }

  lemma PresentOnceAdded(t: State, last: State, id: nat)
    requires Extends(t, last) && Node(id, true) in last.nodes && id < t.next
    ensures Present(t.nodes, id)
  {
    var i :| 0 <= i < |last.nodes| && last.nodes[i] == Node(id, true);
    assert t.nodes[i].id == id;
  }

  // ----- Facts about a cursor walking the list

  lemma FirstIs(nodes: seq<Node>, cur: int, id: nat)
    requires Sorted(nodes) && Node(id, true) in nodes && cur < id
    requires forall n :: n in nodes && n.live && cur < n.id ==> id <= n.id
    ensures First(nodes, cur) == Some(id)
  {
    FirstIsEarliest(nodes, cur);
  }

  lemma FirstNone(nodes: seq<Node>, cur: int)
    requires Sorted(nodes) && forall n :: n in nodes && n.live ==> n.id <= cur
    ensures First(nodes, cur) == None
  {
    FirstIsEarliest(nodes, cur);
  }

  lemma {:induction false} SilentNone(s: State, nodes: seq<Node>, cur: int)
    requires First(nodes, cur).None?
    ensures Silent(s, nodes, cur) == []
  {
    if nodes != [] {
      SilentNone(s, nodes[1..], cur);
    }
  }

  lemma {:induction false} SilentUnroll(s: State, nodes: seq<Node>, cur: int)
    requires Sorted(nodes) && First(nodes, cur).Some?
    ensures Silent(s, nodes, cur) == [Step(First(nodes, cur).value, s, s)] + Silent(s, nodes, First(nodes, cur).value)
  {
    var id := First(nodes, cur).value;
    if nodes[0].live && cur < nodes[0].id {
      SilentSame(s, nodes[1..], cur, id);
    } else {
      SilentUnroll(s, nodes[1..], cur);
      FirstIsEarliest(nodes[1..], cur);
    }
  }

  lemma {:induction false} SilentSame(s: State, nodes: seq<Node>, cur: int, id: int)
    requires forall i :: 0 <= i < |nodes| ==> cur < nodes[i].id && id < nodes[i].id
    ensures Silent(s, nodes, cur) == Silent(s, nodes, id)
  {
    if nodes != [] {
      SilentSame(s, nodes[1..], cur, id);
    }
  }

  lemma {:induction false} PrunedLength(nodes: seq<Node>)
    ensures |nodes| - |Pruned(nodes)| == Dead(nodes)
  {
    if nodes != [] {
      PrunedLength(nodes[1..]);
    }
  }

  // ----- What each operation does to the list

  /** Adding puts one live callback, the latest, behind all others, subscribed or not, and changes none. */
  lemma AddsExactly(s: State, subscribe: bool, nested: bool)
    ensures var t := RunOp(if subscribe then Add else AddUnsafe, s, nested).state;
            && |t.nodes| == |s.nodes| + 1 && t.nodes[..|s.nodes|] == s.nodes && t.nodes[|s.nodes|] == Node(s.next, true)
            && t.next == s.next + 1 && t.cancels == s.cancels && t.removals == s.removals && t.announce == s.announce
            && (forall id :: id in t.subs <==> id in s.subs || (subscribe && id == s.next))
  {}

  lemma KilledMember(nodes: seq<Node>, id: nat, n: Node)
    ensures n in Killed(nodes, id) <==>
            if n.id == id then !n.live && Present(nodes, id) else n in nodes
  {
    if n in Killed(nodes, id) {
      var i :| 0 <= i < |nodes| && Killed(nodes, id)[i] == n;
      assert nodes[i].id == n.id;
    }
    if n in nodes && n.id != id {
      KilledOther(nodes, id, n);
    }
    if n == Node(id, false) && Present(nodes, id) {
      var i :| 0 <= i < |nodes| && nodes[i].id == id;
      assert Killed(nodes, id)[i] == n;
    }
  }

  /** Cancelling a subscribed callback makes it dead, or takes it out when no notification runs, ends its
      subscription and counts as one cancellation; every other node and subscription stays. */
  lemma CancelsExactly(s: State, id: nat, nested: bool, n: Node)
    requires id in s.subs
    ensures var t := RunOp(Cancel(id), s, nested).state;
            && t.subs == s.subs - {id} && t.cancels == s.cancels + 1 && t.next == s.next && t.announce == s.announce
            && Node(id, true) !in t.nodes && (n.id != id ==> (n in t.nodes <==> n in s.nodes))
            && (nested ==> (Present(t.nodes, id) <==> Present(s.nodes, id)) && t.removals == s.removals)
            && (!nested ==> !Present(t.nodes, id) && t.removals == s.removals + if s.announce then 1 else 0)
  {
    var t := RunOp(Cancel(id), s, nested).state;
    KilledMember(s.nodes, id, n);
    KilledMember(s.nodes, id, Node(id, true));
    DroppedMember(s.nodes, id, n);
    forall m ensures m in Dropped(s.nodes, id) <==> m in s.nodes && m.id != id {
      DroppedMember(s.nodes, id, m);
    }
    if nested && Present(s.nodes, id) {
      var i :| 0 <= i < |s.nodes| && s.nodes[i].id == id;
      assert t.nodes[i].id == id;
    }
    if Present(t.nodes, id) {
      var i :| 0 <= i < |t.nodes| && t.nodes[i].id == id;
      assert t.nodes[i] in t.nodes && (nested ==> s.nodes[i].id == id);
    }
  }

  /** A cancellation without a subscription, and setting the removal callback, leave the list alone. */
  lemma OthersLeaveListAlone(s: State, id: nat, isSet: bool, nested: bool)
    ensures id !in s.subs ==> RunOp(Cancel(id), s, nested).state == s
    ensures var t := RunOp(SetRemoval(isSet), s, nested).state; t.announce == isSet && t.(announce := s.announce) == s
  {}

  // ----- What a whole run does, as sets of callbacks and nothing else

  /** The next identity, the live callbacks, the subscribed ones, whether a removal callback is set, and how
      many cancellations there were. */
  datatype Ledger = Ledger(next: nat, live: set<nat>, subs: set<nat>, announce: bool, cancels: nat)

  ghost function LiveIds(nodes: seq<Node>): set<nat> {
    set n | n in nodes && n.live :: n.id
  }

  ghost function LedgerOf(s: State): Ledger {
    Ledger(s.next, LiveIds(s.nodes), s.subs, s.announce, s.cancels)
  }

  function Entered(op: Op, l: Ledger): Ledger {
    match op
    case Add => l.(next := l.next + 1, live := l.live + {l.next}, subs := l.subs + {l.next})
    case AddUnsafe => l.(next := l.next + 1, live := l.live + {l.next})
    case Cancel(id) =>
      if id in l.subs then l.(live := l.live - {id}, subs := l.subs - {id}, cancels := l.cancels + 1) else l
    case SetRemoval(isSet) => l.(announce := isSet)
    case Notify(_) => l
  }

  function EnteredAll(ops: seq<Op>, l: Ledger): Ledger {
    if ops == [] then l else Entered(ops[|ops| - 1], EnteredAll(ops[..|ops| - 1], l))
  }

  lemma {:induction false} EnteredConcat(a: seq<Op>, b: seq<Op>, l: Ledger)
    ensures EnteredAll(a + b, l) == EnteredAll(b, EnteredAll(a, l))
  {
    if b == [] {
      assert a + b == a;
    } else {
      EnteredConcat(a, b[..|b| - 1], l);
      assert (a + b)[..|a + b| - 1] == a + b[..|b| - 1];
    }
  }

  /** The operations a script performs on the list, in order, those of its callbacks at any depth too. */
  ghost function Performed(script: Script, s: State, nested: bool): seq<Op>
    decreases script
  {
    match script
    case Done => []
    case Do(op, rest) => PerformedByOp(op, s, nested) + Performed(rest, RunOp(op, s, nested).state, nested)
  }

  ghost function PerformedByOp(op: Op, s: State, nested: bool): seq<Op>
    decreases op
  {
    if op.Notify? then PerformedByPass(op.runs, s, -1) else [op]
  }

  ghost function PerformedByPass(runs: Runs, s: State, cur: int): seq<Op>
    decreases runs
  {
    var f := First(s.nodes, cur);
    if f.None? || runs.Quiet? then []
    else
      Performed(runs.body, s, true)
      + if IsLast(s.nodes, f.value) then []
        else PerformedByPass(runs.rest, Run(runs.body, s, true).state, f.value)
  }

  lemma AddEnters(s: State, subscribe: bool, nested: bool)
    ensures LedgerOf(RunOp(if subscribe then Add else AddUnsafe, s, nested).state)
         == Entered(if subscribe then Add else AddUnsafe, LedgerOf(s))
  {
    var nodes := s.nodes + [Node(s.next, true)];
    assert forall n :: n in nodes <==> n in s.nodes || n == Node(s.next, true);
    assert LiveIds(nodes) == LiveIds(s.nodes) + {s.next};
  }

  lemma CancelEnters(s: State, id: nat, nested: bool)
    ensures LedgerOf(RunOp(Cancel(id), s, nested).state) == Entered(Cancel(id), LedgerOf(s))
  {
    if id in s.subs {
      var t := RunOp(Cancel(id), s, nested).state;
      forall n: Node ensures n.id != id ==> (n in t.nodes <==> n in s.nodes) {
        CancelsExactly(s, id, nested, n);
      }
      CancelsExactly(s, id, nested, Node(id, true));
      forall k ensures k in LiveIds(t.nodes) <==> k in LiveIds(s.nodes) - {id} {
        assert k in LiveIds(t.nodes) <==> Node(k, true) in t.nodes;
        assert k in LiveIds(s.nodes) <==> Node(k, true) in s.nodes;
      }
    }
  }

  lemma PruneEnters(s: State, removed: bool)
    ensures LedgerOf(Announced(s.(nodes := Pruned(s.nodes)), removed)) == LedgerOf(s)
  {
    forall n ensures n in Pruned(s.nodes) <==> n in s.nodes && n.live {
      PrunedMember(s.nodes, n);
    }
  }

  /** After any script the live callbacks, the subscriptions and the count of cancellations are those that
      the operations performed give, one after the other, those of nested notifications included. */
  lemma {:induction false} RunEnters(script: Script, s: State, nested: bool)
    ensures LedgerOf(Run(script, s, nested).state) == EnteredAll(Performed(script, s, nested), LedgerOf(s))
    decreases script
  {
    if script.Do? {
      var t := RunOp(script.op, s, nested).state;
      RunOpEnters(script.op, s, nested);
      RunEnters(script.rest, t, nested);
      EnteredConcat(PerformedByOp(script.op, s, nested), Performed(script.rest, t, nested), LedgerOf(s));
    }
  }

  lemma OneEnters(op: Op, l: Ledger)
    ensures EnteredAll([op], l) == Entered(op, l)
  {
    assert [op][..0] == [];
  }

  lemma {:induction false} RunOpEnters(op: Op, s: State, nested: bool)
    ensures LedgerOf(RunOp(op, s, nested).state) == EnteredAll(PerformedByOp(op, s, nested), LedgerOf(s))
    decreases op
  {
    OneEnters(op, LedgerOf(s));
    match op
    case Add => AddEnters(s, true, nested);
    case AddUnsafe => AddEnters(s, false, nested);
    case Cancel(id) => CancelEnters(s, id, nested);
    case SetRemoval(_) =>
    case Notify(runs) =>
      PassEnters(runs, s, -1);
      PruneEnters(Walk(runs, s, -1).state, Dead(Walk(runs, s, -1).state.nodes) > 0);
  }

  lemma {:induction false} PassEnters(runs: Runs, s: State, cur: int)
    ensures LedgerOf(Walk(runs, s, cur).state) == EnteredAll(PerformedByPass(runs, s, cur), LedgerOf(s))
    decreases runs
  {
    var f := First(s.nodes, cur);
    if f.Some? && runs.Next? {
      var t := Run(runs.body, s, true).state;
      RunEnters(runs.body, s, true);
      var body, rest := Performed(runs.body, s, true), PerformedByPass(runs.rest, t, f.value);
      if IsLast(s.nodes, f.value) {
        assert body + [] == body;
      } else {
        PassEnters(runs.rest, t, f.value);
        EnteredConcat(body, rest, LedgerOf(s));
      }
    }
  }

  // ----- Cancelled before its turn

  /** What a pass performs before it comes to `id`. */
  ghost function PerformedUntil(runs: Runs, s: State, cur: int, id: nat): seq<Op>
    decreases runs
  {
    var f := First(s.nodes, cur);
    if f.None? || runs.Quiet? || id <= f.value then []
    else
      Performed(runs.body, s, true)
      + if IsLast(s.nodes, f.value) then []
        else PerformedUntil(runs.rest, Run(runs.body, s, true).state, f.value, id)
  }

  lemma {:induction false} TurnEnters(runs: Runs, s: State, cur: int, id: nat)
    ensures LedgerOf(AtTurn(Walk(runs, s, cur).steps, Walk(runs, s, cur).state, id))
         == EnteredAll(PerformedUntil(runs, s, cur, id), LedgerOf(s))
    decreases runs
  {
    var f := First(s.nodes, cur);
    if f.Some? {
      if runs.Quiet? {
        SilentBefore(s, s.nodes, cur);
        ConstantAtTurn(Silent(s, s.nodes, cur), s, id);
      } else if f.value < id {
        var t := Run(runs.body, s, true).state;
        var p := Walk(runs, s, cur);
        RunEnters(runs.body, s, true);
        var body := Performed(runs.body, s, true);
        if IsLast(s.nodes, f.value) {
          assert p.steps[1..] == [] && body + [] == body;
        } else {
          assert p.steps[1..] == Walk(runs.rest, t, f.value).steps;
          TurnEnters(runs.rest, t, f.value, id);
          EnteredConcat(body, PerformedUntil(runs.rest, t, f.value, id), LedgerOf(s));
        }
      }
    }
  }

  lemma {:induction false} LiveUnlessCancelled(ops: seq<Op>, l: Ledger, id: nat)
    requires id < l.next
    ensures EnteredAll(ops, l).next >= l.next
    ensures id in EnteredAll(ops, l).subs <==> id in l.subs && Cancel(id) !in ops
    ensures id in EnteredAll(ops, l).live <==> id in l.live && !(id in l.subs && Cancel(id) in ops)
  {
    if ops != [] {
      LiveUnlessCancelled(ops[..|ops| - 1], l, id);
      assert ops == ops[..|ops| - 1] + [ops[|ops| - 1]];
    }
  }

  /** A callback registered when a pass starts runs in it if and only if it has no subscription, or nothing
      that the pass performs before its turn, at any depth, cancels it. */
  lemma RunsUnlessCancelledBefore(runs: Runs, s: State, cur: int, id: nat)
    requires WellFormed(s) && Node(id, true) in s.nodes && cur < id
    ensures Ran(Walk(runs, s, cur).steps, id) <==> !(id in s.subs && Cancel(id) in PerformedUntil(runs, s, cur, id))
  {
    var i :| 0 <= i < |s.nodes| && s.nodes[i] == Node(id, true);
    assert Present(s.nodes, id);
    RunsExactlyWhenLiveAtTurn(runs, s, cur, id);
    TurnEnters(runs, s, cur, id);
    LiveUnlessCancelled(PerformedUntil(runs, s, cur, id), LedgerOf(s), id);
    var t := AtTurn(Walk(runs, s, cur).steps, Walk(runs, s, cur).state, id);
    assert id in LiveIds(t.nodes) <==> Node(id, true) in t.nodes;
    assert id in LiveIds(s.nodes);
  }

  // ----- Notifications at every depth

  /** All the passes a script makes, in the order in which they finish. */
  ghost function Passes(script: Script, s: State, nested: bool): seq<Pass>
    decreases script
  {
    match script
    case Done => []
    case Do(op, rest) => PassesOfOp(op, s) + Passes(rest, RunOp(op, s, nested).state, nested)
  }

  ghost function PassesOfOp(op: Op, s: State): seq<Pass>
    decreases op
  {
    if !op.Notify? || First(s.nodes, -1).None? then []
    else PassesInPass(op.runs, s, -1) + [Walk(op.runs, s, -1)]
  }

  ghost function PassesInPass(runs: Runs, s: State, cur: int): seq<Pass>
    decreases runs
  {
    var f := First(s.nodes, cur);
    if f.None? || runs.Quiet? then []
    else
      Passes(runs.body, s, true)
      + if IsLast(s.nodes, f.value) then []
        else PassesInPass(runs.rest, Run(runs.body, s, true).state, f.value)
  }

  /** The pass is a whole one over a well-formed list, so that all that is said of those holds. */
  ghost predicate IsPass(p: Pass) {
    exists runs, s :: WellFormed(s) && p == Walk(runs, s, -1)
  }

  ghost predicate Logs(log: seq<seq<nat>>, passes: seq<Pass>) {
    |log| == |passes| && forall i :: 0 <= i < |log| ==> IsPass(passes[i]) && log[i] == Ids(passes[i].steps)
  }

  lemma LogsConcat(a: seq<seq<nat>>, p: seq<Pass>, b: seq<seq<nat>>, q: seq<Pass>)
    requires Logs(a, p) && Logs(b, q)
    ensures Logs(a + b, p + q)
  {}

  /** The log of a run lists exactly the callbacks run by each of its notifications, at every depth. */
  lemma {:induction false} RunLogs(script: Script, s: State, nested: bool)
    requires WellFormed(s) && (!nested ==> AllLive(s.nodes))
    ensures Logs(Run(script, s, nested).log, Passes(script, s, nested))
    decreases script
  {
    if script.Do? {
      var first := RunOp(script.op, s, nested);
      OpKeeps(script.op, s, nested);
      RunOpLogs(script.op, s, nested);
      RunLogs(script.rest, first.state, nested);
      LogsConcat(first.log, PassesOfOp(script.op, s),
                 Run(script.rest, first.state, nested).log, Passes(script.rest, first.state, nested));
    }
  }

  lemma OpKeeps(op: Op, s: State, nested: bool)
    requires WellFormed(s) && (!nested ==> AllLive(s.nodes))
    ensures var t := RunOp(op, s, nested).state; WellFormed(t) && (!nested ==> AllLive(t.nodes))
  {
    if nested {
      RunOpDeferred(op, s);
    } else {
      RunOpClean(op, s);
    }
  }

  lemma {:induction false} RunOpLogs(op: Op, s: State, nested: bool)
    requires WellFormed(s)
    ensures Logs(RunOp(op, s, nested).log, PassesOfOp(op, s))
    decreases op
  {
    if op.Notify? && First(s.nodes, -1).Some? {
      var p := Walk(op.runs, s, -1);
      PassLogs(op.runs, s, -1);
      assert IsPass(p);
      LogsConcat(p.log, PassesInPass(op.runs, s, -1), [Ids(p.steps)], [p]);
    }
  }

  lemma {:induction false} PassLogs(runs: Runs, s: State, cur: int)
    requires WellFormed(s)
    ensures Logs(Walk(runs, s, cur).log, PassesInPass(runs, s, cur))
    decreases runs
  {
    var f := First(s.nodes, cur);
    if f.Some? && runs.Next? {
      var ran := Run(runs.body, s, true);
      RunDeferred(runs.body, s);
      RunLogs(runs.body, s, true);
      if IsLast(s.nodes, f.value) {
        LogsConcat(ran.log, Passes(runs.body, s, true), [], []);
      } else {
        PassLogs(runs.rest, ran.state, f.value);
        LogsConcat(ran.log, Passes(runs.body, s, true),
                   Walk(runs.rest, ran.state, f.value).log, PassesInPass(runs.rest, ran.state, f.value));
      }
    }
  }
}
