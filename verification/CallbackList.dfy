/**
  `RepeatingCallbackList`: the node list, the `iterating_` flag that `AutoReset` saves and
  restores, and the pre-advanced cursor of `Notify`, proved to behave as `Notifications` says
  for every script the callbacks may run.
 */
module CallbackLists {
  import opened Wrappers
  import opened Notifications

  /** A list iterator: a node, or `end()`. */
  datatype Cursor = AtEnd | AtNode(id: nat)

  ghost predicate Continues(p: Pass, ran: seq<nat>, log: seq<seq<nat>>, rest: Pass) {
    p.state == rest.state && Ids(p.steps) == ran + Ids(rest.steps) && p.log == log + rest.log
  }

  /** What is left of a pass whose cursor is at `it`, having run everything up to `cur`. */
  ghost function Remaining(todo: Runs, s: State, cur: int, it: Cursor): Pass {
    if it.AtEnd? then Pass(s, [], []) else Walk(todo, s, cur)
  }

  function Body(todo: Runs): Script {
    if todo.Next? then todo.body else Done
  }

  function Tail(todo: Runs): Runs {
    if todo.Next? then todo.rest else Quiet
  }

  ghost predicate Finished(p: Pass, s: State, ran: seq<nat>, log: seq<seq<nat>>) {
    p.state == s && Ids(p.steps) == ran && p.log == log
  }

  /** Running the node under the cursor is the first step of what remains. */
  lemma RemainingUnrolls(todo: Runs, s: State, cur: int, id: nat, it: Cursor)
    requires Sorted(s.nodes) && First(s.nodes, cur) == Some(id)
    requires it == AfterCursor(s.nodes, Run(Body(todo), s, true).state.nodes, id)
    ensures var r := Run(Body(todo), s, true);
            var rest := Remaining(Tail(todo), r.state, id, it);
            Walk(todo, s, cur) == Pass(rest.state, [Step(id, s, r.state)] + rest.steps, r.log + rest.log)
  {
    if todo.Quiet? {
      SilentUnroll(s, s.nodes, cur);
      LastHasNoNext(s.nodes, id);
      if First(s.nodes, id).None? {
        SilentNone(s, s.nodes, id);
      }
    }
  }

  lemma ContinuesStep(p: Pass, ran: seq<nat>, log: seq<seq<nat>>, todo: Runs, s: State, cur: int, id: nat, it: Cursor)
    requires Sorted(s.nodes) && First(s.nodes, cur) == Some(id)
    requires Continues(p, ran, log, Walk(todo, s, cur))
    requires it == AfterCursor(s.nodes, Run(Body(todo), s, true).state.nodes, id)
    ensures var r := Run(Body(todo), s, true);
            Continues(p, ran + [id], log + r.log, Remaining(Tail(todo), r.state, id, it))
  {
    RemainingUnrolls(todo, s, cur, id, it);
    var r := Run(Body(todo), s, true);
    ContinuesOneStep(p, ran, log, Step(id, s, r.state), r.log, Remaining(Tail(todo), r.state, id, it));
  }

  lemma ContinuesOneStep(p: Pass, ran: seq<nat>, log: seq<seq<nat>>, step: Step<State>,
                         inner: seq<seq<nat>>, rest: Pass)
    requires Continues(p, ran, log, Pass(rest.state, [step] + rest.steps, inner + rest.log))
    ensures Continues(p, ran + [step.id], log + inner, rest)
  {
    assert Ids([step] + rest.steps) == [step.id] + Ids(rest.steps);
    assert log + (inner + rest.log) == log + inner + rest.log;
  }

  lemma LastHasNoNext(nodes: seq<Node>, id: nat)
    requires Sorted(nodes)
    ensures IsLast(nodes, id) ==> First(nodes, id).None?
  {
    if IsLast(nodes, id) {
      FirstNone(nodes, id);
    }
  }

  /** Where the cursor stands after the callback of `id` changed the list from `before` to `after`:
      it moved past `id` first, and an end cursor stays at the end. */
  ghost function AfterCursor(before: seq<Node>, after: seq<Node>, id: nat): Cursor {
    if IsLast(before, id) || First(after, id).None? then AtEnd else AtNode(First(after, id).value)
  }

  class RepeatingCallbackList {
    var callbacks: seq<Node>
    var iterating: bool
    var subscriptions: set<nat>
    var nextId: nat
    var hasRemovalCallback: bool
    var removalRuns: nat
    ghost var cancels: nat

    ghost function Model(): State
      reads this
    {
      State(callbacks, nextId, subscriptions, hasRemovalCallback, removalRuns, cancels)
    }

    /** Nodes are distinct and in order, every live subscription has a live node, and no dead node
        remains unless a notification is running. */
    ghost predicate Valid()
      reads this
    {
      WellFormed(Model()) && (!iterating ==> AllLive(callbacks))
    }

    constructor ()
      ensures Valid() && !iterating && Model() == State([], 0, {}, false, 0, 0)
    {
      hasRemovalCallback := false;
      callbacks, iterating, subscriptions, nextId, removalRuns, cancels := [], false, {}, 0, 0, 0;
    }

    method AddCallback(subscribe: bool) returns (id: nat)
      requires Valid()
      modifies this
      ensures Valid() && iterating == old(iterating)
      ensures Outcome(Model(), [])
              == RunOp(if subscribe then Add else AddUnsafe, old(Model()), iterating)
      ensures id == old(nextId) < nextId && callbacks == old(callbacks) + [Node(id, true)]
      ensures subscriptions == if subscribe then old(subscriptions) + {id} else old(subscriptions)
    {
      ghost var s := Model();
      AddDeferred(s, subscribe);
      id := nextId;
      callbacks, nextId := callbacks + [Node(id, true)], nextId + 1;
      if subscribe {
        subscriptions := subscriptions + {id};
      }
      assert Model() == RunOp(if subscribe then Add else AddUnsafe, s, iterating).state;
    }

    method SetRemovalCallback(isSet: bool)
      requires Valid()
      modifies this`hasRemovalCallback
      ensures Valid() && Outcome(Model(), []) == RunOp(SetRemoval(isSet), old(Model()), iterating)
      ensures hasRemovalCallback == isSet
    {
      hasRemovalCallback := isSet;
    }

    /** A subscription dies; each one does so once. */
    method CancelCallback(id: nat)
      requires Valid()
      modifies this
      ensures Valid() && iterating == old(iterating)
      ensures Outcome(Model(), []) == RunOp(Cancel(id), old(Model()), iterating)
      ensures id in old(subscriptions) ==> id !in subscriptions && Node(id, true) !in callbacks
      ensures forall n: Node :: n.id != id ==> (n in callbacks <==> n in old(callbacks))
    {
      if id !in subscriptions {
        return;
      }
      ghost var s := Model();
      CancelKeeps(s, id, iterating);
      forall n: Node
        ensures Node(id, true) !in RunOp(Cancel(id), s, iterating).state.nodes
        ensures n.id != id ==> (n in RunOp(Cancel(id), s, iterating).state.nodes <==> n in s.nodes)
      {
        CancelsExactly(s, id, iterating, n);
      }
      subscriptions, cancels := subscriptions - {id}, cancels + 1;
      if iterating {
        callbacks := Killed(callbacks, id);
      } else {
        callbacks := Dropped(callbacks, id);
        if hasRemovalCallback {
          removalRuns := removalRuns + 1;
        }
      }
      assert Model() == RunOp(Cancel(id), s, iterating).state;
    }

    /** Runs a callback body: any script of operations on this list. */
    method RunScript(script: Script) returns (log: seq<seq<nat>>)
      requires Valid()
      modifies this
      ensures Valid() && iterating == old(iterating)
      ensures Outcome(Model(), log) == Run(script, old(Model()), iterating)
      decreases script
    {
      match script
      case Done => log := [];
      case Do(op, rest) =>
        var first := RunOne(op);
        var others := RunScript(rest);
        log := first + others;
    }

    method RunOne(op: Op) returns (log: seq<seq<nat>>)
      requires Valid()
      modifies this
      ensures Valid() && iterating == old(iterating)
      ensures Outcome(Model(), log) == RunOp(op, old(Model()), iterating)
      decreases op
    {
      log := [];
      match op
      case Add => var _ := AddCallback(true);
      case AddUnsafe => var _ := AddCallback(false);
      case Cancel(id) => CancelCallback(id);
      case SetRemoval(isSet) => SetRemovalCallback(isSet);
      case Notify(runs) => log := NotifyAll(runs);
    }

    method NotifyAll(runs: Runs) returns (log: seq<seq<nat>>)
      requires Valid()
      modifies this
      ensures Valid() && iterating == old(iterating)
      ensures Outcome(Model(), log) == RunOp(Notify(runs), old(Model()), iterating)
      decreases runs, 1
    {
      var empty := IsEmpty(callbacks);
      if empty {
        return [];
      }
      var original := iterating;  // AutoReset
      iterating := true;
      var ran;
      ran, log := Loop(runs);
      log := log + [ran];
      iterating := original;
      if !iterating {
        Prune();
      }
    }

    /** The outermost frame erases the null nodes and reports if there were any. */
    method Prune()
      requires WellFormed(Model()) && !iterating
      modifies this`callbacks, this`removalRuns
      ensures Valid()
      ensures Model() == Announced(old(Model()).(nodes := Pruned(old(callbacks))), Dead(old(callbacks)) > 0)
    {
      PrunedClean(Model());
      PrunedLength(callbacks);
      var erased := |callbacks| - |Pruned(callbacks)|;
      callbacks := Pruned(callbacks);
      if hasRemovalCallback && erased > 0 {
        removalRuns := removalRuns + 1;
      }
    }

    method Loop(runs: Runs) returns (ran: seq<nat>, log: seq<seq<nat>>)
      requires Valid() && iterating
      modifies this
      ensures Valid() && iterating
      ensures Finished(Walk(runs, old(Model()), -1), Model(), ran, log)
      decreases runs, 0
    {
      var todo := runs;
      ghost var cur: int := -1;
      ran, log := [], [];
      var it := FirstValid(callbacks);
      FirstIsEarliest(callbacks, -1);
      ghost var total := Walk(runs, Model(), -1);
      while it.AtNode?
        invariant Valid() && iterating
        invariant it.AtNode? ==> First(callbacks, cur) == Some(it.id) && it.id < nextId
        invariant todo == runs || todo < runs || todo == Quiet
        invariant Continues(total, ran, log, Remaining(todo, Model(), cur, it))
        decreases todo, if it.AtEnd? || todo.Next? then 0 else 1 + nextId - it.id
      {
        var id := it.id;
        ghost var s, cur' := Model(), cur;
        var inner;
        inner, it := RunCallback(id, todo, cur);
        ContinuesStep(total, ran, log, todo, s, cur', id, it);
        ran, log, todo, cur := ran + [id], log + inner, Tail(todo), id;
      }
    }

    /** One turn of the loop: advance the cursor, run the callback, skip what is dead by then. */
    method RunCallback(id: nat, todo: Runs, ghost cur: int) returns (log: seq<seq<nat>>, it: Cursor)
      requires Valid() && iterating && First(callbacks, cur) == Some(id)
      modifies this
      ensures Valid() && iterating
      ensures Outcome(Model(), log) == Run(Body(todo), old(Model()), true)
      ensures it == AfterCursor(old(callbacks), callbacks, id)
      ensures todo.Quiet? ==> nextId == old(nextId)
      ensures it.AtNode? ==> id < it.id < nextId && First(callbacks, id) == Some(it.id)
      decreases todo, -1
    {
      FirstIsPresent(callbacks, cur);
      var k := NextNode(callbacks, id);
      log := [];
      if todo.Next? {
        RunDeferred(todo.body, Model());
        log := RunScript(todo.body);
      }
      Resumes(old(callbacks), old(callbacks), old(nextId), callbacks, id, k);
      it := NextValid(callbacks, k);
      FirstIsEarliest(callbacks, id);
    }
  }

  // ----- Cursors

  method Locate(nodes: seq<Node>, id: nat) returns (i: nat)
    requires Present(nodes, id)
    ensures i < |nodes| && nodes[i].id == id
  {
    i := 0;
    while nodes[i].id != id
      invariant i < |nodes| && forall k :: 0 <= k < i ==> nodes[k].id != id
      decreases |nodes| - i
    {
      i := i + 1;
    }
  }

  /** `it++`. */
  method NextNode(nodes: seq<Node>, id: nat) returns (it: Cursor)
    requires Sorted(nodes) && Present(nodes, id)
    ensures IsNextNode(nodes, id, it)
  {
    var i := Locate(nodes, id);
    it := if i + 1 < |nodes| then AtNode(nodes[i + 1].id) else AtEnd;
  }

  /** The cursor at the first live node after `cur`. */
  function FirstCursor(nodes: seq<Node>, cur: int): Cursor {
    match First(nodes, cur)
    case None => AtEnd
    case Some(id) => AtNode(id)
  }

  /** `next_valid`: skips null nodes; an end cursor stays at the end. */
  method NextValid(nodes: seq<Node>, c: Cursor) returns (it: Cursor)
    requires Sorted(nodes) && (c.AtNode? ==> Present(nodes, c.id))
    ensures it == if c.AtEnd? then AtEnd else FirstCursor(nodes, c.id - 1)
  {
    if c.AtEnd? {
      return AtEnd;
    }
    var i := Locate(nodes, c.id);
    ghost var lo := i;
    while i < |nodes| && !nodes[i].live
      invariant lo <= i <= |nodes| && forall k :: lo <= k < i ==> !nodes[k].live
    {
      i := i + 1;
    }
    if i < |nodes| {
      FirstIs(nodes, c.id - 1, nodes[i].id);
      it := AtNode(nodes[i].id);
    } else {
      FirstNone(nodes, c.id - 1);
      it := AtEnd;
    }
  }

  /** `next_valid(begin())`. */
  method FirstValid(nodes: seq<Node>) returns (it: Cursor)
    requires Sorted(nodes)
    ensures it == FirstCursor(nodes, -1)
  {
    if nodes == [] {
      return AtEnd;
    }
    FirstFromStart(nodes);
    it := NextValid(nodes, AtNode(nodes[0].id));
  }

  /** Whether no live node remains. */
  method IsEmpty(nodes: seq<Node>) returns (empty: bool)
    requires Sorted(nodes)
    ensures empty <==> First(nodes, -1).None?
  {
    var i := 0;
    while i < |nodes| && !nodes[i].live
      invariant i <= |nodes| && forall k :: 0 <= k < i ==> !nodes[k].live
    {
      i := i + 1;
    }
    empty := i == |nodes|;
    FirstIsEarliest(nodes, -1);
  }

  /** A cursor that was moved past `id` when the list was `before` is still in the list and skips to the
      next node to run, when the nodes `kept` of that list (without `id`, perhaps) have only grown. */
  lemma Resumes(before: seq<Node>, kept: seq<Node>, next: nat, after: seq<Node>, id: nat, k: Cursor)
    requires IsNextNode(before, id, k) && Grew(kept, next, after) && Sorted(after)
    requires forall n :: n in kept ==> n in before && n.id < next
    requires k.AtNode? ==> Present(kept, k.id)
    ensures k.AtNode? ==> Present(after, k.id)
    ensures (if k.AtEnd? then AtEnd else FirstCursor(after, k.id - 1)) == AfterCursor(before, after, id)
  {
    if k.AtNode? {
      var i :| 0 <= i < |kept| && kept[i].id == k.id;
      assert after[i].id == k.id && kept[i] in kept;
      SameFirst(kept, after, id, k.id, next);
    }
  }

  /** `k` is the node after `id`, or the end. */
  ghost predicate IsNextNode(nodes: seq<Node>, id: nat, k: Cursor) {
    && (k.AtEnd? <==> IsLast(nodes, id))
    && (k.AtNode? ==> Present(nodes, k.id) && id < k.id && forall n :: n in nodes && id < n.id ==> k.id <= n.id)
  }

  lemma FirstIsPresent(nodes: seq<Node>, cur: int)
    requires Sorted(nodes) && First(nodes, cur).Some?
    ensures Present(nodes, First(nodes, cur).value)
  {
    FirstIsEarliest(nodes, cur);
  }

  lemma FirstFromStart(nodes: seq<Node>)
    requires Sorted(nodes) && nodes != []
    ensures First(nodes, nodes[0].id - 1) == First(nodes, -1)
  {
    FirstIsEarliest(nodes, -1);
    FirstIsEarliest(nodes, nodes[0].id - 1);
  }

  /** The node the cursor waits on is still the next node after the one that ran. */
  lemma SameFirst(before: seq<Node>, after: seq<Node>, id: nat, k: nat, next: nat)
    requires Sorted(after) && |before| <= |after| && id < k && k < next
    requires forall n :: n in before && id < n.id ==> k <= n.id
    requires forall i :: 0 <= i < |before| ==> after[i].id == before[i].id
    requires forall i :: |before| <= i < |after| ==> next <= after[i].id
    ensures First(after, id) == First(after, k - 1)
  {
    FirstIsEarliest(after, id);
    FirstIsEarliest(after, k - 1);
    forall i | 0 <= i < |after| && id < after[i].id ensures k <= after[i].id {
      assert i < |before| ==> before[i] in before;
    }
  }
}
