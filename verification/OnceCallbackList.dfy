/**
  `OnceCallbackList` for notifications that are not nested: a callback is spliced into the list
  of null callbacks before it runs, where its subscription can still find it.  The class is proved
  to do what `OnceNotifications` says for every use of it.
 */
module OnceCallbackLists {
  import opened Wrappers
  import opened Notifications
  import opened OnceNotifications
  import opened CallbackLists

  /** What is left of a pass whose cursor is at `it`, having run everything up to `cur`. */
  ghost function OnceRemaining(todo: seq<seq<OnceOp>>, s: Once, cur: int, it: Cursor): OncePass {
    if it.AtEnd? then OncePass(s, []) else OnceWalk(todo, s, cur)
  }

  /** What a loop has done so far, followed by the pass `rest`, is the whole pass `p`. */
  ghost predicate OnceContinues(p: OncePass, log: seq<nat>, rest: OncePass) {
    p.state == rest.state && Ids(p.steps) == log + Ids(rest.steps)
  }

  lemma OnceContinuesStep(p: OncePass, log: seq<nat>, todo: seq<seq<OnceOp>>, s: Once, cur: int, id: nat, it: Cursor)
    requires Sorted(s.nodes) && First(s.nodes, cur) == Some(id)
    requires OnceContinues(p, log, OnceWalk(todo, s, cur))
    requires it == AfterCursor(s.nodes, AfterRun(todo, s, id).nodes, id)
    ensures OnceContinues(p, log + [id], OnceRemaining(Rest(todo), AfterRun(todo, s, id), id, it))
  {
    var t := AfterRun(todo, s, id);
    var rest := OnceRemaining(Rest(todo), t, id, it);
    if it.AtEnd? && !IsLast(s.nodes, id) {
      assert OnceWalk(Rest(todo), t, id) == rest;
    }
    assert OnceWalk(todo, s, cur) == OncePass(rest.state, [Step(id, s, t)] + rest.steps);
    IdsStep(log, Step(id, s, t), rest.steps);
  }

  class OnceCallbackList {
    var callbacks: seq<Node>
    var nullCallbacks: seq<nat>
    var iterating: bool
    var subscriptions: set<nat>
    var nextId: nat
    var hasRemovalCallback: bool
    var removalRuns: nat
    ghost var ran: seq<nat>
    ghost var cancelled: set<nat>

    ghost function Model(): Once
      reads this
    {
      Once(callbacks, nullCallbacks, nextId, subscriptions, hasRemovalCallback, removalRuns, ran, cancelled)
    }

    ghost predicate Valid()
      reads this
    {
      Sound(Model(), iterating)
    }

    constructor ()
      ensures Valid() && !iterating && Model() == FRESH
    {
      hasRemovalCallback := false;
      callbacks, nullCallbacks, iterating, subscriptions := [], [], false, {};
      nextId, removalRuns, ran, cancelled := 0, 0, [], {};
    }

    method AddCallback(subscribe: bool) returns (id: nat)
      requires Valid()
      modifies this
      ensures Valid() && iterating == old(iterating) && id == old(nextId)
      ensures Model() == RunOnceOp(OnceAdd(subscribe), old(Model()), iterating)
    {
      AddSound(Model(), subscribe, iterating);
      id := nextId;
      callbacks, nextId := callbacks + [Node(id, true)], nextId + 1;
      if subscribe {
        subscriptions := subscriptions + {id};
      }
    }

    /** If the node is null it is in the list of null callbacks, and is erased from it. */
    method CancelNullCallback(id: nat) returns (done: bool)
      requires Valid() && id in subscriptions
      modifies this`nullCallbacks
      ensures done <==> id in old(nullCallbacks)
      ensures done <==> Node(id, true) !in callbacks
      ensures nullCallbacks == if done then WithoutId(old(nullCallbacks), id) else old(nullCallbacks)
    {
      done := Node(id, true) !in callbacks;  // `is_null()`
      if done {
        nullCallbacks := WithoutId(nullCallbacks, id);
      }
    }

    /** The subscription of `id` dies.  The node is erased from the list that holds it, or only reset
        while a notification runs. */
    method CancelCallback(id: nat)
      requires Valid() && id in subscriptions
      modifies this
      ensures Valid() && iterating == old(iterating)
      ensures Model() == RunOnceOp(OnceCancel(id), old(Model()), iterating)
      ensures id !in subscriptions && Node(id, true) !in callbacks && id !in nullCallbacks
    {
      OnceCancelsExactly(Model(), id, iterating, Node(id, true));
      ghost var s := Model();
      CancelSound(s, id, iterating);
      var done := CancelNullCallback(id);
      subscriptions := subscriptions - {id};
      if done {
        assert Model() == RunOnceOp(OnceCancel(id), s, iterating);
        return;
      }
      cancelled := cancelled + {id};
      if iterating {
        callbacks := Killed(callbacks, id);
      } else {
        callbacks := Dropped(callbacks, id);
        if hasRemovalCallback {
          removalRuns := removalRuns + 1;
        }
      }
      assert Model() == RunOnceOp(OnceCancel(id), s, iterating);
    }

    method RunOne(op: OnceOp)
      requires Valid()
      modifies this
      ensures Valid() && iterating == old(iterating)
      ensures Model() == RunOnceOp(op, old(Model()), iterating)
    {
      match op
      case OnceAdd(subscribe) => var _ := AddCallback(subscribe);
      case OnceCancel(id) =>
        if id in subscriptions {
          CancelCallback(id);
        }
      case OnceSetRemoval(isSet) => hasRemovalCallback := isSet;
    }

    /** Runs the body of a callback. */
    method RunOps(ops: seq<OnceOp>)
      requires Valid()
      modifies this
      ensures Valid() && iterating == old(iterating)
      ensures Model() == RunOnceOps(ops, old(Model()), iterating)
    {
      var i := 0;
      while i < |ops|
        invariant i <= |ops| && Valid() && iterating == old(iterating)
        invariant Model() == RunOnceOps(ops[..i], old(Model()), iterating)
      {
        OpsUnroll(ops, i, old(Model()), iterating);
        RunOne(ops[i]);
        i := i + 1;
      }
      assert ops[..i] == ops;
    }

    /** Splices the node into the null callbacks, takes the callback out of it and runs it. */
    method RunCallback(id: nat, todo: seq<seq<OnceOp>>)
      requires Valid() && iterating && Node(id, true) in callbacks
      modifies this
      ensures Valid() && iterating && Model() == AfterRun(todo, old(Model()), id)
    {
      SplicedSound(Model(), id);
      callbacks, nullCallbacks, ran := Dropped(callbacks, id), nullCallbacks + [id], ran + [id];
      RunOps(if todo == [] then [] else todo[0]);
    }

    /** One turn of the loop: advance the cursor, run the callback, skip what is null by then. */
    method Turn(id: nat, todo: seq<seq<OnceOp>>) returns (it: Cursor)
      requires Valid() && iterating && Node(id, true) in callbacks
      modifies this
      ensures Valid() && iterating && Model() == AfterRun(todo, old(Model()), id)
      ensures it == AfterCursor(old(callbacks), callbacks, id)
    {
      var k := NextNode(callbacks, id);
      RunCallback(id, todo);
      KeptAfterSplice(todo, old(Model()), id, k);
      Resumes(old(callbacks), Dropped(old(callbacks), id), old(nextId), callbacks, id, k);
      it := NextValid(callbacks, k);
    }

    /** A notification that is not nested runs exactly the ideal pass. */
    method NotifyAll(bodies: seq<seq<OnceOp>>) returns (log: seq<nat>)
      requires Valid() && !iterating
      modifies this
      ensures Valid() && !iterating && ran == old(ran) + log
      ensures Model() == NotifyOnce(bodies, old(Model())).state
      ensures log == Ids(NotifyOnce(bodies, old(Model())).steps)
    {
      NotifySound(bodies, Model());
      var empty := IsEmpty(callbacks);
      if empty {
        return [];
      }
      iterating := true;  // AutoReset
      log := Loop(bodies);
      iterating := false;
      Prune();
    }

    /** Erases the null nodes and runs the removal callback, if one is set. */
    method Prune()
      modifies this`callbacks, this`removalRuns
      ensures Model() == AnnouncedOnce(old(Model()).(nodes := Pruned(old(callbacks))))
    {
      callbacks := Pruned(callbacks);
      if hasRemovalCallback {
        removalRuns := removalRuns + 1;
      }
    }

    method Perform(use: Use) returns (log: seq<nat>)
      requires Valid() && !iterating
      modifies this
      ensures Valid() && !iterating && ran == old(ran) + log
      ensures Model() == RunUse(use, old(Model()))
    {
      match use
      case Plain(op) =>
        OpsSound([op], Model(), false);
        RunOne(op);
        log := [];
      case NotifyUse(bodies) => log := NotifyAll(bodies);
    }

    method Loop(bodies: seq<seq<OnceOp>>) returns (log: seq<nat>)
      requires Valid() && iterating
      modifies this
      ensures Valid() && iterating
      ensures Model() == OnceWalk(bodies, old(Model()), -1).state
      ensures log == Ids(OnceWalk(bodies, old(Model()), -1).steps)
    {
      var todo := bodies;
      log := [];
      ghost var cur: int := -1;
      var it := FirstValid(callbacks);
      ghost var total := OnceWalk(bodies, Model(), -1);
      while it.AtNode?
        invariant Valid() && iterating
        invariant it.AtNode? ==> First(callbacks, cur) == Some(it.id)
        invariant OnceContinues(total, log, OnceRemaining(todo, Model(), cur, it))
        decreases |todo|, |callbacks|
      {
        var id := it.id;
        ghost var s := Model();
        FirstIsEarliest(callbacks, cur);
        RunShrinks(todo, s, cur);
        it := Turn(id, todo);
        OnceContinuesStep(total, log, todo, s, cur, id, it);
        log, cur := log + [id], id;
        todo := if todo == [] then [] else todo[1..];
      }
    }
  }

  lemma OpGrows(op: OnceOp, s: Once)
    requires Sound(s, true)
    ensures Grew(s.nodes, s.next, RunOnceOp(op, s, true).nodes) && s.next <= RunOnceOp(op, s, true).next
  {}

  lemma GrewTransitive(a: seq<Node>, n: nat, b: seq<Node>, m: nat, c: seq<Node>)
    requires Grew(a, n, b) && Grew(b, m, c) && n <= m
    ensures Grew(a, n, c)
  {}

  lemma {:induction false} OpsGrow(ops: seq<OnceOp>, s: Once)
    requires Sound(s, true)
    ensures Grew(s.nodes, s.next, RunOnceOps(ops, s, true).nodes) && s.next <= RunOnceOps(ops, s, true).next
  {
    if ops != [] {
      var t := RunOnceOps(ops[..|ops| - 1], s, true);
      OpsGrow(ops[..|ops| - 1], s);
      OpsSound(ops[..|ops| - 1], s, true);
      OpGrows(ops[|ops| - 1], t);
      GrewTransitive(s.nodes, s.next, t.nodes, t.next, RunOnceOps(ops, s, true).nodes);
    }
  }

  lemma OpsUnroll(ops: seq<OnceOp>, i: nat, s: Once, nested: bool)
    requires i < |ops|
    ensures RunOnceOps(ops[..i + 1], s, nested) == RunOnceOp(ops[i], RunOnceOps(ops[..i], s, nested), nested)
  {
    assert ops[..i + 1][..i] == ops[..i];
  }

  /** Around the splice the cursor `k`, already past `id`, stays on a node of the list. */
  lemma KeptAfterSplice(todo: seq<seq<OnceOp>>, s: Once, id: nat, k: Cursor)
    requires Sound(s, true) && Node(id, true) in s.nodes && IsNextNode(s.nodes, id, k)
    ensures Grew(Dropped(s.nodes, id), s.next, AfterRun(todo, s, id).nodes)
    ensures forall n :: n in Dropped(s.nodes, id) ==> n in s.nodes && n.id < s.next
    ensures k.AtNode? ==> Present(Dropped(s.nodes, id), k.id)
  {
    DroppedLives(s.nodes, s.nulls, s.next, id);
    SplicedSound(s, id);
    OpsGrow(Head(todo), Spliced(s, id));
    if k.AtNode? {
      var j :| 0 <= j < |s.nodes| && s.nodes[j].id == k.id;
      assert s.nodes[j] in Dropped(s.nodes, id);
    }
  }

  /** Any number of uses, none nested in a notification, run exactly the callbacks of the ideal list;
      none ever runs twice. */
  method UseList(list: OnceCallbackList, uses: seq<Use>) returns (log: seq<nat>)
    requires list.Valid() && !list.iterating
    modifies list
    ensures list.Valid() && !list.iterating
    ensures list.Model() == RunUses(uses, old(list.Model()))
    ensures list.ran == old(list.ran) + log && NoRepeats(list.ran)
  {
    if uses == [] {
      return [];
    }
    var first := UseList(list, uses[..|uses| - 1]);
    var more := list.Perform(uses[|uses| - 1]);
    log := first + more;
    Associates(old(list.ran), first, more);
  }

  lemma Associates(a: seq<nat>, b: seq<nat>, c: seq<nat>)
    ensures a + b + c == a + (b + c)
  {}
}
