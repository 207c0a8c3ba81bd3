/**
  What using a list of once callbacks means, for notifications that are not nested.

  A callback that runs leaves the list first, and waits among the null callbacks for its
  subscription to die.  A pass remembers only the callback it ran last, and whether that one was
  the last node of the list when it started.  The state also keeps what has run and what was
  cancelled before it ran, so that claims about them are claims about the operations performed.
 */
module OnceNotifications {
  import opened Wrappers
  import opened Notifications

  /** What a callback may do without notifying the same list again. */
  datatype OnceOp = OnceAdd(subscribe: bool) | OnceCancel(id: nat) | OnceSetRemoval(isSet: bool)

  /** A use of the list: an operation outside notification, or a notification and what its
      successive callbacks do (nothing once `bodies` runs out). */
  datatype Use = Plain(op: OnceOp) | NotifyUse(bodies: seq<seq<OnceOp>>)

  /** The list, the null callbacks, the identity of the next node, the live subscriptions, whether a
      removal callback is set, how often one ran, the callbacks that have run, in order, and those
      cancelled before. */
  datatype Once = Once(nodes: seq<Node>, nulls: seq<nat>, next: nat, subs: set<nat>, announce: bool, removals: nat,
                       ran: seq<nat>, cancelled: set<nat>)

  const FRESH := Once([], [], 0, {}, false, 0, [], {})

  function WithoutId(s: seq<nat>, id: nat): seq<nat> {
    if s == [] then [] else (if s[0] == id then [] else [s[0]]) + WithoutId(s[1..], id)
  }

  /** Runs the removal callback, if one is set. */
  function AnnouncedOnce(s: Once): Once {
    if s.announce then s.(removals := s.removals + 1) else s
  }

  function RunOnceOp(op: OnceOp, s: Once, nested: bool): Once {
    match op
    case OnceAdd(subscribe) =>
      s.(nodes := s.nodes + [Node(s.next, true)], next := s.next + 1,
         subs := if subscribe then s.subs + {s.next} else s.subs)
    case OnceCancel(id) =>
      if id !in s.subs then s
      else if id in s.nulls then s.(nulls := WithoutId(s.nulls, id), subs := s.subs - {id})
      else if nested then
        s.(nodes := Killed(s.nodes, id), subs := s.subs - {id}, cancelled := s.cancelled + {id})
      else
        AnnouncedOnce(s.(nodes := Dropped(s.nodes, id), subs := s.subs - {id}, cancelled := s.cancelled + {id}))
    case OnceSetRemoval(isSet) => s.(announce := isSet)
  }

  function RunOnceOps(ops: seq<OnceOp>, s: Once, nested: bool): Once {
    if ops == [] then s
    else RunOnceOp(ops[|ops| - 1], RunOnceOps(ops[..|ops| - 1], s, nested), nested)
  }

  /** The callback `id` leaves the list to run. */
  function Spliced(s: Once, id: nat): Once {
    s.(nodes := Dropped(s.nodes, id), nulls := s.nulls + [id], ran := s.ran + [id])
  }

  function Head(bodies: seq<seq<OnceOp>>): seq<OnceOp> {
    if bodies == [] then [] else bodies[0]
  }

  function Rest(bodies: seq<seq<OnceOp>>): seq<seq<OnceOp>> {
    if bodies == [] then [] else bodies[1..]
  }

  /** The list after the callback `id` ran the first body. */
  function AfterRun(bodies: seq<seq<OnceOp>>, s: Once, id: nat): Once {
    RunOnceOps(Head(bodies), Spliced(s, id), true)
  }

  datatype OncePass = OncePass(state: Once, steps: seq<Step<Once>>)

  /** The callbacks of one pass after `cur`. */
  function OnceWalk(bodies: seq<seq<OnceOp>>, s: Once, cur: int): OncePass
    decreases |bodies|, |s.nodes|
  {
    match First(s.nodes, cur)
    case None => OncePass(s, [])
    case Some(id) =>
      var t := AfterRun(bodies, s, id);
      RunShrinks(bodies, s, cur);
      var p := if IsLast(s.nodes, id) then OncePass(t, []) else OnceWalk(Rest(bodies), t, id);
      OncePass(p.state, [Step(id, s, t)] + p.steps)
  }

  function NotifyOnce(bodies: seq<seq<OnceOp>>, s: Once): OncePass {
    if First(s.nodes, -1).None? then OncePass(s, [])
    else
      var p := OnceWalk(bodies, s, -1);
      OncePass(AnnouncedOnce(p.state.(nodes := Pruned(p.state.nodes))), p.steps)
  }

  function RunUse(use: Use, s: Once): Once {
    match use
    case Plain(op) => RunOnceOp(op, s, false)
    case NotifyUse(bodies) => NotifyOnce(bodies, s).state
  }

  function RunUses(uses: seq<Use>, s: Once): Once {
    if uses == [] then s else RunUse(uses[|uses| - 1], RunUses(uses[..|uses| - 1], s))
  }

  // ----- A pass comes to an end

  lemma {:induction false} FirstPresent(nodes: seq<Node>, cur: int)
    requires First(nodes, cur).Some?
    ensures Present(nodes, First(nodes, cur).value)
  {
    if !(nodes[0].live && cur < nodes[0].id) {
      FirstPresent(nodes[1..], cur);
      var i :| 0 <= i < |nodes[1..]| && nodes[1..][i].id == First(nodes, cur).value;
      assert nodes[i + 1].id == First(nodes, cur).value;
    }
  }

  lemma {:induction false} DroppedLength(nodes: seq<Node>, id: nat)
    ensures |Dropped(nodes, id)| <= |nodes|
    ensures Present(nodes, id) ==> |Dropped(nodes, id)| < |nodes|
  {
    if nodes != [] {
      DroppedLength(nodes[1..], id);
      if Present(nodes, id) && nodes[0].id != id {
        var i :| 0 <= i < |nodes| && nodes[i].id == id;
        assert nodes[1..][i - 1].id == id;
      }
    }
  }

  lemma RunShrinks(bodies: seq<seq<OnceOp>>, s: Once, cur: int)
    requires First(s.nodes, cur).Some?
    ensures bodies == [] ==> |AfterRun(bodies, s, First(s.nodes, cur).value).nodes| < |s.nodes|
  {
    FirstPresent(s.nodes, cur);
    DroppedLength(s.nodes, First(s.nodes, cur).value);
  }

  // ----- What every operation keeps

  /** Every callback ever added is exactly one of: still to run, run, or cancelled before it ran. */
  ghost predicate Accounted(nodes: seq<Node>, ran: seq<nat>, cancelled: set<nat>, next: nat) {
    forall id: nat ::
      && (id < next <==> Node(id, true) in nodes || id in ran || id in cancelled)
      && !(Node(id, true) in nodes && id in ran) && !(Node(id, true) in nodes && id in cancelled)
      && !(id in ran && id in cancelled)
  }

  /** A live subscription points to a non-null node of the list or to a null one of the other. */
  ghost predicate Reachable(subs: set<nat>, nodes: seq<Node>, nulls: seq<nat>) {
    forall id :: id in subs ==> (Node(id, true) in nodes) != (id in nulls)
  }

  ghost predicate Ordered(nodes: seq<Node>, nulls: seq<nat>, next: nat) {
    && Sorted(nodes) && (forall i :: 0 <= i < |nodes| ==> nodes[i].id < next)
    && (forall i :: 0 <= i < |nulls| ==> nulls[i] < next)
    && (forall n :: n in nodes ==> n.id !in nulls)
  }

  ghost predicate Sound(s: Once, nested: bool) {
    && Ordered(s.nodes, s.nulls, s.next) && Reachable(s.subs, s.nodes, s.nulls)
    && NoRepeats(s.ran) && Accounted(s.nodes, s.ran, s.cancelled, s.next)
    && (!nested ==> AllLive(s.nodes))
  }

  lemma {:induction false} WithoutMember(s: seq<nat>, id: nat, x: nat)
    ensures x in WithoutId(s, id) <==> x in s && x != id
  {
    if s != [] {
      assert s == [s[0]] + s[1..];
      WithoutMember(s[1..], id, x);
    }
  }

  lemma WithoutOrdered(nodes: seq<Node>, nulls: seq<nat>, next: nat, id: nat)
    requires Ordered(nodes, nulls, next)
    ensures Ordered(nodes, WithoutId(nulls, id), next)
    ensures forall x :: x in WithoutId(nulls, id) <==> x in nulls && x != id
  {
    forall x ensures x in WithoutId(nulls, id) <==> x in nulls && x != id {
      WithoutMember(nulls, id, x);
    }
    assert forall i :: 0 <= i < |WithoutId(nulls, id)| ==> WithoutId(nulls, id)[i] in WithoutId(nulls, id);
  }

  lemma KilledLives(nodes: seq<Node>, nulls: seq<nat>, next: nat, id: nat)
    requires Ordered(nodes, nulls, next)
    ensures Ordered(Killed(nodes, id), nulls, next)
    ensures forall k :: Node(k, true) in Killed(nodes, id) <==> Node(k, true) in nodes && k != id
  {
    forall n ensures n in Killed(nodes, id) <==> if n.id == id then !n.live && Present(nodes, id) else n in nodes {
      KilledMember(nodes, id, n);
    }
  }

  lemma DroppedLives(nodes: seq<Node>, nulls: seq<nat>, next: nat, id: nat)
    requires Ordered(nodes, nulls, next)
    ensures Ordered(Dropped(nodes, id), nulls, next)
    ensures forall n :: n in Dropped(nodes, id) <==> n in nodes && n.id != id
    ensures AllLive(nodes) ==> AllLive(Dropped(nodes, id))
  {
    DroppedSorted(nodes, id);
    forall n ensures n in Dropped(nodes, id) <==> n in nodes && n.id != id {
      DroppedMember(nodes, id, n);
    }
    assert forall i :: 0 <= i < |Dropped(nodes, id)| ==> Dropped(nodes, id)[i] in Dropped(nodes, id);
  }

  lemma PrunedOrdered(nodes: seq<Node>, nulls: seq<nat>, next: nat)
    requires Ordered(nodes, nulls, next)
    ensures Ordered(Pruned(nodes), nulls, next) && AllLive(Pruned(nodes))
    ensures forall n :: n in Pruned(nodes) <==> n in nodes && n.live
  {
    PrunedSorted(nodes);
    forall n ensures n in Pruned(nodes) <==> n in nodes && n.live {
      PrunedMember(nodes, n);
    }
    assert forall i :: 0 <= i < |Pruned(nodes)| ==> Pruned(nodes)[i] in Pruned(nodes);
  }

  lemma CancelAccounted(nodes: seq<Node>, nodes': seq<Node>, ran: seq<nat>, cancelled: set<nat>, next: nat, id: nat)
    requires Accounted(nodes, ran, cancelled, next) && Node(id, true) in nodes
    requires forall k :: Node(k, true) in nodes' <==> Node(k, true) in nodes && k != id
    ensures Accounted(nodes', ran, cancelled + {id}, next)
  {}

  lemma RunAccounted(nodes: seq<Node>, nodes': seq<Node>, ran: seq<nat>, cancelled: set<nat>, next: nat, id: nat)
    requires Accounted(nodes, ran, cancelled, next) && Node(id, true) in nodes && NoRepeats(ran)
    requires forall k :: Node(k, true) in nodes' <==> Node(k, true) in nodes && k != id
    ensures Accounted(nodes', ran + [id], cancelled, next) && NoRepeats(ran + [id])
  {
    assert id !in ran;
  }

  lemma AddSound(s: Once, subscribe: bool, nested: bool)
    requires Sound(s, nested)
    ensures Sound(RunOnceOp(OnceAdd(subscribe), s, nested), nested)
  {
    var nodes := s.nodes + [Node(s.next, true)];
    assert forall n :: n in nodes <==> n in s.nodes || n == Node(s.next, true);
  }

  lemma CancelSound(s: Once, id: nat, nested: bool)
    requires Sound(s, nested)
    ensures Sound(RunOnceOp(OnceCancel(id), s, nested), nested)
  {
    if id in s.subs {
      if id in s.nulls {
        WithoutOrdered(s.nodes, s.nulls, s.next, id);
      } else if nested {
        KilledLives(s.nodes, s.nulls, s.next, id);
        CancelAccounted(s.nodes, Killed(s.nodes, id), s.ran, s.cancelled, s.next, id);
      } else {
        DroppedLives(s.nodes, s.nulls, s.next, id);
        CancelAccounted(s.nodes, Dropped(s.nodes, id), s.ran, s.cancelled, s.next, id);
      }
    }
  }

  lemma OpSound(op: OnceOp, s: Once, nested: bool)
    requires Sound(s, nested)
    ensures Sound(RunOnceOp(op, s, nested), nested)
  {
    match op
    case OnceAdd(subscribe) => AddSound(s, subscribe, nested);
    case OnceCancel(id) => CancelSound(s, id, nested);
    case OnceSetRemoval(_) =>
  }

  lemma {:induction false} OpsSound(ops: seq<OnceOp>, s: Once, nested: bool)
    requires Sound(s, nested)
    ensures Sound(RunOnceOps(ops, s, nested), nested) && RunOnceOps(ops, s, nested).ran == s.ran
  {
    if ops != [] {
      OpsSound(ops[..|ops| - 1], s, nested);
      OpSound(ops[|ops| - 1], RunOnceOps(ops[..|ops| - 1], s, nested), nested);
    }
  }

  lemma SplicedSound(s: Once, id: nat)
    requires Sound(s, true) && Node(id, true) in s.nodes
    ensures Sound(Spliced(s, id), true)
  {
    DroppedLives(s.nodes, s.nulls, s.next, id);
    RunAccounted(s.nodes, Dropped(s.nodes, id), s.ran, s.cancelled, s.next, id);
    assert forall x :: x in s.nulls + [id] <==> x in s.nulls || x == id;
  }

  lemma AfterRunSound(bodies: seq<seq<OnceOp>>, s: Once, id: nat)
    requires Sound(s, true) && Node(id, true) in s.nodes
    ensures Sound(AfterRun(bodies, s, id), true) && AfterRun(bodies, s, id).ran == s.ran + [id]
  {
    SplicedSound(s, id);
    OpsSound(Head(bodies), Spliced(s, id), true);
  }

  /** The first step of a pass. */
  lemma FirstStep(bodies: seq<seq<OnceOp>>, s: Once, cur: int)
    requires Sound(s, true) && First(s.nodes, cur).Some?
    ensures var f := First(s.nodes, cur).value;
            && Node(f, true) in s.nodes && cur < f < s.next && Sound(AfterRun(bodies, s, f), true)
            && AfterRun(bodies, s, f).ran == s.ran + [f]
  {
    FirstIsEarliest(s.nodes, cur);
    AfterRunSound(bodies, s, First(s.nodes, cur).value);
  }

  lemma {:induction false} WalkSound(bodies: seq<seq<OnceOp>>, s: Once, cur: int)
    requires Sound(s, true)
    ensures Sound(OnceWalk(bodies, s, cur).state, true)
    decreases |bodies|, |s.nodes|
  {
    var f := First(s.nodes, cur);
    if f.Some? {
      RunShrinks(bodies, s, cur);
      FirstStep(bodies, s, cur);
      if !IsLast(s.nodes, f.value) {
        WalkSound(Rest(bodies), AfterRun(bodies, s, f.value), f.value);
      }
    }
  }

  lemma IdsStep(ran: seq<nat>, step: Step<Once>, rest: seq<Step<Once>>)
    ensures ran + Ids([step] + rest) == ran + [step.id] + Ids(rest)
  {
    assert Ids([step] + rest) == [step.id] + Ids(rest);
  }

  lemma {:induction false} WalkRuns(bodies: seq<seq<OnceOp>>, s: Once, cur: int)
    requires Sound(s, true)
    ensures OnceWalk(bodies, s, cur).state.ran == s.ran + Ids(OnceWalk(bodies, s, cur).steps)
    decreases |bodies|, |s.nodes|
  {
    var f := First(s.nodes, cur);
    if f.Some? {
      RunShrinks(bodies, s, cur);
      FirstStep(bodies, s, cur);
      var t := AfterRun(bodies, s, f.value);
      if IsLast(s.nodes, f.value) {
        IdsStep(s.ran, Step(f.value, s, t), []);
      } else {
        WalkRuns(Rest(bodies), t, f.value);
        IdsStep(s.ran, Step(f.value, s, t), OnceWalk(Rest(bodies), t, f.value).steps);
      }
    }
  }

  lemma NotifySound(bodies: seq<seq<OnceOp>>, s: Once)
    requires Sound(s, false)
    ensures Sound(NotifyOnce(bodies, s).state, false)
    ensures NotifyOnce(bodies, s).state.ran == s.ran + Ids(NotifyOnce(bodies, s).steps)
  {
    WalkSound(bodies, s, -1);
    WalkRuns(bodies, s, -1);
    var t := OnceWalk(bodies, s, -1).state;
    PrunedOrdered(t.nodes, t.nulls, t.next);
  }

  /** However a list is used from the start, without nested notifications: no callback runs twice, every
      callback ever added is exactly one of still to run, run, or cancelled first, and every live
      subscription points to a node that its cancellation will find. */
  lemma {:induction false} UsesSound(uses: seq<Use>)
    ensures Sound(RunUses(uses, FRESH), false) && NoRepeats(RunUses(uses, FRESH).ran)
  {
    if uses != [] {
      var front := uses[..|uses| - 1];
      UsesSound(front);
      match uses[|uses| - 1]
      case Plain(op) => OpSound(op, RunUses(front, FRESH), false);
      case NotifyUse(bodies) => NotifySound(bodies, RunUses(front, FRESH));
    }
  }

  // ----- What one pass runs

  /** Beyond `cur` no node of `s` leaves, none comes back to life, and new ones start at `s.next`. */
  ghost predicate Onward(s: Once, t: Once, cur: int) {
    && s.next <= t.next
    && (forall n :: n in t.nodes && cur < n.id < s.next ==> Present(s.nodes, n.id) && (n.live ==> n in s.nodes))
  }

  lemma OpOnward(op: OnceOp, s: Once)
    ensures Onward(s, RunOnceOp(op, s, true), -1)
  {
    if op.OnceCancel? {
      forall n
        ensures n in Killed(s.nodes, op.id) <==>
                if n.id == op.id then !n.live && Present(s.nodes, op.id) else n in s.nodes
      {
        KilledMember(s.nodes, op.id, n);
      }
    }
  }

  lemma OnwardTransitive(s: Once, t: Once, u: Once, cur: int)
    requires Onward(s, t, cur) && Onward(t, u, cur)
    ensures Onward(s, u, cur)
  {
    forall n | n in u.nodes && cur < n.id < s.next ensures Present(s.nodes, n.id) && (n.live ==> n in s.nodes) {
      var i :| 0 <= i < |t.nodes| && t.nodes[i].id == n.id;
      assert t.nodes[i] in t.nodes;
    }
  }

  lemma {:induction false} OpsOnward(ops: seq<OnceOp>, s: Once)
    ensures Onward(s, RunOnceOps(ops, s, true), -1)
  {
    if ops != [] {
      var t := RunOnceOps(ops[..|ops| - 1], s, true);
      OpsOnward(ops[..|ops| - 1], s);
      OpOnward(ops[|ops| - 1], t);
      OnwardTransitive(s, t, RunOnceOps(ops, s, true), -1);
    }
  }

  lemma AfterRunOnward(bodies: seq<seq<OnceOp>>, s: Once, id: nat)
    ensures Onward(s, AfterRun(bodies, s, id), -1)
  {
    forall n ensures n in Dropped(s.nodes, id) <==> n in s.nodes && n.id != id {
      DroppedMember(s.nodes, id, n);
    }
    OpsOnward(Head(bodies), Spliced(s, id));
    OnwardTransitive(s, Spliced(s, id), AfterRun(bodies, s, id), -1);
  }

  ghost predicate OnceEachLive(steps: seq<Step<Once>>) {
    forall i :: 0 <= i < |steps| ==> Node(steps[i].id, true) in steps[i].before.nodes
  }

  lemma InOrderStep(step: Step<Once>, rest: seq<Step<Once>>, cur: int)
    requires cur < step.id && Node(step.id, true) in step.before.nodes
    requires InOrder(rest, step.id) && OnceEachLive(rest)
    ensures InOrder([step] + rest, cur) && OnceEachLive([step] + rest)
  {}

  /** Callbacks run in list order and each is live at its turn. */
  lemma {:induction false} OncePassInOrder(bodies: seq<seq<OnceOp>>, s: Once, cur: int)
    requires Sound(s, true)
    ensures InOrder(OnceWalk(bodies, s, cur).steps, cur)
    ensures OnceEachLive(OnceWalk(bodies, s, cur).steps)
    decreases |bodies|, |s.nodes|
  {
    var f := First(s.nodes, cur);
    if f.Some? {
      RunShrinks(bodies, s, cur);
      FirstStep(bodies, s, cur);
      var t := AfterRun(bodies, s, f.value);
      if IsLast(s.nodes, f.value) {
        InOrderStep(Step(f.value, s, t), [], cur);
      } else {
        OncePassInOrder(Rest(bodies), t, f.value);
        InOrderStep(Step(f.value, s, t), OnceWalk(Rest(bodies), t, f.value).steps, cur);
      }
    }
  }

  ghost predicate OnceRanIffLive(p: OncePass, id: nat) {
    Ran(p.steps, id) <==> Node(id, true) in AtTurn(p.steps, p.state, id).nodes
  }

  lemma RanStep(step: Step<Once>, steps: seq<Step<Once>>, id: nat)
    ensures Ran([step] + steps, id) <==> step.id == id || Ran(steps, id)
  {
    var all := [step] + steps;
    if Ran(steps, id) {
      var i :| 0 <= i < |steps| && steps[i].id == id;
      assert all[i + 1].id == id;
    }
    if Ran(all, id) {
      var i :| 0 <= i < |all| && all[i].id == id;
      assert i > 0 ==> steps[i - 1].id == id;
    }
    assert all[0] == step;
  }

  lemma RanIffLiveLater(step: Step<Once>, rest: OncePass, id: nat)
    requires step.id < id && OnceRanIffLive(rest, id)
    ensures OnceRanIffLive(OncePass(rest.state, [step] + rest.steps), id)
  {
    RanStep(step, rest.steps, id);
    assert ([step] + rest.steps)[1..] == rest.steps;
  }

  /** Nothing after the last node of the list is older than what is added later. */
  lemma LastHasNoneAfter(s: Once, t: Once, last: nat, id: nat)
    requires Ordered(s.nodes, s.nulls, s.next) && IsLast(s.nodes, last) && Onward(s, t, -1) && last < id < s.next
    ensures Node(id, true) !in t.nodes
  {}

  /** The first callback of a pass and those it passes over. */
  lemma RanIffLiveNow(bodies: seq<seq<OnceOp>>, s: Once, cur: int, id: nat)
    requires Sound(s, true) && cur < id && First(s.nodes, cur).Some? && id <= First(s.nodes, cur).value
    ensures OnceRanIffLive(OnceWalk(bodies, s, cur), id)
  {
    FirstIsEarliest(s.nodes, cur);
    OncePassInOrder(bodies, s, cur);
    var steps := OnceWalk(bodies, s, cur).steps;
    OrderedBeyond(steps, cur, id);
    RanStep(steps[0], steps[1..], id);
    assert steps == [steps[0]] + steps[1..];
  }

  /** A callback added before the pass runs in it if and only if it is live when its turn comes. */
  lemma {:induction false} OnceRunsExactlyWhenLiveAtTurn(
    bodies: seq<seq<OnceOp>>, s: Once, cur: int, id: nat)
    requires Sound(s, true) && cur < id < s.next
    ensures OnceRanIffLive(OnceWalk(bodies, s, cur), id)
    decreases |bodies|, |s.nodes|
  {
    FirstIsEarliest(s.nodes, cur);
    var f := First(s.nodes, cur);
    if f.Some? {
      if id <= f.value {
        RanIffLiveNow(bodies, s, cur, id);
      } else {
        var t := AfterRun(bodies, s, f.value);
        RunShrinks(bodies, s, cur);
        FirstStep(bodies, s, cur);
        AfterRunOnward(bodies, s, f.value);
        if IsLast(s.nodes, f.value) {
          LastHasNoneAfter(s, t, f.value, id);
          RanIffLiveLater(Step(f.value, s, t), OncePass(t, []), id);
        } else {
          OnceRunsExactlyWhenLiveAtTurn(Rest(bodies), t, f.value, id);
          RanIffLiveLater(Step(f.value, s, t), OnceWalk(Rest(bodies), t, f.value), id);
        }
      }
    }
  }

  /** When its turn comes a callback of the list has not run in this pass, so it is live unless it has
      been cancelled. */
  lemma {:induction false} LiveUnlessCancelled(bodies: seq<seq<OnceOp>>, s: Once, cur: int, id: nat)
    requires Sound(s, true) && cur < id < s.next && id !in s.ran
    ensures var p := OnceWalk(bodies, s, cur);
            Node(id, true) in AtTurn(p.steps, p.state, id).nodes <==> id !in AtTurn(p.steps, p.state, id).cancelled
    decreases |bodies|, |s.nodes|
  {
    FirstIsEarliest(s.nodes, cur);
    var f := First(s.nodes, cur);
    if f.Some? && f.value < id {
      var t := AfterRun(bodies, s, f.value);
      RunShrinks(bodies, s, cur);
      AfterRunSound(bodies, s, f.value);
      AfterRunOnward(bodies, s, f.value);
      var p := OnceWalk(bodies, s, cur);
      if IsLast(s.nodes, f.value) {
        assert p.steps[1..] == [];
      } else {
        assert p.steps[1..] == OnceWalk(Rest(bodies), t, f.value).steps;
        LiveUnlessCancelled(Rest(bodies), t, f.value, id);
      }
    }
  }

  /** A callback registered when the notification starts runs in it if and only if it has not been
      cancelled when its turn comes. */
  lemma RunsUnlessCancelled(bodies: seq<seq<OnceOp>>, s: Once, id: nat)
    requires Sound(s, false) && Node(id, true) in s.nodes
    ensures var p := OnceWalk(bodies, s, -1);
            Ran(NotifyOnce(bodies, s).steps, id) <==> id !in AtTurn(p.steps, p.state, id).cancelled
  {
    FirstIsEarliest(s.nodes, -1);
    OnceRunsExactlyWhenLiveAtTurn(bodies, s, -1, id);
    LiveUnlessCancelled(bodies, s, -1, id);
  }

  /** No body cancels `id`. */
  ghost predicate Spares(bodies: seq<seq<OnceOp>>, id: nat) {
    forall i :: 0 <= i < |bodies| ==> OnceCancel(id) !in bodies[i]
  }

  lemma {:induction false} SparedByOps(ops: seq<OnceOp>, s: Once, id: nat)
    requires OnceCancel(id) !in ops && id !in s.cancelled
    ensures id !in RunOnceOps(ops, s, true).cancelled
  {
    if ops != [] {
      SparedByOps(ops[..|ops| - 1], s, id);
    }
  }

  lemma {:induction false} SparedAtTurn(bodies: seq<seq<OnceOp>>, s: Once, cur: int, id: nat)
    requires Spares(bodies, id) && id !in s.cancelled
    ensures var p := OnceWalk(bodies, s, cur); id !in AtTurn(p.steps, p.state, id).cancelled
    decreases |bodies|, |s.nodes|
  {
    var f := First(s.nodes, cur);
    if f.Some? && f.value < id {
      var t := AfterRun(bodies, s, f.value);
      RunShrinks(bodies, s, cur);
      SparedByOps(Head(bodies), Spliced(s, f.value), id);
      var p := OnceWalk(bodies, s, cur);
      if IsLast(s.nodes, f.value) {
        assert p.steps[1..] == [];
      } else {
        assert p.steps[1..] == OnceWalk(Rest(bodies), t, f.value).steps;
        SparedAtTurn(Rest(bodies), t, f.value, id);
      }
    }
  }

  /** A callback that no body cancels runs. */
  lemma SparedRuns(bodies: seq<seq<OnceOp>>, s: Once, id: nat)
    requires Sound(s, false) && Node(id, true) in s.nodes && Spares(bodies, id)
    ensures Ran(NotifyOnce(bodies, s).steps, id)
  {
    SparedAtTurn(bodies, s, -1, id);
    RunsUnlessCancelled(bodies, s, id);
  }

  // ----- Callbacks added during a pass

  ghost predicate OnceAddedDuring(p: OncePass, k: nat, id: nat) {
    k < |p.steps| && p.steps[k].before.next <= id < p.steps[k].after.next
  }

  ghost predicate OnceRanIffReached(p: OncePass, k: nat, id: nat)
    requires k < |p.steps|
  {
    Ran(p.steps, id) <==>
    !IsLast(p.steps[k].before.nodes, p.steps[k].id) && Node(id, true) in AtTurn(p.steps, p.state, id).nodes
  }

  lemma ReachedLater(step: Step<Once>, rest: OncePass, k: nat, id: nat)
    requires step.id < id && k < |rest.steps| && OnceRanIffReached(rest, k, id)
    ensures OnceRanIffReached(OncePass(rest.state, [step] + rest.steps), k + 1, id)
  {
    RanStep(step, rest.steps, id);
    assert ([step] + rest.steps)[1..] == rest.steps;
  }

  lemma ReachedNow(step: Step<Once>, rest: OncePass, id: nat)
    requires !IsLast(step.before.nodes, step.id) && OnceRanIffLive(OncePass(rest.state, [step] + rest.steps), id)
    ensures OnceRanIffReached(OncePass(rest.state, [step] + rest.steps), 0, id)
  {}

  lemma AddedInRest(step: Step<Once>, rest: OncePass, k: nat, id: nat)
    requires k > 0 && OnceAddedDuring(OncePass(rest.state, [step] + rest.steps), k, id)
    ensures OnceAddedDuring(rest, k - 1, id)
  {}

  lemma AddedInFirst(step: Step<Once>, rest: OncePass, id: nat)
    requires OnceAddedDuring(OncePass(rest.state, [step] + rest.steps), 0, id)
    ensures step.before.next <= id < step.after.next
  {}

  lemma LastReachesNone(step: Step<Once>, id: nat)
    requires IsLast(step.before.nodes, step.id) && step.id < id
    ensures OnceRanIffReached(OncePass(step.after, [step]), 0, id)
  {}

  ghost predicate NextsRise(s: Once, steps: seq<Step<Once>>) {
    forall i :: 0 <= i < |steps| ==> s.next <= steps[i].before.next
  }

  lemma {:induction false} StepsRise(bodies: seq<seq<OnceOp>>, s: Once, cur: int)
    ensures NextsRise(s, OnceWalk(bodies, s, cur).steps)
    decreases |bodies|, |s.nodes|
  {
    var f := First(s.nodes, cur);
    if f.Some? {
      RunShrinks(bodies, s, cur);
      AfterRunOnward(bodies, s, f.value);
      if !IsLast(s.nodes, f.value) {
        StepsRise(Rest(bodies), AfterRun(bodies, s, f.value), f.value);
      }
    }
  }

  lemma WalkUnrolls(bodies: seq<seq<OnceOp>>, s: Once, cur: int)
    requires First(s.nodes, cur).Some? && !IsLast(s.nodes, First(s.nodes, cur).value)
    ensures var f := First(s.nodes, cur).value;
            var t := AfterRun(bodies, s, f);
            var rest := OnceWalk(Rest(bodies), t, f);
            OnceWalk(bodies, s, cur) == OncePass(rest.state, [Step(f, s, t)] + rest.steps)
  {}

  lemma WalkEnds(bodies: seq<seq<OnceOp>>, s: Once, cur: int)
    requires First(s.nodes, cur).Some? && IsLast(s.nodes, First(s.nodes, cur).value)
    ensures var f := First(s.nodes, cur).value;
            var t := AfterRun(bodies, s, f);
            OnceWalk(bodies, s, cur) == OncePass(t, [Step(f, s, t)])
  {}

  /** A callback added while callback `k` of the pass ran runs in the same pass if and only if it is
      still registered when its turn comes and `k` was not the last node when it started, so that
      the cursor, already past `k`, had not reached the end. */
  lemma {:induction false} OnceAddedRunsUnlessCursorAtEnd(
    bodies: seq<seq<OnceOp>>, s: Once, cur: int, k: nat, id: nat)
    requires Sound(s, true) && OnceAddedDuring(OnceWalk(bodies, s, cur), k, id)
    ensures OnceRanIffReached(OnceWalk(bodies, s, cur), k, id)
    decreases |bodies|, |s.nodes|
  {
    AddedBeyond(bodies, s, cur, k, id);
    FirstStep(bodies, s, cur);
    var f := First(s.nodes, cur).value;
    if IsLast(s.nodes, f) {
      AddedDuringLast(bodies, s, cur, k, id);
    } else if k == 0 {
      AddedDuringFirst(bodies, s, cur, id);
    } else {
      RunShrinks(bodies, s, cur);
      AddedAfterFirst(bodies, s, cur, k, id);
      OnceAddedRunsUnlessCursorAtEnd(Rest(bodies), AfterRun(bodies, s, f), f, k - 1, id);
      ReachedAfterFirst(bodies, s, cur, k, id);
    }
  }

  lemma AddedDuringLast(bodies: seq<seq<OnceOp>>, s: Once, cur: int, k: nat, id: nat)
    requires First(s.nodes, cur).Some? && IsLast(s.nodes, First(s.nodes, cur).value) && First(s.nodes, cur).value < id
    requires OnceAddedDuring(OnceWalk(bodies, s, cur), k, id)
    ensures OnceRanIffReached(OnceWalk(bodies, s, cur), k, id)
  {
    WalkEnds(bodies, s, cur);
    var f := First(s.nodes, cur).value;
    LastReachesNone(Step(f, s, AfterRun(bodies, s, f)), id);
  }

  lemma AddedDuringFirst(bodies: seq<seq<OnceOp>>, s: Once, cur: int, id: nat)
    requires First(s.nodes, cur).Some? && !IsLast(s.nodes, First(s.nodes, cur).value) && First(s.nodes, cur).value < id
    requires Sound(AfterRun(bodies, s, First(s.nodes, cur).value), true)
    requires OnceAddedDuring(OnceWalk(bodies, s, cur), 0, id)
    ensures OnceRanIffReached(OnceWalk(bodies, s, cur), 0, id)
  {
    WalkUnrolls(bodies, s, cur);
    var f := First(s.nodes, cur).value;
    var t := AfterRun(bodies, s, f);
    AddedInFirst(Step(f, s, t), OnceWalk(Rest(bodies), t, f), id);
    AddedNow(bodies, s, t, f, id);
  }

  lemma AddedAfterFirst(bodies: seq<seq<OnceOp>>, s: Once, cur: int, k: nat, id: nat)
    requires First(s.nodes, cur).Some? && !IsLast(s.nodes, First(s.nodes, cur).value)
    requires k > 0 && OnceAddedDuring(OnceWalk(bodies, s, cur), k, id)
    ensures var f := First(s.nodes, cur).value;
            OnceAddedDuring(OnceWalk(Rest(bodies), AfterRun(bodies, s, f), f), k - 1, id)
  {
    WalkUnrolls(bodies, s, cur);
    var f := First(s.nodes, cur).value;
    var t := AfterRun(bodies, s, f);
    AddedInRest(Step(f, s, t), OnceWalk(Rest(bodies), t, f), k, id);
  }

  lemma ReachedAfterFirst(bodies: seq<seq<OnceOp>>, s: Once, cur: int, k: nat, id: nat)
    requires First(s.nodes, cur).Some? && !IsLast(s.nodes, First(s.nodes, cur).value) && First(s.nodes, cur).value < id
    requires k > 0 && OnceAddedDuring(OnceWalk(bodies, s, cur), k, id)
    requires var f := First(s.nodes, cur).value;
             var rest := OnceWalk(Rest(bodies), AfterRun(bodies, s, f), f);
             k - 1 < |rest.steps| && OnceRanIffReached(rest, k - 1, id)
    ensures OnceRanIffReached(OnceWalk(bodies, s, cur), k, id)
  {
    WalkUnrolls(bodies, s, cur);
    var f := First(s.nodes, cur).value;
    var t := AfterRun(bodies, s, f);
    ReachedLater(Step(f, s, t), OnceWalk(Rest(bodies), t, f), k - 1, id);
  }

  lemma AddedNow(bodies: seq<seq<OnceOp>>, s: Once, t: Once, f: nat, id: nat)
    requires Sound(t, true) && f < id < t.next && !IsLast(s.nodes, f)
    ensures var rest := OnceWalk(Rest(bodies), t, f);
            OnceRanIffReached(OncePass(rest.state, [Step(f, s, t)] + rest.steps), 0, id)
  {
    OnceRunsExactlyWhenLiveAtTurn(Rest(bodies), t, f, id);
    RanIffLiveLater(Step(f, s, t), OnceWalk(Rest(bodies), t, f), id);
    ReachedNow(Step(f, s, t), OnceWalk(Rest(bodies), t, f), id);
  }

  lemma AddedBeyond(bodies: seq<seq<OnceOp>>, s: Once, cur: int, k: nat, id: nat)
    requires Sound(s, true) && OnceAddedDuring(OnceWalk(bodies, s, cur), k, id)
    ensures First(s.nodes, cur).Some? && First(s.nodes, cur).value < s.next <= id
  {
    StepsRise(bodies, s, cur);
    FirstStep(bodies, s, cur);
  }

  // ----- What each operation does to the list

  /** Adding puts one live callback, the latest, behind all others, subscribed or not, and changes none. */
  lemma OnceAddsExactly(s: Once, subscribe: bool, nested: bool)
    ensures var t := RunOnceOp(OnceAdd(subscribe), s, nested);
            && |t.nodes| == |s.nodes| + 1 && t.nodes[..|s.nodes|] == s.nodes && t.nodes[|s.nodes|] == Node(s.next, true)
            && t.next == s.next + 1 && (forall id :: id in t.subs <==> id in s.subs || (subscribe && id == s.next))
            && t.nulls == s.nulls && t.ran == s.ran && t.cancelled == s.cancelled && t.removals == s.removals
  {}

  /** Cancelling ends the subscription.  A callback that has run leaves the null callbacks and the list
      stays; one that has not becomes dead, or is taken out when no notification runs, and is
      cancelled.  Every other node stays. */
  lemma OnceCancelsExactly(s: Once, id: nat, nested: bool, n: Node)
    requires Sound(s, nested) && id in s.subs
    ensures var t := RunOnceOp(OnceCancel(id), s, nested);
            && t.subs == s.subs - {id} && t.next == s.next && t.ran == s.ran
            && Node(id, true) !in t.nodes && id !in t.nulls && (n.id != id ==> (n in t.nodes <==> n in s.nodes))
            && (id in s.nulls ==> t.nodes == s.nodes && t.cancelled == s.cancelled && t.removals == s.removals)
            && (id !in s.nulls ==> t.nulls == s.nulls && t.cancelled == s.cancelled + {id})
            && (id !in s.nulls ==> t.removals == s.removals + if !nested && s.announce then 1 else 0)
  {
    WithoutMember(s.nulls, id, id);
    KilledMember(s.nodes, id, n);
    KilledMember(s.nodes, id, Node(id, true));
    DroppedMember(s.nodes, id, n);
    DroppedMember(s.nodes, id, Node(id, true));
  }

  /** A cancellation without a subscription, and setting the removal callback, leave the list alone. */
  lemma OnceOthersLeaveListAlone(s: Once, id: nat, isSet: bool, nested: bool)
    ensures id !in s.subs ==> RunOnceOp(OnceCancel(id), s, nested) == s
    ensures var t := RunOnceOp(OnceSetRemoval(isSet), s, nested); t.announce == isSet && t.(announce := s.announce) == s
  {}

  /** The removal callback runs once for each cancellation of a callback that has not run, outside
      notifications, and once for each notification of a list that is not empty, if one is set by then. */
  lemma OnceRemovalRunsWhenOwed(use: Use, s: Once)
    requires Sound(s, false)
    ensures RunUse(use, s).removals == s.removals + if RunUse(use, s).announce && Owes(use, s) then 1 else 0
  {
    if use.NotifyUse? {
      FirstIsEarliest(s.nodes, -1);
      if s.nodes != [] {
        assert s.nodes[0] in s.nodes;
      }
      WalkOwesNothing(use.bodies, s, -1);
    }
  }

  ghost predicate Owes(use: Use, s: Once) {
    match use
    case Plain(op) => op.OnceCancel? && op.id in s.subs && Node(op.id, true) in s.nodes
    case NotifyUse(_) => s.nodes != []
  }

  lemma {:induction false} OpsOweNothing(ops: seq<OnceOp>, s: Once)
    ensures RunOnceOps(ops, s, true).removals == s.removals
  {
    if ops != [] {
      OpsOweNothing(ops[..|ops| - 1], s);
    }
  }

  lemma {:induction false} WalkOwesNothing(bodies: seq<seq<OnceOp>>, s: Once, cur: int)
    ensures OnceWalk(bodies, s, cur).state.removals == s.removals
    decreases |bodies|, |s.nodes|
  {
    var f := First(s.nodes, cur);
    if f.Some? {
      RunShrinks(bodies, s, cur);
      OpsOweNothing(Head(bodies), Spliced(s, f.value));
      if !IsLast(s.nodes, f.value) {
        WalkOwesNothing(Rest(bodies), AfterRun(bodies, s, f.value), f.value);
      }
    }
  }

  // ----- What a whole run does, as sets of callbacks and nothing else

  datatype Event = Did(op: OnceOp) | RanNow(id: nat)

  /** The next identity, the callbacks to run, the subscribed ones, whether a removal callback is set, what
      has run and what was cancelled before. */
  datatype OnceLedger = OnceLedger(next: nat, live: set<nat>, subs: set<nat>, announce: bool,
                                   ran: seq<nat>, cancelled: set<nat>)

  ghost function OnceLedgerOf(s: Once): OnceLedger {
    OnceLedger(s.next, LiveIds(s.nodes), s.subs, s.announce, s.ran, s.cancelled)
  }

  function Entry(e: Event, l: OnceLedger): OnceLedger {
    match e
    case RanNow(id) => l.(live := l.live - {id}, ran := l.ran + [id])
    case Did(op) =>
      match op
      case OnceAdd(subscribe) =>
        l.(next := l.next + 1, live := l.live + {l.next}, subs := if subscribe then l.subs + {l.next} else l.subs)
      case OnceCancel(id) =>
        if id !in l.subs then l
        else if id in l.live then
          l.(subs := l.subs - {id}, live := l.live - {id}, cancelled := l.cancelled + {id})
        else l.(subs := l.subs - {id})
      case OnceSetRemoval(isSet) => l.(announce := isSet)
  }

  function EntryAll(events: seq<Event>, l: OnceLedger): OnceLedger {
    if events == [] then l else Entry(events[|events| - 1], EntryAll(events[..|events| - 1], l))
  }

  lemma {:induction false} EntryConcat(a: seq<Event>, b: seq<Event>, l: OnceLedger)
    ensures EntryAll(a + b, l) == EntryAll(b, EntryAll(a, l))
  {
    if b == [] {
      assert a + b == a;
    } else {
      EntryConcat(a, b[..|b| - 1], l);
      assert (a + b)[..|a + b| - 1] == a + b[..|b| - 1];
    }
  }

  lemma OneEntry(e: Event, l: OnceLedger)
    ensures EntryAll([e], l) == Entry(e, l)
  {
    assert [e][..0] == [];
  }

  function DidAll(ops: seq<OnceOp>): seq<Event> {
    seq(|ops|, i requires 0 <= i < |ops| => Did(ops[i]))
  }

  /** What happens in the rest of a pass: each callback runs and then its body does. */
  ghost function EventsOfWalk(bodies: seq<seq<OnceOp>>, s: Once, cur: int): seq<Event>
    decreases |bodies|, |s.nodes|
  {
    var f := First(s.nodes, cur);
    if f.None? then []
    else
      RunShrinks(bodies, s, cur);
      [RanNow(f.value)] + DidAll(Head(bodies))
      + if IsLast(s.nodes, f.value) then []
        else EventsOfWalk(Rest(bodies), AfterRun(bodies, s, f.value), f.value)
  }

  ghost function EventsOfUse(use: Use, s: Once): seq<Event> {
    match use
    case Plain(op) => [Did(op)]
    case NotifyUse(bodies) => EventsOfWalk(bodies, s, -1)
  }

  ghost function EventsOfUses(uses: seq<Use>, s: Once): seq<Event> {
    if uses == [] then []
    else EventsOfUses(uses[..|uses| - 1], s) + EventsOfUse(uses[|uses| - 1], RunUses(uses[..|uses| - 1], s))
  }

  lemma LiveIsIn(nodes: seq<Node>, id: nat)
    ensures id in LiveIds(nodes) <==> Node(id, true) in nodes
  {}

  lemma AddEntry(s: Once, subscribe: bool, nested: bool)
    ensures OnceLedgerOf(RunOnceOp(OnceAdd(subscribe), s, nested)) == Entry(Did(OnceAdd(subscribe)), OnceLedgerOf(s))
  {
    var nodes := s.nodes + [Node(s.next, true)];
    assert forall n :: n in nodes <==> n in s.nodes || n == Node(s.next, true);
    assert LiveIds(nodes) == LiveIds(s.nodes) + {s.next};
  }

  lemma CancelEntry(s: Once, id: nat, nested: bool)
    requires Sound(s, nested)
    ensures OnceLedgerOf(RunOnceOp(OnceCancel(id), s, nested)) == Entry(Did(OnceCancel(id)), OnceLedgerOf(s))
  {
    if id in s.subs {
      var t := RunOnceOp(OnceCancel(id), s, nested);
      LiveIsIn(s.nodes, id);
      forall k ensures k in LiveIds(t.nodes) <==> k in LiveIds(s.nodes) && k != id {
        OnceCancelsExactly(s, id, nested, Node(k, true));
        LiveIsIn(t.nodes, k);
        LiveIsIn(s.nodes, k);
      }
    }
  }

  lemma OpEntry(op: OnceOp, s: Once, nested: bool)
    requires Sound(s, nested)
    ensures OnceLedgerOf(RunOnceOp(op, s, nested)) == Entry(Did(op), OnceLedgerOf(s))
  {
    match op
    case OnceAdd(subscribe) => AddEntry(s, subscribe, nested);
    case OnceCancel(id) => CancelEntry(s, id, nested);
    case OnceSetRemoval(_) =>
  }

  lemma {:induction false} OpsEntry(ops: seq<OnceOp>, s: Once, nested: bool)
    requires Sound(s, nested)
    ensures OnceLedgerOf(RunOnceOps(ops, s, nested)) == EntryAll(DidAll(ops), OnceLedgerOf(s))
  {
    if ops != [] {
      var front := ops[..|ops| - 1];
      OpsEntry(front, s, nested);
      OpsSound(front, s, nested);
      OpEntry(ops[|ops| - 1], RunOnceOps(front, s, nested), nested);
      assert DidAll(ops)[..|ops| - 1] == DidAll(front);
    }
  }

  lemma SpliceEntry(s: Once, id: nat)
    ensures OnceLedgerOf(Spliced(s, id)) == Entry(RanNow(id), OnceLedgerOf(s))
  {
    forall n ensures n in Dropped(s.nodes, id) <==> n in s.nodes && n.id != id {
      DroppedMember(s.nodes, id, n);
    }
    assert LiveIds(Dropped(s.nodes, id)) == LiveIds(s.nodes) - {id};
  }

  lemma RunEntry(bodies: seq<seq<OnceOp>>, s: Once, id: nat)
    requires Sound(s, true) && Node(id, true) in s.nodes
    ensures OnceLedgerOf(AfterRun(bodies, s, id)) == EntryAll([RanNow(id)] + DidAll(Head(bodies)), OnceLedgerOf(s))
  {
    SplicedSound(s, id);
    SpliceEntry(s, id);
    OneEntry(RanNow(id), OnceLedgerOf(s));
    OpsEntry(Head(bodies), Spliced(s, id), true);
    EntryConcat([RanNow(id)], DidAll(Head(bodies)), OnceLedgerOf(s));
  }

  lemma {:induction false} WalkEntry(bodies: seq<seq<OnceOp>>, s: Once, cur: int)
    requires Sound(s, true)
    ensures OnceLedgerOf(OnceWalk(bodies, s, cur).state) == EntryAll(EventsOfWalk(bodies, s, cur), OnceLedgerOf(s))
    decreases |bodies|, |s.nodes|
  {
    var f := First(s.nodes, cur);
    if f.Some? {
      RunShrinks(bodies, s, cur);
      FirstStep(bodies, s, cur);
      RunEntry(bodies, s, f.value);
      var t := AfterRun(bodies, s, f.value);
      var now := [RanNow(f.value)] + DidAll(Head(bodies));
      if IsLast(s.nodes, f.value) {
        assert now + [] == now;
      } else {
        WalkEntry(Rest(bodies), t, f.value);
        EntryConcat(now, EventsOfWalk(Rest(bodies), t, f.value), OnceLedgerOf(s));
      }
    }
  }

  lemma UseEntry(use: Use, s: Once)
    requires Sound(s, false)
    ensures OnceLedgerOf(RunUse(use, s)) == EntryAll(EventsOfUse(use, s), OnceLedgerOf(s))
  {
    match use
    case Plain(op) =>
      OpEntry(op, s, false);
      OneEntry(Did(op), OnceLedgerOf(s));
    case NotifyUse(bodies) =>
      WalkEntry(bodies, s, -1);
      var t := OnceWalk(bodies, s, -1).state;
      forall n ensures n in Pruned(t.nodes) <==> n in t.nodes && n.live {
        PrunedMember(t.nodes, n);
      }
      assert LiveIds(Pruned(t.nodes)) == LiveIds(t.nodes);
  }

  /** However a list is used from the start, what is still to run, what has run, in order, what was
      cancelled and what is subscribed are those that the additions, cancellations and runs of
      callbacks give, one after the other. */
  lemma {:induction false} UsesEntry(uses: seq<Use>)
    ensures OnceLedgerOf(RunUses(uses, FRESH)) == EntryAll(EventsOfUses(uses, FRESH), OnceLedgerOf(FRESH))
  {
    if uses != [] {
      var front := uses[..|uses| - 1];
      UsesEntry(front);
      UsesSound(front);
      UseEntry(uses[|uses| - 1], RunUses(front, FRESH));
      EntryConcat(EventsOfUses(front, FRESH), EventsOfUse(uses[|uses| - 1], RunUses(front, FRESH)),
                  OnceLedgerOf(FRESH));
    }
  }

  // ----- Cancelled before its turn

  /** What happens in a pass before it comes to `id`. */
  ghost function EventsUntil(bodies: seq<seq<OnceOp>>, s: Once, cur: int, id: nat): seq<Event>
    decreases |bodies|, |s.nodes|
  {
    var f := First(s.nodes, cur);
    if f.None? || id <= f.value then []
    else
      RunShrinks(bodies, s, cur);
      [RanNow(f.value)] + DidAll(Head(bodies))
      + if IsLast(s.nodes, f.value) then []
        else EventsUntil(Rest(bodies), AfterRun(bodies, s, f.value), f.value, id)
  }

  /** How things stand at the turn of `id`, in a pass that starts with an earlier callback. */
  lemma TurnAfterFirst(bodies: seq<seq<OnceOp>>, s: Once, cur: int, id: nat)
    requires First(s.nodes, cur).Some? && First(s.nodes, cur).value < id
    ensures var f := First(s.nodes, cur).value;
            var t := AfterRun(bodies, s, f);
            var p := OnceWalk(bodies, s, cur);
            var rest := OnceWalk(Rest(bodies), t, f);
            AtTurn(p.steps, p.state, id) == if IsLast(s.nodes, f) then t else AtTurn(rest.steps, rest.state, id)
  {
    var f := First(s.nodes, cur).value;
    if IsLast(s.nodes, f) {
      WalkEnds(bodies, s, cur);
    } else {
      WalkUnrolls(bodies, s, cur);
      var t := AfterRun(bodies, s, f);
      var rest := OnceWalk(Rest(bodies), t, f);
      assert ([Step(f, s, t)] + rest.steps)[1..] == rest.steps;
    }
  }

  lemma {:induction false} TurnEntry(bodies: seq<seq<OnceOp>>, s: Once, cur: int, id: nat)
    requires Sound(s, true)
    ensures OnceLedgerOf(AtTurn(OnceWalk(bodies, s, cur).steps, OnceWalk(bodies, s, cur).state, id))
         == EntryAll(EventsUntil(bodies, s, cur, id), OnceLedgerOf(s))
    decreases |bodies|, |s.nodes|
  {
    var f := First(s.nodes, cur);
    if f.Some? && f.value < id {
      RunShrinks(bodies, s, cur);
      FirstStep(bodies, s, cur);
      RunEntry(bodies, s, f.value);
      TurnAfterFirst(bodies, s, cur, id);
      var t := AfterRun(bodies, s, f.value);
      var now := [RanNow(f.value)] + DidAll(Head(bodies));
      if IsLast(s.nodes, f.value) {
        assert now + [] == now;
      } else {
        TurnEntry(Rest(bodies), t, f.value, id);
        EntryConcat(now, EventsUntil(Rest(bodies), t, f.value, id), OnceLedgerOf(s));
      }
    }
  }

  lemma {:induction false} NotRunUntil(bodies: seq<seq<OnceOp>>, s: Once, cur: int, id: nat)
    ensures RanNow(id) !in EventsUntil(bodies, s, cur, id)
    decreases |bodies|, |s.nodes|
  {
    var f := First(s.nodes, cur);
    if f.Some? && f.value < id && !IsLast(s.nodes, f.value) {
      RunShrinks(bodies, s, cur);
      NotRunUntil(Rest(bodies), AfterRun(bodies, s, f.value), f.value, id);
    }
  }

  lemma {:induction false} ToRunUnlessCancelled(events: seq<Event>, l: OnceLedger, id: nat)
    requires id < l.next && id in l.live && RanNow(id) !in events
    ensures EntryAll(events, l).next >= l.next
    ensures id in EntryAll(events, l).subs <==> id in l.subs && Did(OnceCancel(id)) !in events
    ensures id in EntryAll(events, l).live <==> !(id in l.subs && Did(OnceCancel(id)) in events)
  {
    if events != [] {
      ToRunUnlessCancelled(events[..|events| - 1], l, id);
      assert events == events[..|events| - 1] + [events[|events| - 1]];
    }
  }

  /** A callback registered when the notification starts runs in it if and only if it has no subscription,
      or no body that runs before its turn cancels it. */
  lemma OnceRunsUnlessCancelledBefore(bodies: seq<seq<OnceOp>>, s: Once, id: nat)
    requires Sound(s, false) && Node(id, true) in s.nodes
    ensures Ran(NotifyOnce(bodies, s).steps, id) <==>
            !(id in s.subs && Did(OnceCancel(id)) in EventsUntil(bodies, s, -1, id))
  {
    FirstIsEarliest(s.nodes, -1);
    OnceRunsExactlyWhenLiveAtTurn(bodies, s, -1, id);
    TurnEntry(bodies, s, -1, id);
    NotRunUntil(bodies, s, -1, id);
    LiveIsIn(s.nodes, id);
    ToRunUnlessCancelled(EventsUntil(bodies, s, -1, id), OnceLedgerOf(s), id);
    LiveIsIn(AtTurn(OnceWalk(bodies, s, -1).steps, OnceWalk(bodies, s, -1).state, id).nodes, id);
  }
}
