/**
  `ObserverList` and its iterators, with the slots, marks, indices and live-iterator list that the
  source updates in place, proved to behave as the registries of `Registrations` for every
  script the callbacks may run.
 */
module Observers {
  import opened Wrappers
  import opened Registrations
  import opened Slots

  /** Taking a node out of the intrusive list of live iterators. */
  function Unlinked(nodes: seq<Iter>, it: Iter): (rest: seq<Iter>)
    ensures it !in nodes ==> rest == nodes
    ensures forall n :: n in rest ==> n in nodes
  {
    if nodes == [] then []
    else if nodes[0] == it then nodes[1..]
    else [nodes[0]] + Unlinked(nodes[1..], it)
  }

  lemma {:induction false} UnlinkedMember(nodes: seq<Iter>, it: Iter, n: Iter)
    requires NoRepeats(nodes)
    ensures n in Unlinked(nodes, it) <==> n in nodes && n != it
  {
    if nodes != [] {
      assert nodes == [nodes[0]] + nodes[1..];
      if nodes[0] != it {
        UnlinkedMember(nodes[1..], it, n);
      }
    }
  }

  lemma {:induction false} UnlinkedNoRepeats(nodes: seq<Iter>, it: Iter)
    requires NoRepeats(nodes)
    ensures NoRepeats(Unlinked(nodes, it))
  {
    if nodes != [] && nodes[0] != it {
      UnlinkedNoRepeats(nodes[1..], it);
      assert nodes[0] !in nodes[1..];
      assert nodes[0] !in Unlinked(nodes[1..], it);
    }
  }

  lemma {:induction false} UnlinkedLast(nodes: seq<Iter>, it: Iter)
    requires it !in nodes
    ensures Unlinked(nodes + [it], it) == nodes
  {
    if nodes != [] {
      UnlinkedLast(nodes[1..], it);
      assert (nodes + [it])[1..] == nodes[1..] + [it];
    }
  }

  /** What a loop did is what the whole traversal `p` does. */
  ghost predicate Finished(p: Pass, reg: Registry, visited: seq<Observer>, log: seq<seq<Observer>>) {
    p.reg == reg && Notified(p.steps) == visited && p.log == log
  }

  /** What a loop has done so far, followed by the pass `rest`, is the whole traversal `p`. */
  ghost predicate Continues(p: Pass, visited: seq<Observer>, log: seq<seq<Observer>>, rest: Pass) {
    p.reg == rest.reg && Notified(p.steps) == visited + Notified(rest.steps) && p.log == log + rest.log
  }

  lemma ContinuesStep(policy: Policy, todo: Visits, r: Registry, cur: int, limit: Limit, e: Entry,
                      p: Pass, visited: seq<Observer>, log: seq<seq<Observer>>)
    requires todo.Visit? && First(r.entries, cur, limit) == Some(e)
    requires Continues(p, visited, log, Walk(policy, todo, r, cur, limit))
    ensures var ran := Run(policy, todo.body, r);
            Continues(p, visited + [e.obs], log + ran.log, Walk(policy, todo.rest, ran.reg, e.stamp, limit))
  {
    var ran := Run(policy, todo.body, r);
    var rest := Walk(policy, todo.rest, ran.reg, e.stamp, limit);
    ContinuesOneStep(p, visited, log, Step(e, r, ran.reg), ran.log, rest);
  }

  lemma ContinuesOneStep(p: Pass, visited: seq<Observer>, log: seq<seq<Observer>>, step: Step,
                         inner: seq<seq<Observer>>, rest: Pass)
    requires Continues(p, visited, log, Pass(rest.reg, [step] + rest.steps, inner + rest.log, rest.complete))
    ensures Continues(p, visited + [step.entry.obs], log + inner, rest)
  {
    assert Notified([step] + rest.steps) == [step.entry.obs] + Notified(rest.steps);
    assert log + (inner + rest.log) == log + inner + rest.log;
  }

  class ObserverList {
    const policy: Policy
    var observers: seq<Slot>
    var liveIterators: seq<Iter>
    var observersCount: nat
    var alive: bool  // until the destructor has run
    ghost var stamps: seq<nat>  // when each slot was filled
    ghost var next: nat

    ghost predicate ValidSlots()
      reads this
    {
      && |stamps| == |observers| && Rising(stamps, next) && Unrepeated(observers)
      && observersCount == |Entries(observers, stamps)|
    }

    /** The list is consistent: the count is the number of unmarked slots, no observer is in two
        slots, marks exist only while an iterator is live, and every live iterator knows it.  Once it
        is destroyed nothing of it is left and no iterator refers to it. */
    ghost predicate Valid()
      reads this, liveIterators
    {
      && ValidSlots()
      && (liveIterators == [] ==> NoMarks(observers))
      && NoRepeats(liveIterators)
      && (forall it :: it in liveIterators ==> it.list == this)
      && (!alive ==> observers == [] && liveIterators == [])
    }

    /** The registrations the list stands for. */
    ghost function Registrations(): Registry
      requires |stamps| == |observers|
      reads this
    {
      Registry(Entries(observers, stamps), next, alive)
    }

    constructor (policy: Policy)
      ensures Valid() && alive && this.policy == policy && liveIterators == [] && observers == []
    {
      this.policy, alive := policy, true;
      observers, liveIterators, observersCount := [], [], 0;
      stamps, next := [], 0;
    }

    /** The position of the slot holding `o`, or the size of the vector. */
    method Find(o: Observer) returns (i: nat)
      ensures i <= |observers|
      ensures i < |observers| ==> observers[i] == Holds(o)
      ensures i == |observers| ==> Holds(o) !in observers
    {
      i := 0;
      while i < |observers| && observers[i] != Holds(o)
        invariant i <= |observers| && Holds(o) !in observers[..i]
      {
        i := i + 1;
      }
    }

    /** A null pointer, which a marked slot would equal, is never an observer. */
    method HasObserver(o: Option<Observer>) returns (found: bool)
      requires ValidSlots()
      ensures found <==> o.Some? && Registered(Registrations().entries, o.value)
      ensures found <==> o.Some? && Holds(o.value) in observers
    {
      if o.None? {
        return false;
      }
      var i := Find(o.value);
      found := i < |observers|;
      RegisteredHasSlot(observers, stamps, o.value);
    }

    method AddObserver(o: Observer)
      requires Valid() && alive
      modifies this
      ensures Valid() && alive && liveIterators == old(liveIterators)
      ensures Registrations() == Add(old(Registrations()), o)
      ensures Holds(o) in observers && forall x :: x != o ==> (Holds(x) in observers <==> Holds(x) in old(observers))
      ensures observersCount == old(observersCount) + if Holds(o) in old(observers) then 0 else 1
      ensures Grows(old(observers), old(stamps), old(next), observers, stamps)
    {
      var present := HasObserver(Some(o));
      if !present {
        EmplaceBack(o);
      }
    }

    method EmplaceBack(o: Observer)
      requires ValidSlots() && Holds(o) !in observers
      modifies this`observers, this`observersCount, this`stamps, this`next
      ensures ValidSlots() && observers == old(observers) + [Holds(o)] && observersCount == old(observersCount) + 1
      ensures Grows(old(observers), old(stamps), old(next), observers, stamps)
      ensures Registrations() == Registry(old(Registrations().entries) + [Entry(old(next), o)], old(next) + 1, alive)
    {
      AppendAdds(observers, stamps, next, o);
      observersCount := observersCount + 1;
      observers := observers + [Holds(o)];
      stamps, next := stamps + [next], next + 1;
    }

    method RemoveObserver(o: Observer)
      requires Valid() && alive
      modifies this
      ensures Valid() && alive && liveIterators == old(liveIterators)
      ensures Registrations() == Remove(old(Registrations()), o)
      ensures Holds(o) !in observers && forall x :: x != o ==> (Holds(x) in observers <==> Holds(x) in old(observers))
      ensures observersCount == old(observersCount) - if Holds(o) in old(observers) then 1 else 0
      ensures liveIterators != [] ==> Grows(old(observers), old(stamps), old(next), observers, stamps)
    {
      var i := Find(o);
      if i == |observers| {
        WithoutAbsent(observers, stamps, o);
        return;
      }
      SlotGone(observers, i);
      if liveIterators == [] {
        EraseSlot(i);
      } else {
        MarkSlot(i);
      }
    }

    method EraseSlot(i: nat)
      requires ValidSlots() && i < |observers| && observers[i].Holds?
      modifies this`observers, this`observersCount, this`stamps
      ensures ValidSlots() && observers == Erased(old(observers), i) && observersCount == old(observersCount) - 1
      ensures Registrations() == Remove(old(Registrations()), old(observers)[i].obs)
    {
      RemovalCounts(i);
      EraseRemoves(observers, stamps, i);
      observersCount := observersCount - 1;
      observers, stamps := Erased(observers, i), Erased(stamps, i);
    }

    method MarkSlot(i: nat)
      requires ValidSlots() && i < |observers| && observers[i].Holds?
      modifies this`observers, this`observersCount
      ensures ValidSlots() && observers == old(observers)[i := Marked] && observersCount == old(observersCount) - 1
      ensures Registrations() == Remove(old(Registrations()), old(observers)[i].obs)
    {
      RemovalCounts(i);
      MarkRemoves(observers, stamps, i);
      observersCount := observersCount - 1;
      observers := observers[i := Marked];
    }

    lemma RemovalCounts(i: nat)
      requires ValidSlots() && i < |observers| && observers[i].Holds?
      ensures |Without(Entries(observers, stamps), observers[i].obs)| == observersCount - 1
    {
      EntriesDistinct(observers, stamps);
      RegisteredHasSlot(observers, stamps, observers[i].obs);
      WithoutLength(Entries(observers, stamps), observers[i].obs);
    }

    method ClearObservers()
      requires Valid() && alive
      modifies this
      ensures Valid() && alive && liveIterators == old(liveIterators) && observersCount == 0
      ensures Registrations() == Clear(old(Registrations())) && forall x :: Holds(x) !in observers
      ensures liveIterators != [] ==> Grows(old(observers), old(stamps), old(next), observers, stamps)
    {
      if liveIterators == [] {
        observers, stamps := [], [];
      } else {
        var i := 0;
        while i < |observers|
          invariant i <= |observers| == |stamps| && stamps == old(stamps) && next == old(next)
          invariant liveIterators == old(liveIterators) && alive
          invariant forall k :: 0 <= k < i ==> observers[k].Marked?
          invariant Grows(old(observers), stamps, next, observers, stamps) && |observers| == |old(observers)|
        {
          observers := observers[i := Marked];
          i := i + 1;
        }
        MarkAllClears(observers, stamps);
      }
      observersCount := 0;
    }

    method Compact()
      requires ValidSlots()
      modifies this`observers, this`stamps
      ensures ValidSlots() && NoMarks(observers)
      ensures Registrations() == old(Registrations())
    {
      CompactKeeps(observers, stamps);
      CompactValid(observers, stamps, next);
      observers, stamps := Compacted(observers), CompactedStamps(observers, stamps);
    }

    /** What every operation leaves behind: the live iterators of a list that is still alive, with every
        index in place, and detached iterators of a list that is not. */
    ghost predicate Survives(slots: seq<Slot>, when: seq<nat>, since: nat, nodes: seq<Iter>)
      reads this, nodes
    {
      && since <= next
      && (alive ==> liveIterators == nodes)
      && (alive && nodes != [] ==> Grows(slots, when, since, observers, stamps))
      && (!alive ==> forall it :: it in nodes ==> it.list == null)
    }

    /** Runs a callback body: any script of operations on this list. */
    method RunScript(script: Script) returns (log: seq<seq<Observer>>)
      requires Valid()
      modifies this, liveIterators`list
      ensures Valid() && Survives(old(observers), old(stamps), old(next), old(liveIterators))
      ensures Outcome(Registrations(), log) == Run(policy, script, old(Registrations()))
      decreases script, 0
    {
      match script
      case Done => log := [];
      case Do(op, rest) =>
        var first := RunOne(op);
        ghost var slots, stamps', next' := observers, stamps, next;
        if !alive {
          DestroyedIsFinal(policy, rest, Registrations());
        }
        var others := RunScript(rest);
        log := first + others;
        if alive && liveIterators != [] {
          GrowsTransitive(old(observers), old(stamps), old(next), slots, stamps', next', observers, stamps);
        }
    }

    /** An operation on a destroyed list is not performed. */
    method RunOne(op: Op) returns (log: seq<seq<Observer>>)
      requires Valid()
      modifies this, liveIterators`list
      ensures Valid() && Survives(old(observers), old(stamps), old(next), old(liveIterators))
      ensures Outcome(Registrations(), log) == RunOp(policy, op, old(Registrations()))
      decreases op
    {
      log := [];
      if !alive {
        return;
      }
      match op
      case AddOp(o) => AddObserver(o);
      case RemoveOp(o) => RemoveObserver(o);
      case ClearOp => ClearObservers();
      case TraverseOp(visits) =>
        var visited;
        visited, log := Traverse(visits);
        log := log + [visited];
      case DestroyOp => Destroy();
    }

    /** One range-for loop over the list.  Its body notifies the current observer, whose callback
        runs the next script; the loop is left when the scripts run out. */
    method Traverse(visits: Visits) returns (visited: seq<Observer>, log: seq<seq<Observer>>)
      requires Valid() && alive
      modifies this, liveIterators`list
      ensures Valid() && Survives(old(observers), old(stamps), old(next), old(liveIterators))
      ensures Finished(Walk(policy, visits, old(Registrations()), -1, StartLimit(policy, old(Registrations()))),
                       Registrations(), visited, log)
      decreases visits, 1
    {
      if observers == [] {
        return [], [];  // `begin()` is then the default iterator, which equals `end()`
      }
      ghost var nodes := liveIterators;
      var it := new Iter.Begin(this);
      visited, log := Loop(it, visits);
      if alive {
        UnlinkedLast(nodes, it);
      }
      it.Destroy();
    }

    /** One turn of the loop: notify the observer the iterator is at, then `++`.  If the list was destroyed
        meanwhile the iterator is detached, and nothing of the list is touched. */
    method NotifyCurrent(it: Iter, body: Script, ghost cur: int, ghost limit: Limit)
      returns (o: Observer, log: seq<seq<Observer>>, ghost stamp: nat)
      requires Valid() && alive && it.list == this && it in liveIterators && !it.IsEnd()
      requires Position(observers, stamps, cur, limit, it.index, it.maxIndex)
      requires observers[it.index].Holds? && (limit.Below? ==> limit.stamp <= next)
      modifies this, liveIterators`list, it`index
      ensures Valid() && Survives(old(observers), old(stamps), old(next), old(liveIterators))
      ensures First(old(Registrations()).entries, cur, limit) == Some(Entry(stamp, o))
      ensures Outcome(Registrations(), log) == Run(policy, body, old(Registrations()))
      ensures alive ==> Position(observers, stamps, stamp, limit, it.index, it.maxIndex)
      ensures alive ==> it.list == this && (it.IsEnd() || observers[it.index].Holds?)
      decreases body, 1
    {
      PositionNext(observers, stamps, next, cur, limit, it.index, it.maxIndex);
      o, stamp := observers[it.index].obs, stamps[it.index];
      log := RunScript(body);
      it.Advance();
      if alive {
        PositionAdvances(old(observers), old(stamps), old(next), cur, limit, old(it.index), it.maxIndex,
                         observers, stamps, next, it.index);
      }
    }

    method Loop(it: Iter, visits: Visits) returns (visited: seq<Observer>, log: seq<seq<Observer>>)
      requires Valid() && alive && it.list == this && it in liveIterators
      requires it.maxIndex == if policy.All? then Unbounded else UpTo(|observers|)
      requires it.index <= it.ClampedMaxIndex() && MarkedBetween(observers, 0, it.index)
      requires it.index == it.ClampedMaxIndex() || observers[it.index].Holds?
      modifies this, liveIterators`list, it`index
      ensures Valid() && Survives(old(observers), old(stamps), old(next), old(liveIterators))
      ensures Finished(Walk(policy, visits, old(Registrations()), -1, StartLimit(policy, old(Registrations()))),
                       Registrations(), visited, log)
      decreases visits, 0
    {
      var todo := visits;
      visited, log := [], [];
      ghost var cur: int, limit := -1, StartLimit(policy, Registrations());
      StartPosition(policy, observers, stamps, next, it.index, it.maxIndex);
      ghost var total := Walk(policy, visits, Registrations(), cur, limit);
      while !it.IsEnd() && todo.Visit?
        invariant Valid() && Survives(old(observers), old(stamps), old(next), old(liveIterators))
        invariant it.maxIndex == old(it.maxIndex) && (it.list == this <==> alive) && (!alive ==> it.list == null)
        invariant alive ==> Position(observers, stamps, cur, limit, it.index, it.maxIndex)
        invariant alive ==> it.index == it.ClampedMaxIndex() || observers[it.index].Holds?
        invariant todo == visits || todo < visits
        invariant Continues(total, visited, log, Walk(policy, todo, Registrations(), cur, limit))
        decreases todo
      {
        ghost var slots, stamps', next' := observers, stamps, next;
        var o, inner;
        ghost var r, cur' := Registrations(), cur;
        o, inner, cur := NotifyCurrent(it, todo.body, cur, limit);
        ContinuesStep(policy, todo, r, cur', limit, Entry(cur, o), total, visited, log);
        visited, log := visited + [o], log + inner;
        if alive {
          GrowsTransitive(old(observers), old(stamps), old(next), slots, stamps', next', observers, stamps);
        }
        todo := todo.rest;
      }
      if alive {
        if it.IsEnd() {
          PositionEnd(observers, stamps, next, cur, limit, it.index, it.maxIndex);
        } else {
          PositionNext(observers, stamps, next, cur, limit, it.index, it.maxIndex);
        }
      }
    }

    /** The destructor: every live iterator is detached and so becomes an end iterator. */
    method Destroy()
      requires Valid() && alive
      modifies this, liveIterators`list
      ensures Valid() && !alive && Registrations() == Destroyed(old(Registrations()))
      ensures forall it :: it in old(liveIterators) ==> it.list == null && it.IsEnd()
    {
      ghost var nodes := liveIterators;
      while liveIterators != []
        invariant NoRepeats(liveIterators) && next == old(next)
        invariant forall it :: it in liveIterators ==> it in nodes && it.list == this
        invariant forall it :: it in nodes && it !in liveIterators ==> it.list == null
        decreases |liveIterators|
      {
        ghost var before := liveIterators;
        assert before[0] in nodes;
        liveIterators[0].Invalidate();
        assert liveIterators == before[1..];
      }
      observers, observersCount, alive, stamps := [], 0, false, [];
    }
  }

  class Iter {
    var list: ObserverList?
    var index: nat
    var maxIndex: Bound

    /** A node is in the live list of exactly the list it points to. */
    ghost predicate Linked()
      reads this, list
    {
      list != null ==> this in list.liveIterators
    }

    function ClampedMaxIndex(): (m: nat)
      requires list != null
      reads this, list
      ensures m <= |list.observers|
    {
      Clamped(maxIndex, |list.observers|)
    }

    predicate IsEnd()
      reads this, list
    {
      list == null || index == ClampedMaxIndex()
    }

    /** The default iterator, which is also every `end()`. */
    constructor End()
      ensures list == null && IsEnd()
    {
      list, index, maxIndex := null, 0, UpTo(0);
    }

    constructor Begin(l: ObserverList)
      requires l.Valid() && l.alive
      modifies l`liveIterators
      ensures l.Valid() && l.liveIterators == old(l.liveIterators) + [this] && list == l && Linked()
      ensures maxIndex == if l.policy.All? then Unbounded else UpTo(|l.observers|)
      ensures index <= ClampedMaxIndex() && MarkedBetween(l.observers, 0, index)
      ensures index == ClampedMaxIndex() || l.observers[index].Holds?
    {
      list, index := l, 0;
      maxIndex := if l.policy.All? then Unbounded else UpTo(|l.observers|);
      new;
      l.liveIterators := l.liveIterators + [this];
      EnsureValidIndex();
    }

    method EnsureValidIndex()
      requires list != null && list.alive
      modifies this`index
      ensures old(index) <= index
      ensures old(index) <= ClampedMaxIndex() ==> index <= ClampedMaxIndex()
      ensures MarkedBetween(list.observers, old(index), index)
      ensures index < ClampedMaxIndex() ==> list.observers[index].Holds?
    {
      var max := ClampedMaxIndex();
      while index < max && list.observers[index].Marked?
        invariant old(index) <= index && (old(index) <= max ==> index <= max)
        invariant MarkedBetween(list.observers, old(index), index)
      {
        index := index + 1;
      }
    }

    /** `operator++`. */
    method Advance()
      requires list != null ==> list.alive
      modifies this`index
      ensures list == null ==> index == old(index)
      ensures list != null ==> old(index) < index
      ensures list != null && old(index) < ClampedMaxIndex() ==> index <= ClampedMaxIndex()
      ensures list != null ==>
                && MarkedBetween(list.observers, old(index) + 1, index)
                && (index < ClampedMaxIndex() ==> list.observers[index].Holds?)
    {
      if list != null {
        index := index + 1;
        EnsureValidIndex();
      }
    }

    /** The copy constructor. */
    constructor Copy(other: Iter)
      requires other.Linked() && (other.list != null ==> other.list.Valid())
      modifies (if other.list == null then {} else {other.list})`liveIterators
      ensures list == other.list && index == other.index && maxIndex == other.maxIndex && Linked()
      ensures list != null ==> list.Valid() && list.liveIterators == old(other.list.liveIterators) + [this]
    {
      index, maxIndex, list := other.index, other.maxIndex, other.list;
      new;
      if list != null {
        list.liveIterators := list.liveIterators + [this];
      }
    }

    predicate IsOnlyRemainingNode()
      requires list != null ==> list.liveIterators != []
      reads this, list
    {
      list != null && list.liveIterators[0] == list.liveIterators[|list.liveIterators| - 1]
    }

    /** The destructor: the last live iterator compacts it, any other leaves every slot alone. */
    method Destroy()
      requires Linked() && (list != null ==> list.Valid())
      modifies this`list, if list == null then {} else {list}
      ensures list == null
      ensures old(list) != null ==>
                && old(list).Valid() && old(list).Registrations() == old(list.Registrations())
                && old(list).liveIterators == Unlinked(old(list.liveIterators), this)
                && this !in old(list).liveIterators
                && (old(list).liveIterators != [] ==>
                      old(list).observers == old(list.observers) && old(list).stamps == old(list.stamps))
    {
      if IsOnlyRemainingNode() {
        list.Compact();
      }
      Invalidate();
    }

    /** `operator=`, which may move the iterator from one list to another.  Other iterators stay linked,
        and the list it leaves compacts only if no other iterator is live. */
    method Assign(other: Iter)
      requires Linked() && (list != null ==> list.Valid())
      requires other.Linked() && (other.list != null ==> other.list.Valid())
      modifies this, if list == null then {} else {list}, if other.list == null then {} else {other.list}
      ensures list == old(other.list) && index == old(other.index) && maxIndex == old(other.maxIndex)
      ensures Linked() && (list != null ==> list.Valid() && list.Registrations() == old(other.list.Registrations()))
      ensures old(list) != null ==> old(list).Valid() && old(list).Registrations() == old(list.Registrations())
      ensures old(list) != null && old(list) != old(other.list) ==>
                && old(list).liveIterators == Unlinked(old(list.liveIterators), this)
                && (old(list).liveIterators != [] ==>
                      old(list).observers == old(list.observers) && old(list).stamps == old(list.stamps))
      ensures list != null ==> list.observers == old(other.list.observers) && list.stamps == old(other.list.stamps)
      ensures list != null && old(list) != list ==> list.liveIterators == old(other.list.liveIterators) + [this]
      ensures list != null && old(list) == list && other != this ==>
                list.liveIterators == Unlinked(old(other.list.liveIterators), this) + [this]
      ensures other == this && list != null ==> list.liveIterators == old(list.liveIterators)
    {
      if other == this {
        return;
      }
      if list != null && list == other.list {
        UnlinkedMember(list.liveIterators, this, other);
      }
      Destroy();
      Adopt(other);
    }

    /** A detached iterator takes the list and the place of another one. */
    method Adopt(other: Iter)
      requires list == null && other != this && (other.list != null ==> other.list.Valid() && other.list.alive)
      modifies this, (if other.list == null then {} else {other.list})`liveIterators
      ensures list == other.list && index == other.index && maxIndex == other.maxIndex && Linked()
      ensures list != null ==> list.Valid() && list.liveIterators == old(other.list.liveIterators) + [this]
    {
      if other.list != null {
        SetList(other.list);
      }
      index, maxIndex := other.index, other.maxIndex;
    }

    /** `WeakLinkNode::SetList`: links a detached node at the end of the live list. */
    method SetList(l: ObserverList)
      requires list == null && l.Valid() && l.alive
      modifies this`list, l`liveIterators
      ensures list == l && Linked() && l.Valid() && l.liveIterators == old(l.liveIterators) + [this]
    {
      list := l;
      l.liveIterators := l.liveIterators + [this];
    }

    method Invalidate()
      requires list != null ==> this in list.liveIterators && NoRepeats(list.liveIterators)
      modifies this`list, (if list == null then {} else {list})`liveIterators
      ensures list == null
      ensures old(list) != null ==>
                && old(list).liveIterators == Unlinked(old(list.liveIterators), this)
                && NoRepeats(old(list).liveIterators)
                && forall n :: n in old(list).liveIterators <==> n in old(list.liveIterators) && n != this
    {
      if list != null {
        var l := list;
        forall n ensures n in Unlinked(l.liveIterators, this) <==> n in l.liveIterators && n != this {
          UnlinkedMember(l.liveIterators, this, n);
        }
        UnlinkedNoRepeats(l.liveIterators, this);
        list := null;
        l.liveIterators := Unlinked(l.liveIterators, this);
      }
    }
  }
}
