/**
  What an observer list means, with no slots, marks, indices or live iterators.

  A registry is the list of current registrations, each with a stamp that is never reused.
  A traversal remembers only the stamp it visited last: the next observer to notify is the
  earliest registration with a later stamp.  Callback bodies are arbitrary finite scripts of
  adds, removals, clears, nested traversals and the destruction of the list, so a statement about every script is a
  statement about everything the callbacks may do.
 */
module Registrations {
  import opened Wrappers

  type Observer = nat

  datatype Policy = All | ExistingOnly

  datatype Op = AddOp(obs: Observer) | RemoveOp(obs: Observer) | ClearOp | TraverseOp(visits: Visits) | DestroyOp

  datatype Script = Done | Do(op: Op, rest: Script)

  /** What successive visits of one traversal do; `Leave` leaves the loop (a `break`, or nothing
      left to visit). */
  datatype Visits = Leave | Visit(body: Script, rest: Visits)

  datatype Entry = Entry(stamp: nat, obs: Observer)

  /** `alive` until the list is destroyed; no operation is performed on it after that. */
  datatype Registry = Registry(entries: seq<Entry>, next: nat, alive: bool)

  /** The stamps a traversal may still visit: later than `cur` and, when bounded, below `limit`. */
  datatype Limit = Unlimited | Below(stamp: nat)

  predicate InWindow(stamp: nat, cur: int, limit: Limit) {
    cur < stamp && (limit.Below? ==> stamp < limit.stamp)
  }

  predicate Registered(entries: seq<Entry>, o: Observer) {
    exists i :: 0 <= i < |entries| && entries[i].obs == o
  }

  function Without(entries: seq<Entry>, o: Observer): seq<Entry> {
    if entries == [] then []
    else
      var last := entries[|entries| - 1];
      Without(entries[..|entries| - 1], o) + (if last.obs == o then [] else [last])
  }

  function Add(r: Registry, o: Observer): Registry {
    if Registered(r.entries, o) then r
    else r.(entries := r.entries + [Entry(r.next, o)], next := r.next + 1)
  }

  function Remove(r: Registry, o: Observer): Registry {
    r.(entries := Without(r.entries, o))
  }

  function Clear(r: Registry): Registry {
    r.(entries := [])
  }

  function Destroyed(r: Registry): Registry {
    r.(entries := [], alive := false)
  }

  /** The earliest registration in the window. */
  function First(entries: seq<Entry>, cur: int, limit: Limit): Option<Entry> {
    if entries == [] then None
    else if InWindow(entries[0].stamp, cur, limit) then Some(entries[0])
    else First(entries[1..], cur, limit)
  }

  function StartLimit(policy: Policy, r: Registry): Limit {
    if policy.All? then Unlimited else Below(r.next)
  }

  /** One visit: whom it reached and the registry just before and just after the callback. */
  datatype Step = Step(entry: Entry, before: Registry, after: Registry)

  /** `log` lists, for every traversal that finished, the observers it notified. */
  datatype Outcome = Outcome(reg: Registry, log: seq<seq<Observer>>)

  /** `complete` says that the traversal reached the end instead of being left. */
  datatype Pass = Pass(reg: Registry, steps: seq<Step>, log: seq<seq<Observer>>, complete: bool)

  function Notified(steps: seq<Step>): seq<Observer> {
    seq(|steps|, i requires 0 <= i < |steps| => steps[i].entry.obs)
  }

  function Run(policy: Policy, script: Script, r: Registry): Outcome
    decreases script
  {
    match script
    case Done => Outcome(r, [])
    case Do(op, rest) =>
      var first := RunOp(policy, op, r);
      var others := Run(policy, rest, first.reg);
      Outcome(others.reg, first.log + others.log)
  }

  function RunOp(policy: Policy, op: Op, r: Registry): Outcome
    decreases op
  {
    if !r.alive then Outcome(r, []) else
    match op
    case AddOp(o) => Outcome(Add(r, o), [])
    case RemoveOp(o) => Outcome(Remove(r, o), [])
    case ClearOp => Outcome(Clear(r), [])
    case TraverseOp(visits) =>
      var p := Walk(policy, visits, r, -1, StartLimit(policy, r));
      Outcome(p.reg, p.log + [Notified(p.steps)])
    case DestroyOp => Outcome(Destroyed(r), [])
  }

  function Walk(policy: Policy, visits: Visits, r: Registry, cur: int, limit: Limit): Pass
    decreases visits
  {
    match First(r.entries, cur, limit)
    case None => Pass(r, [], [], true)
    case Some(e) =>
      match visits
      case Leave => Pass(r, [], [], false)
      case Visit(body, rest) =>
        var ran := Run(policy, body, r);
        var p := Walk(policy, rest, ran.reg, e.stamp, limit);
        Pass(p.reg, [Step(e, r, ran.reg)] + p.steps, ran.log + p.log, p.complete)
  }

  // ----- Registries stay ordered and duplicate free, and stamps never come back

  ghost predicate Ordered(entries: seq<Entry>) {
    forall i, j :: 0 <= i < j < |entries| ==> entries[i].stamp < entries[j].stamp
  }

  ghost predicate Distinct(entries: seq<Entry>) {
    forall i, j :: 0 <= i < j < |entries| ==> entries[i].obs != entries[j].obs
  }

  ghost predicate WellFormed(r: Registry) {
    && Ordered(r.entries)
    && (forall i :: 0 <= i < |r.entries| ==> r.entries[i].stamp < r.next)
    && Distinct(r.entries)
    && (!r.alive ==> r.entries == [])
  }

  /** `s` may follow `r`: a registration of `s` older than `r.next` was already in `r`. */
  ghost predicate Later(r: Registry, s: Registry) {
    && r.next <= s.next && (s.alive ==> r.alive)
    && forall e :: e in s.entries && e.stamp < r.next ==> e in r.entries
  }

  lemma {:induction false} WithoutMembers(entries: seq<Entry>, o: Observer, e: Entry)
    ensures e in Without(entries, o) <==> e in entries && e.obs != o
  {
    if entries != [] {
      var front := entries[..|entries| - 1];
      WithoutMembers(front, o, e);
      assert entries == front + [entries[|entries| - 1]];
    }
  }

  lemma {:induction false} WithoutOrdered(entries: seq<Entry>, o: Observer)
    requires Ordered(entries)
    ensures Ordered(Without(entries, o))
  {
    if entries != [] {
      var front := entries[..|entries| - 1];
      WithoutOrdered(front, o);
      var kept := Without(front, o);
      forall i | 0 <= i < |kept| ensures kept[i].stamp < entries[|entries| - 1].stamp {
        WithoutMembers(front, o, kept[i]);
      }
    }
  }

  lemma {:induction false} WithoutDistinct(entries: seq<Entry>, o: Observer)
    requires Distinct(entries)
    ensures Distinct(Without(entries, o))
  {
    if entries != [] {
      var front := entries[..|entries| - 1];
      WithoutDistinct(front, o);
      var kept := Without(front, o);
      forall i | 0 <= i < |kept| ensures kept[i].obs != entries[|entries| - 1].obs {
        WithoutMembers(front, o, kept[i]);
      }
    }
  }

  lemma WithoutKeeps(r: Registry, o: Observer)
    requires WellFormed(r)
    ensures WellFormed(Remove(r, o)) && Later(r, Remove(r, o))
  {
    WithoutOrdered(r.entries, o);
    WithoutDistinct(r.entries, o);
    forall e ensures e in Without(r.entries, o) <==> e in r.entries && e.obs != o {
      WithoutMembers(r.entries, o, e);
    }
  }

  lemma {:induction false} RunKeeps(policy: Policy, script: Script, r: Registry)
    requires WellFormed(r)
    ensures WellFormed(Run(policy, script, r).reg) && Later(r, Run(policy, script, r).reg)
    decreases script
  {
    match script
    case Done =>
    case Do(op, rest) =>
      RunOpKeeps(policy, op, r);
      RunKeeps(policy, rest, RunOp(policy, op, r).reg);
  }

  lemma {:induction false} RunOpKeeps(policy: Policy, op: Op, r: Registry)
    requires WellFormed(r)
    ensures WellFormed(RunOp(policy, op, r).reg) && Later(r, RunOp(policy, op, r).reg)
    decreases op
  {
    match op
    case AddOp(o) =>
    case RemoveOp(o) => WithoutKeeps(r, o);
    case ClearOp =>
    case TraverseOp(visits) => WalkKeeps(policy, visits, r, -1, StartLimit(policy, r));
    case DestroyOp =>
  }

  lemma {:induction false} WalkKeeps(policy: Policy, visits: Visits, r: Registry, cur: int, limit: Limit)
    requires WellFormed(r)
    ensures var p := Walk(policy, visits, r, cur, limit); WellFormed(p.reg) && Later(r, p.reg)
    decreases visits
  {
    var next := First(r.entries, cur, limit);
    if next.Some? && visits.Visit? {
      RunKeeps(policy, visits.body, r);
      WalkKeeps(policy, visits.rest, Run(policy, visits.body, r).reg, next.value.stamp, limit);
    }
  }

  // ----- The next registration to visit

  lemma {:induction false} FirstIsEarliest(entries: seq<Entry>, cur: int, limit: Limit)
    requires Ordered(entries)
    ensures First(entries, cur, limit).None? ==>
              forall e :: e in entries ==> !InWindow(e.stamp, cur, limit)
    ensures First(entries, cur, limit).Some? ==>
              var f := First(entries, cur, limit).value;
              && f in entries && InWindow(f.stamp, cur, limit)
              && forall e :: e in entries && InWindow(e.stamp, cur, limit) ==> f.stamp < e.stamp || f == e
  {
    if entries != [] && !InWindow(entries[0].stamp, cur, limit) {
      FirstIsEarliest(entries[1..], cur, limit);
      assert entries == [entries[0]] + entries[1..];
    }
  }

  /** Any registration that is earliest in the window is the one `First` returns. */
  lemma {:induction false} FirstIs(entries: seq<Entry>, cur: int, limit: Limit, e: Entry)
    requires Ordered(entries)
    requires e in entries && InWindow(e.stamp, cur, limit)
    requires forall d :: d in entries && InWindow(d.stamp, cur, limit) ==> e.stamp <= d.stamp
    ensures First(entries, cur, limit) == Some(e)
  {
    FirstIsEarliest(entries, cur, limit);
  }

  // ----- What one traversal does, whatever its callbacks do

  /** Every visited registration is inside the window and registered when its turn comes. */
  ghost predicate EachRegistered(steps: seq<Step>, cur: int, limit: Limit) {
    forall i :: 0 <= i < |steps| ==>
      InWindow(steps[i].entry.stamp, cur, limit) && steps[i].entry in steps[i].before.entries
  }

  /** Registrations are visited in strictly increasing order of registration. */
  ghost predicate InOrder(steps: seq<Step>) {
    forall i, j :: 0 <= i < j < |steps| ==> steps[i].entry.stamp < steps[j].entry.stamp
  }

  /** The snapshots form one history from the first registry to the last. */
  ghost predicate History(r: Registry, steps: seq<Step>, last: Registry) {
    forall i :: 0 <= i < |steps| ==>
      WellFormed(steps[i].before) && Later(r, steps[i].before) && Later(steps[i].before, last)
  }

  lemma {:induction false} VisitsAreRegistered(policy: Policy, visits: Visits, r: Registry, cur: int, limit: Limit)
    requires WellFormed(r)
    ensures EachRegistered(Walk(policy, visits, r, cur, limit).steps, cur, limit)
    decreases visits
  {
    FirstIsEarliest(r.entries, cur, limit);
    var next := First(r.entries, cur, limit);
    if next.Some? && visits.Visit? {
      RunKeeps(policy, visits.body, r);
      VisitsAreRegistered(policy, visits.rest, Run(policy, visits.body, r).reg, next.value.stamp, limit);
    }
  }

  lemma {:induction false} VisitsInOrder(policy: Policy, visits: Visits, r: Registry, cur: int, limit: Limit)
    requires WellFormed(r)
    ensures InOrder(Walk(policy, visits, r, cur, limit).steps)
    decreases visits
  {
    var next := First(r.entries, cur, limit);
    if next.Some? && visits.Visit? {
      RunKeeps(policy, visits.body, r);
      var after := Run(policy, visits.body, r).reg;
      VisitsInOrder(policy, visits.rest, after, next.value.stamp, limit);
      VisitsAreRegistered(policy, visits.rest, after, next.value.stamp, limit);
      InOrderStep(Step(next.value, r, after), Walk(policy, visits.rest, after, next.value.stamp, limit).steps, limit);
    }
  }

  lemma InOrderStep(step: Step, rest: seq<Step>, limit: Limit)
    requires InOrder(rest) && EachRegistered(rest, step.entry.stamp, limit)
    ensures InOrder([step] + rest)
  {}

  lemma {:induction false} StepsAreHistory(policy: Policy, visits: Visits, r: Registry, cur: int, limit: Limit)
    requires WellFormed(r)
    ensures var p := Walk(policy, visits, r, cur, limit); History(r, p.steps, p.reg)
    decreases visits
  {
    var next := First(r.entries, cur, limit);
    if next.Some? && visits.Visit? {
      RunKeeps(policy, visits.body, r);
      var after := Run(policy, visits.body, r).reg;
      StepsAreHistory(policy, visits.rest, after, next.value.stamp, limit);
      WalkKeeps(policy, visits.rest, after, next.value.stamp, limit);
      var p := Walk(policy, visits.rest, after, next.value.stamp, limit);
      HistoryStep(r, Step(next.value, r, after), p.steps, p.reg);
    }
  }

  lemma HistoryStep(r: Registry, step: Step, rest: seq<Step>, last: Registry)
    requires step.before == r && WellFormed(r) && Later(r, step.after) && Later(step.after, last)
    requires History(step.after, rest, last)
    ensures History(r, [step] + rest, last)
  {
    forall i | 0 <= i < |rest| ensures Later(r, rest[i].before) {
      assert Later(step.after, rest[i].before);
    }
  }

  ghost predicate Visited(steps: seq<Step>, e: Entry) {
    exists i :: 0 <= i < |steps| && steps[i].entry == e
  }

  /** The registry at the moment the traversal passes `stamp`: just before its first visit at or
      beyond it, or the final one. */
  function AtTurn(steps: seq<Step>, last: Registry, stamp: nat): Registry {
    if steps == [] then last
    else if stamp <= steps[0].entry.stamp then steps[0].before
    else AtTurn(steps[1..], last, stamp)
  }

  /** A complete traversal visits a registration if and only if it is registered when its turn
      comes: one removed before its turn is never visited, one still there always is. */
  lemma {:induction false} VisitedExactlyWhenRegisteredAtTurn(
    policy: Policy, visits: Visits, r: Registry, cur: int, limit: Limit, e: Entry)
    requires WellFormed(r) && InWindow(e.stamp, cur, limit)
    requires Walk(policy, visits, r, cur, limit).complete
    ensures var p := Walk(policy, visits, r, cur, limit);
            Visited(p.steps, e) <==> e in AtTurn(p.steps, p.reg, e.stamp).entries
    decreases visits
  {
    FirstIsEarliest(r.entries, cur, limit);
    var next := First(r.entries, cur, limit);
    if next.Some? {
      RunKeeps(policy, visits.body, r);
      var after := Run(policy, visits.body, r).reg;
      var tail := Walk(policy, visits.rest, after, next.value.stamp, limit);
      var step := Step(next.value, r, after);
      if next.value.stamp < e.stamp {
        VisitedExactlyWhenRegisteredAtTurn(policy, visits.rest, after, next.value.stamp, limit, e);
        TurnIsLater(step, tail.steps, tail.reg, e);
      } else {
        VisitsAreRegistered(policy, visits.rest, after, next.value.stamp, limit);
        TurnIsNow(step, tail.steps, tail.reg, limit, e);
      }
    }
  }

  lemma TurnIsLater(step: Step, rest: seq<Step>, last: Registry, e: Entry)
    requires step.entry.stamp < e.stamp && (Visited(rest, e) <==> e in AtTurn(rest, last, e.stamp).entries)
    ensures Visited([step] + rest, e) <==> e in AtTurn([step] + rest, last, e.stamp).entries
  {
    var steps := [step] + rest;
    assert steps[1..] == rest;
    if Visited(rest, e) {
      var i :| 0 <= i < |rest| && rest[i].entry == e;
      assert steps[i + 1].entry == e;
    }
  }

  lemma TurnIsNow(step: Step, rest: seq<Step>, last: Registry, limit: Limit, e: Entry)
    requires e.stamp <= step.entry.stamp && EachRegistered(rest, step.entry.stamp, limit)
    requires e in step.before.entries <==> e == step.entry
    ensures Visited([step] + rest, e) <==> e in AtTurn([step] + rest, last, e.stamp).entries
  {
    var steps := [step] + rest;
    assert steps[0] == step;
  }

  /** A registration still there at the end of a complete traversal was there when its turn came. */
  lemma {:induction false} KeptWasThereAtTurn(steps: seq<Step>, last: Registry, e: Entry)
    requires e in last.entries
    requires forall i :: 0 <= i < |steps| ==> Later(steps[i].before, last)
    requires forall i :: 0 <= i < |steps| ==> e.stamp < steps[i].before.next || steps[i].entry.stamp < e.stamp
    ensures e in AtTurn(steps, last, e.stamp).entries
  {
    if steps != [] && steps[0].entry.stamp < e.stamp {
      KeptWasThereAtTurn(steps[1..], last, e);
    }
  }

  /** Everything registered at the end of a complete traversal and inside its window was visited:
      the observers registered throughout and, under `All`, also those added and kept. */
  lemma KeptIsVisited(policy: Policy, visits: Visits, r: Registry, cur: int, limit: Limit, e: Entry)
    requires WellFormed(r) && InWindow(e.stamp, cur, limit)
    requires Walk(policy, visits, r, cur, limit).complete
    requires e in Walk(policy, visits, r, cur, limit).reg.entries
    ensures Visited(Walk(policy, visits, r, cur, limit).steps, e)
  {
    var p := Walk(policy, visits, r, cur, limit);
    StepsAreHistory(policy, visits, r, cur, limit);
    VisitsAreRegistered(policy, visits, r, cur, limit);
    KeptWasThereAtTurn(p.steps, p.reg, e);
    VisitedExactlyWhenRegisteredAtTurn(policy, visits, r, cur, limit, e);
  }

  /** Visit `i` reaches the registration `e`, and no other visit notifies its observer. */
  ghost predicate OnlyVisit(steps: seq<Step>, e: Entry, i: nat) {
    && i < |steps| && steps[i].entry == e
    && forall j :: 0 <= j < |steps| && j != i ==> steps[j].entry.obs != e.obs
  }

  lemma OneVisitPerObserver(r: Registry, steps: seq<Step>, last: Registry, e: Entry, i: nat)
    requires InOrder(steps) && EachRegistered(steps, -1, Unlimited) && History(r, steps, last)
    requires WellFormed(r) && e in r.entries && e in last.entries
    requires i < |steps| && steps[i].entry == e
    ensures OnlyVisit(steps, e, i)
  {
    forall j | 0 <= j < |steps| && j != i ensures steps[j].entry.obs != e.obs {
      assert e in steps[j].before.entries;
    }
  }

  /** An observer registered throughout a complete traversal is notified exactly once. */
  lemma RegisteredThroughoutIsNotifiedOnce(policy: Policy, visits: Visits, r: Registry, e: Entry)
    requires WellFormed(r) && e in r.entries
    requires Walk(policy, visits, r, -1, StartLimit(policy, r)).complete
    requires e in Walk(policy, visits, r, -1, StartLimit(policy, r)).reg.entries
    ensures exists i :: OnlyVisit(Walk(policy, visits, r, -1, StartLimit(policy, r)).steps, e, i)
  {
    var limit := StartLimit(policy, r);
    var p := Walk(policy, visits, r, -1, limit);
    KeptIsVisited(policy, visits, r, -1, limit, e);
    StepsAreHistory(policy, visits, r, -1, limit);
    VisitsInOrder(policy, visits, r, -1, limit);
    VisitsAreRegistered(policy, visits, r, -1, limit);
    var i :| 0 <= i < |p.steps| && p.steps[i].entry == e;
    OneVisitPerObserver(r, p.steps, p.reg, e, i);
  }

  /** Under `ExistingOnly` nothing added during the traversal is visited, so the traversal makes at
      most as many visits as there were registrations when it started. */
  lemma ExistingOnlyVisitsExisting(visits: Visits, r: Registry)
    requires WellFormed(r)
    ensures var steps := Walk(ExistingOnly, visits, r, -1, StartLimit(ExistingOnly, r)).steps;
            && (forall i :: 0 <= i < |steps| ==> steps[i].entry in r.entries)
            && |steps| <= |r.entries|
  {
    var steps := Walk(ExistingOnly, visits, r, -1, StartLimit(ExistingOnly, r)).steps;
    StepsAreHistory(ExistingOnly, visits, r, -1, StartLimit(ExistingOnly, r));
    VisitsInOrder(ExistingOnly, visits, r, -1, StartLimit(ExistingOnly, r));
    VisitsAreRegistered(ExistingOnly, visits, r, -1, StartLimit(ExistingOnly, r));
    forall i | 0 <= i < |steps| ensures steps[i].entry in r.entries {
      assert Later(r, steps[i].before);
    }
    StrictlyIncreasingSubset(seq(|steps|, i requires 0 <= i < |steps| => steps[i].entry), r.entries);
  }

  lemma {:induction false} StrictlyIncreasingSubset(some: seq<Entry>, entries: seq<Entry>)
    requires Ordered(some) && Ordered(entries)
    requires forall i :: 0 <= i < |some| ==> some[i] in entries
    ensures |some| <= |entries|
    decreases |entries|
  {
    if some != [] {
      var last := some[|some| - 1];
      var k :| 0 <= k < |entries| && entries[k] == last;
      var front := some[..|some| - 1];
      forall i | 0 <= i < |front| ensures front[i] in entries[..k] {
        var j :| 0 <= j < |entries| && entries[j] == some[i];
        assert entries[..k][j] == some[i];
      }
      StrictlyIncreasingSubset(front, entries[..k]);
    }
  }

  /** Under `All` an observer added during the traversal and kept to its end is visited too. */
  lemma AllVisitsAddedAndKept(visits: Visits, r: Registry, e: Entry)
    requires WellFormed(r)
    requires var p := Walk(All, visits, r, -1, StartLimit(All, r)); p.complete && e in p.reg.entries
    ensures Visited(Walk(All, visits, r, -1, StartLimit(All, r)).steps, e)
  {
    KeptIsVisited(All, visits, r, -1, StartLimit(All, r), e);
  }

  // ----- A traversal whose list is destroyed

  /** The visit that destroys the list is the last one. */
  ghost predicate EndsWhenDestroyed(steps: seq<Step>, last: Registry) {
    forall i :: 0 <= i < |steps| && !steps[i].after.alive ==> i == |steps| - 1 && !last.alive
  }

  /** A traversal during which the list is destroyed, by its own callback or in any traversal nested in it,
      visits nothing more and is over; so are all the traversals around it. */
  lemma {:induction false} DestructionEndsTraversal(policy: Policy, visits: Visits, r: Registry, cur: int, limit: Limit)
    requires WellFormed(r)
    ensures var p := Walk(policy, visits, r, cur, limit);
            EndsWhenDestroyed(p.steps, p.reg) && (!p.reg.alive ==> p.complete)
    decreases visits
  {
    var next := First(r.entries, cur, limit);
    if next.Some? && visits.Visit? {
      RunKeeps(policy, visits.body, r);
      DestructionEndsTraversal(policy, visits.rest, Run(policy, visits.body, r).reg, next.value.stamp, limit);
    }
  }

  /** Nothing is done to a destroyed list. */
  lemma {:induction false} DestroyedIsFinal(policy: Policy, script: Script, r: Registry)
    requires !r.alive
    ensures Run(policy, script, r) == Outcome(r, [])
  {
    if script.Do? {
      DestroyedIsFinal(policy, script.rest, r);
    }
  }

  // ----- What a whole run does, as a set of observers and nothing else

  ghost function Members(r: Registry): set<Observer> {
    set e | e in r.entries :: e.obs
  }

  /** The operations a script performs on the list, in order: those of its callbacks at any depth too, and
      none on a destroyed list. */
  ghost function Performed(policy: Policy, script: Script, r: Registry): seq<Op>
    decreases script
  {
    match script
    case Done => []
    case Do(op, rest) => PerformedByOp(policy, op, r) + Performed(policy, rest, RunOp(policy, op, r).reg)
  }

  ghost function PerformedByOp(policy: Policy, op: Op, r: Registry): seq<Op>
    decreases op
  {
    if !r.alive then []
    else if op.TraverseOp? then PerformedByWalk(policy, op.visits, r, -1, StartLimit(policy, r))
    else [op]
  }

  ghost function PerformedByWalk(policy: Policy, visits: Visits, r: Registry, cur: int, limit: Limit): seq<Op>
    decreases visits
  {
    var next := First(r.entries, cur, limit);
    if next.None? || visits.Leave? then []
    else
      Performed(policy, visits.body, r)
      + PerformedByWalk(policy, visits.rest, Run(policy, visits.body, r).reg, next.value.stamp, limit)
  }

  /** The observers left by a sequence of additions, removals, clearings and destructions. */
  function AfterAll(ops: seq<Op>, members: set<Observer>): set<Observer> {
    if ops == [] then members else AfterOne(ops[|ops| - 1], AfterAll(ops[..|ops| - 1], members))
  }

  function AfterOne(op: Op, members: set<Observer>): set<Observer> {
    match op
    case AddOp(o) => members + {o}
    case RemoveOp(o) => members - {o}
    case ClearOp => {}
    case TraverseOp(_) => members
    case DestroyOp => {}
  }

  lemma {:induction false} AfterAllConcat(a: seq<Op>, b: seq<Op>, members: set<Observer>)
    ensures AfterAll(a + b, members) == AfterAll(b, AfterAll(a, members))
  {
    if b == [] {
      assert a + b == a;
    } else {
      AfterAllConcat(a, b[..|b| - 1], members);
      assert (a + b)[..|a + b| - 1] == a + b[..|b| - 1];
    }
  }

  /** Adding registers the observer, as the latest registration, unless it is there; nothing else changes. */
  lemma AddsExactly(r: Registry, o: Observer, e: Entry)
    ensures e in Add(r, o).entries <==> e in r.entries || (!Registered(r.entries, o) && e == Entry(r.next, o))
    ensures Registered(Add(r, o).entries, o) && Add(r, o).alive == r.alive
    ensures Add(r, o).next == if Registered(r.entries, o) then r.next else r.next + 1
  {
    if !Registered(r.entries, o) {
      assert Add(r, o).entries[|r.entries|].obs == o;
    }
  }

  /** Removing unregisters the observer and no other. */
  lemma RemovesExactly(r: Registry, o: Observer, e: Entry)
    ensures e in Remove(r, o).entries <==> e in r.entries && e.obs != o
    ensures Remove(r, o).next == r.next && Remove(r, o).alive == r.alive
  {
    WithoutMembers(r.entries, o, e);
  }

  lemma RegisteredIsMember(r: Registry, o: Observer)
    ensures Registered(r.entries, o) <==> o in Members(r)
  {
    if Registered(r.entries, o) {
      var i :| 0 <= i < |r.entries| && r.entries[i].obs == o;
      assert r.entries[i] in r.entries;
    }
    if o in Members(r) {
      var e :| e in r.entries && e.obs == o;
      var i :| 0 <= i < |r.entries| && r.entries[i] == e;
    }
  }

  lemma AddMembers(r: Registry, o: Observer)
    ensures Members(Add(r, o)) == Members(r) + {o}
  {
    RegisteredIsMember(r, o);
    forall e
      ensures e in Add(r, o).entries <==> e in r.entries || (!Registered(r.entries, o) && e == Entry(r.next, o))
    {
      AddsExactly(r, o, e);
    }
    if !Registered(r.entries, o) {
      assert Entry(r.next, o) in Add(r, o).entries;
    }
  }

  lemma RemoveMembers(r: Registry, o: Observer)
    ensures Members(Remove(r, o)) == Members(r) - {o}
  {
    forall e ensures e in Remove(r, o).entries <==> e in r.entries && e.obs != o {
      RemovesExactly(r, o, e);
    }
  }

  /** After any script the registered observers are those that the operations performed leave, one after
      the other, callbacks of nested traversals included; only a destruction ends the list. */
  lemma {:induction false} RunLeavesMembers(policy: Policy, script: Script, r: Registry)
    requires WellFormed(r)
    ensures Members(Run(policy, script, r).reg) == AfterAll(Performed(policy, script, r), Members(r))
    ensures Run(policy, script, r).reg.alive <==> r.alive && DestroyOp !in Performed(policy, script, r)
    decreases script
  {
    if script.Do? {
      var after := RunOp(policy, script.op, r).reg;
      RunOpKeeps(policy, script.op, r);
      RunOpLeavesMembers(policy, script.op, r);
      RunLeavesMembers(policy, script.rest, after);
      AfterAllConcat(PerformedByOp(policy, script.op, r), Performed(policy, script.rest, after), Members(r));
    }
  }

  lemma {:induction false} RunOpLeavesMembers(policy: Policy, op: Op, r: Registry)
    requires WellFormed(r)
    ensures Members(RunOp(policy, op, r).reg) == AfterAll(PerformedByOp(policy, op, r), Members(r))
    ensures RunOp(policy, op, r).reg.alive <==> r.alive && DestroyOp !in PerformedByOp(policy, op, r)
    decreases op
  {
    if r.alive {
      if op.TraverseOp? {
        WalkLeavesMembers(policy, op.visits, r, -1, StartLimit(policy, r));
      } else {
        OneLeavesMembers(op, Members(r));
        AddMembers(r, if op.AddOp? then op.obs else 0);
        RemoveMembers(r, if op.RemoveOp? then op.obs else 0);
      }
    }
  }

  lemma OneLeavesMembers(op: Op, members: set<Observer>)
    ensures AfterAll([op], members) == AfterOne(op, members)
  {
    assert [op][..0] == [];
  }

  lemma {:induction false} WalkLeavesMembers(policy: Policy, visits: Visits, r: Registry, cur: int, limit: Limit)
    requires WellFormed(r)
    ensures Members(Walk(policy, visits, r, cur, limit).reg)
         == AfterAll(PerformedByWalk(policy, visits, r, cur, limit), Members(r))
    ensures Walk(policy, visits, r, cur, limit).reg.alive <==>
            r.alive && DestroyOp !in PerformedByWalk(policy, visits, r, cur, limit)
    decreases visits
  {
    var next := First(r.entries, cur, limit);
    if next.Some? && visits.Visit? {
      var after := Run(policy, visits.body, r).reg;
      RunKeeps(policy, visits.body, r);
      RunLeavesMembers(policy, visits.body, r);
      WalkLeavesMembers(policy, visits.rest, after, next.value.stamp, limit);
      AfterAllConcat(Performed(policy, visits.body, r),
                     PerformedByWalk(policy, visits.rest, after, next.value.stamp, limit), Members(r));
    }
  }

  // ----- When a traversal is complete

  function CountVisits(visits: Visits): nat {
    if visits.Leave? then 0 else 1 + CountVisits(visits.rest)
  }

  function LastStamp(steps: seq<Step>, cur: int): int {
    if steps == [] then cur else steps[|steps| - 1].entry.stamp
  }

  /** A traversal is complete exactly when nothing is left for it to visit; otherwise it was left, after as
      many visits as it was given. */
  lemma {:induction false} CompleteExactlyWhenNothingLeft(
    policy: Policy, visits: Visits, r: Registry, cur: int, limit: Limit)
    ensures var p := Walk(policy, visits, r, cur, limit);
            && (p.complete <==> First(p.reg.entries, LastStamp(p.steps, cur), limit).None?)
            && |p.steps| <= CountVisits(visits) && (!p.complete ==> |p.steps| == CountVisits(visits))
    decreases visits
  {
    var next := First(r.entries, cur, limit);
    if next.Some? && visits.Visit? {
      CompleteExactlyWhenNothingLeft(policy, visits.rest, Run(policy, visits.body, r).reg, next.value.stamp, limit);
    }
  }

  // ----- Traversals at every depth

  /** All the traversals a script makes, in the order in which they finish. */
  ghost function Passes(policy: Policy, script: Script, r: Registry): seq<Pass>
    decreases script
  {
    match script
    case Done => []
    case Do(op, rest) => PassesOfOp(policy, op, r) + Passes(policy, rest, RunOp(policy, op, r).reg)
  }

  ghost function PassesOfOp(policy: Policy, op: Op, r: Registry): seq<Pass>
    decreases op
  {
    if !r.alive || !op.TraverseOp? then []
    else
      PassesInWalk(policy, op.visits, r, -1, StartLimit(policy, r))
      + [Walk(policy, op.visits, r, -1, StartLimit(policy, r))]
  }

  ghost function PassesInWalk(policy: Policy, visits: Visits, r: Registry, cur: int, limit: Limit): seq<Pass>
    decreases visits
  {
    var next := First(r.entries, cur, limit);
    if next.None? || visits.Leave? then []
    else
      Passes(policy, visits.body, r)
      + PassesInWalk(policy, visits.rest, Run(policy, visits.body, r).reg, next.value.stamp, limit)
  }

  /** The pass is a whole traversal of a well-formed registry, so that all that is said of those holds. */
  ghost predicate IsTraversal(policy: Policy, p: Pass) {
    exists visits, r :: WellFormed(r) && p == Walk(policy, visits, r, -1, StartLimit(policy, r))
  }

  ghost predicate Logs(policy: Policy, log: seq<seq<Observer>>, passes: seq<Pass>) {
    && |log| == |passes|
    && forall i :: 0 <= i < |log| ==> IsTraversal(policy, passes[i]) && log[i] == Notified(passes[i].steps)
  }

  lemma LogsConcat(policy: Policy, a: seq<seq<Observer>>, p: seq<Pass>, b: seq<seq<Observer>>, q: seq<Pass>)
    requires Logs(policy, a, p) && Logs(policy, b, q)
    ensures Logs(policy, a + b, p + q)
  {}

  /** The log of a run lists exactly the observers notified by each of its traversals, at every depth. */
  lemma {:induction false} RunLogs(policy: Policy, script: Script, r: Registry)
    requires WellFormed(r)
    ensures Logs(policy, Run(policy, script, r).log, Passes(policy, script, r))
    decreases script
  {
    if script.Do? {
      var first := RunOp(policy, script.op, r);
      RunOpKeeps(policy, script.op, r);
      RunOpLogs(policy, script.op, r);
      RunLogs(policy, script.rest, first.reg);
      LogsConcat(policy, first.log, PassesOfOp(policy, script.op, r),
                 Run(policy, script.rest, first.reg).log, Passes(policy, script.rest, first.reg));
    }
  }

  lemma {:induction false} RunOpLogs(policy: Policy, op: Op, r: Registry)
    requires WellFormed(r)
    ensures Logs(policy, RunOp(policy, op, r).log, PassesOfOp(policy, op, r))
    decreases op
  {
    if r.alive && op.TraverseOp? {
      var p := Walk(policy, op.visits, r, -1, StartLimit(policy, r));
      WalkLogs(policy, op.visits, r, -1, StartLimit(policy, r));
      assert IsTraversal(policy, p);
      LogsConcat(policy, p.log, PassesInWalk(policy, op.visits, r, -1, StartLimit(policy, r)),
                 [Notified(p.steps)], [p]);
    }
  }

  lemma {:induction false} WalkLogs(policy: Policy, visits: Visits, r: Registry, cur: int, limit: Limit)
    requires WellFormed(r)
    ensures Logs(policy, Walk(policy, visits, r, cur, limit).log, PassesInWalk(policy, visits, r, cur, limit))
    decreases visits
  {
    var next := First(r.entries, cur, limit);
    if next.Some? && visits.Visit? {
      var ran := Run(policy, visits.body, r);
      RunKeeps(policy, visits.body, r);
      RunLogs(policy, visits.body, r);
      WalkLogs(policy, visits.rest, ran.reg, next.value.stamp, limit);
      LogsConcat(policy, ran.log, Passes(policy, visits.body, r),
                 Walk(policy, visits.rest, ran.reg, next.value.stamp, limit).log,
                 PassesInWalk(policy, visits.rest, ran.reg, next.value.stamp, limit));
    }
  }
}
