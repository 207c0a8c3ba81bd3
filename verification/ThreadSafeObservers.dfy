/**
  `ObserverListThreadSafe`: several lists and several task sequences, interleaved in every way.

  A region under the lock is one step.  `NotifyWrapper` is three: the locked check, the start of
  the callback, which saves and sets the thread-local notification, and its end, which restores
  it.  While a callback runs, its sequence may do anything, including run further tasks from a
  nested loop.
 */
module ThreadSafeObservers {
  import opened Wrappers

  /** An observer registered with a list. */
  datatype Key = Key(list: nat, obs: nat)

  /** A notification: the list it belongs to and which call made it. */
  datatype Note = Note(list: nat, call: nat)

  /** A pending `NotifyWrapper` call, with an identity of its own. */
  datatype Task = Task(uid: nat, key: Key, note: Note)

  /** `Checked`: the observer was found under the lock; the callback has not started.
      `Running`: the callback runs; `previous` is the saved notification.
      `SyncLoop`: calls `NotifySynchronously` has still to make on this sequence. */
  datatype Frame = Checked(task: Task) | Running(task: Task, previous: Option<Note>) | SyncLoop(rest: seq<Task>)

  /** One task sequence: its queue, its call stack and its thread-local current notification. */
  datatype Sequence = Sequence(queue: seq<Task>, stack: seq<Frame>, current: Option<Note>)

  /** `home` remembers the sequence of each latest registration; `posted`, `delivered` and
      `dropped` are histories. */
  datatype State = State(
    observers: map<Key, nat>, sequences: seq<Sequence>, home: map<Key, nat>, nextUid: nat,
    posted: multiset<Task>, delivered: multiset<Task>, dropped: multiset<Task>)

  datatype Step =
    | AddObserver(s: nat, key: Key)
    | RemoveObserver(s: nat, key: Key)
    | Notify(s: nat, list: nat, call: nat, order: seq<nat>)
    | NotifySynchronously(s: nat, list: nat, call: nat, order: seq<nat>)
    | RunTask(s: nat)
    | SyncNext(s: nat)
    | SyncDone(s: nat)
    | Start(s: nat)
    | Finish(s: nat)

  function Top(q: Sequence): Option<Frame> {
    if q.stack == [] then None else Some(q.stack[|q.stack| - 1])
  }

  function Below(q: Sequence): seq<Frame>
    requires q.stack != []
  {
    q.stack[..|q.stack| - 1]
  }

  /** The sequence runs code of its own: it is idle or inside a callback. */
  predicate Free(q: Sequence) {
    Top(q).None? || Top(q).value.Running?
  }

  /** Work for `key` that has not started its callback. */
  ghost predicate AwaitsIn(q: Sequence, key: Key) {
    || (exists i :: 0 <= i < |q.queue| && q.queue[i].key == key)
    || (exists i :: 0 <= i < |q.stack| && q.stack[i].Checked? && q.stack[i].task.key == key)
    || (exists i, j :: && 0 <= i < |q.stack| && q.stack[i].SyncLoop?
                       && 0 <= j < |q.stack[i].rest| && q.stack[i].rest[j].key == key)
  }

  /** `order` is the observers of `list`, in any order, as a hash map yields them. */
  ghost predicate Enumerates(st: State, list: nat, order: seq<nat>) {
    NoRepeats(order) && forall o :: o in order <==> Key(list, o) in st.observers
  }

  /** Observers are registered on sequences that exist (which every step keeps). */
  ghost predicate Placed(st: State) {
    forall key :: key in st.observers ==> st.observers[key] < |st.sequences|
  }

  ghost predicate Enabled(st: State, step: Step) {
    Placed(st) && step.s < |st.sequences| &&
    var q := st.sequences[step.s];
    match step
    case AddObserver(s, key) =>
      // An observer is not in the list twice, and is not registered on a sequence while work for it
      // waits on another.
      && Free(q) && key !in st.observers
      && forall t :: 0 <= t < |st.sequences| && t != s ==> !AwaitsIn(st.sequences[t], key)
    case RemoveObserver(_, _) => Free(q)
    case Notify(_, list, _, order) => Free(q) && Enumerates(st, list, order)
    case NotifySynchronously(_, list, _, order) => Free(q) && Enumerates(st, list, order)
    case RunTask(_) => Free(q) && q.queue != []
    case SyncNext(_) => Top(q).Some? && Top(q).value.SyncLoop? && Top(q).value.rest != []
    case SyncDone(_) => Top(q).Some? && Top(q).value.SyncLoop? && Top(q).value.rest == []
    case Start(_) => Top(q).Some? && Top(q).value.Checked?
    case Finish(_) => Top(q).Some? && Top(q).value.Running?
  }

  function Put(st: State, s: nat, q: Sequence): State
    requires s < |st.sequences|
  {
    st.(sequences := st.sequences[s := q])
  }

  /** Posts a task to a sequence. */
  function Post(st: State, s: nat, key: Key, note: Note): State
    requires s < |st.sequences|
  {
    var task := Task(st.nextUid, key, note);
    var q := st.sequences[s];
    Put(st, s, q.(queue := q.queue + [task])).(nextUid := st.nextUid + 1, posted := st.posted + multiset{task})
  }

  /** Posts to every observer in `order` on its own sequence, except those of sequence `self`. */
  ghost function PostAll(st: State, list: nat, call: nat, order: seq<nat>, self: Option<nat>): (r: State)
    requires Placed(st)
    ensures r.observers == st.observers && |r.sequences| == |st.sequences|
    ensures r.delivered == st.delivered && r.dropped == st.dropped && st.posted <= r.posted && st.nextUid <= r.nextUid
    decreases order
  {
    if order == [] then st
    else
      var key := Key(list, order[0]);
      if key in st.observers && Some(st.observers[key]) != self
      then PostAll(Post(st, st.observers[key], key, Note(list, call)), list, call, order[1..], self)
      else PostAll(st, list, call, order[1..], self)
  }

  /** The calls to make directly on sequence `s`. */
  function Own(st: State, list: nat, call: nat, order: seq<nat>, s: nat, uid: nat): seq<Task> {
    if order == [] then []
    else if Key(list, order[0]) in st.observers && st.observers[Key(list, order[0])] == s
    then [Task(uid, Key(list, order[0]), Note(list, call))] + Own(st, list, call, order[1..], s, uid + 1)
    else Own(st, list, call, order[1..], s, uid)
  }

  /** The locked check of `NotifyWrapper` for `task` on a sequence left as `q`. */
  function Check(st: State, s: nat, q: Sequence, task: Task): State
    requires s < |st.sequences|
  {
    if task.key in st.observers
    then Put(st, s, q.(stack := q.stack + [Checked(task)]))
    else Put(st, s, q).(dropped := st.dropped + multiset{task})
  }

  /** `all` is the set of lists with policy `ALL`. */
  ghost function Apply(st: State, step: Step, all: set<nat>): State
    requires Enabled(st, step)
  {
    var q := st.sequences[step.s];
    match step
    case AddObserver(s, key) =>
      var st1 := st.(observers := st.observers[key := s], home := st.home[key := s]);
      if key.list in all && q.current.Some? && q.current.value.list == key.list
      then Post(st1, s, key, q.current.value)
      else st1
    case RemoveObserver(s, key) => st.(observers := st.observers - {key})
    case Notify(s, list, call, order) => PostAll(st, list, call, order, None)
    case NotifySynchronously(s, list, call, order) =>
      var st1 := PostAll(st, list, call, order, Some(s));
      var own := Own(st, list, call, order, s, st1.nextUid);
      Put(st1, s, st1.sequences[s].(stack := st1.sequences[s].stack + [SyncLoop(own)]))
        .(nextUid := st1.nextUid + |own|, posted := st1.posted + multiset(own))
    case RunTask(s) => Check(st, s, q.(queue := q.queue[1..]), q.queue[0])
    case SyncNext(s) =>
      var loop := Top(q).value;
      Check(st, s, q.(stack := Below(q) + [SyncLoop(loop.rest[1..])]), loop.rest[0])
    case SyncDone(s) => Put(st, s, q.(stack := Below(q)))
    case Start(s) =>
      var task := Top(q).value.task;
      Put(st, s, q.(stack := Below(q) + [Running(task, q.current)], current := Some(task.note)))
        .(delivered := st.delivered + multiset{task})
    case Finish(s) => Put(st, s, q.(stack := Below(q), current := Top(q).value.previous))
  }

  function Initial(n: nat): State {
    State(map[], seq(n, i => Sequence([], [], None)), map[], 0, multiset{}, multiset{}, multiset{})
  }

  ghost function Next(st: State, step: Step, all: set<nat>): State {
    if Enabled(st, step) then Apply(st, step, all) else st
  }

  /** The state after a run over `n` sequences; a step that is not enabled does nothing. */
  ghost function Exec(n: nat, steps: seq<Step>, all: set<nat>): State {
    if steps == [] then Initial(n) else Next(Exec(n, steps[..|steps| - 1], all), steps[|steps| - 1], all)
  }

  // ----- The thread-local notification follows a stack discipline

  /** The notification of the innermost running callback. */
  function Innermost(stack: seq<Frame>): Option<Note> {
    if stack == [] then None
    else if stack[|stack| - 1].Running? then Some(stack[|stack| - 1].task.note)
    else Innermost(stack[..|stack| - 1])
  }

  /** Each running callback saved what was innermost below it, and only the top frame can be a check
      whose callback has not started. */
  ghost predicate Disciplined(q: Sequence) {
    && q.current == Innermost(q.stack)
    && (forall k {:trigger Saved(q.stack, k)} :: 0 <= k < |q.stack| ==> Saved(q.stack, k))
    && OnlyTopChecked(q.stack)
  }

  ghost predicate OnlyTopChecked(stack: seq<Frame>) {
    forall k :: 0 <= k < |stack| - 1 ==> !stack[k].Checked?
  }

  ghost predicate Saved(stack: seq<Frame>, k: nat)
    requires k < |stack|
  {
    stack[k].Running? ==> stack[k].previous == Innermost(stack[..k])
  }

  lemma SavedBelow(stack: seq<Frame>, f: Frame, k: nat)
    requires k < |stack|
    ensures Saved(stack + [f], k) <==> Saved(stack, k)
  {
    assert (stack + [f])[..k] == stack[..k];
  }

  lemma InnermostPush(stack: seq<Frame>, f: Frame)
    ensures Innermost(stack + [f]) == if f.Running? then Some(f.task.note) else Innermost(stack)
  {
    assert (stack + [f])[..|stack|] == stack;
  }

  /** A frame may be pushed if it saves what is innermost below it. */
  lemma FramePushed(q: Sequence, f: Frame)
    requires Disciplined(q) && (f.Running? ==> f.previous == q.current) && (Top(q).Some? ==> !Top(q).value.Checked?)
    ensures Disciplined(Sequence(q.queue, q.stack + [f], Innermost(q.stack + [f])))
  {
    CheckedPushed(q.stack, f);
    forall k | 0 <= k < |q.stack + [f]| ensures Saved(q.stack + [f], k) {
      if k < |q.stack| {
        assert Saved(q.stack, k);
        SavedBelow(q.stack, f, k);
      } else {
        SavedTop(q.stack, f);
      }
    }
  }

  lemma SavedTop(stack: seq<Frame>, f: Frame)
    requires f.Running? ==> f.previous == Innermost(stack)
    ensures Saved(stack + [f], |stack|)
  {
    assert (stack + [f])[..|stack|] == stack;
  }

  lemma CheckedPushed(stack: seq<Frame>, f: Frame)
    requires OnlyTopChecked(stack) && (stack != [] ==> !stack[|stack| - 1].Checked?)
    ensures OnlyTopChecked(stack + [f])
  {}

  lemma PushDisciplined(q: Sequence, f: Frame)
    requires Disciplined(q) && !f.Running? && (Top(q).Some? ==> !Top(q).value.Checked?)
    ensures Disciplined(q.(stack := q.stack + [f]))
  {
    FramePushed(q, f);
    InnermostPush(q.stack, f);
  }

  lemma StartDisciplined(q: Sequence, task: Task)
    requires Disciplined(q) && (Top(q).Some? ==> !Top(q).value.Checked?)
    ensures Disciplined(q.(stack := q.stack + [Running(task, q.current)], current := Some(task.note)))
  {
    FramePushed(q, Running(task, q.current));
    InnermostPush(q.stack, Running(task, q.current));
  }

  lemma PopDisciplined(q: Sequence)
    requires Disciplined(q) && Top(q).Some?
    ensures Disciplined(q.(stack := Below(q), current := Innermost(Below(q))))
    ensures Top(q).value.Running? ==> Top(q).value.previous == Innermost(Below(q))
    ensures !Top(q).value.Running? ==> q.current == Innermost(Below(q))
  {
    assert q.stack == Below(q) + [Top(q).value] && Saved(q.stack, |q.stack| - 1);
    forall k | 0 <= k < |Below(q)| ensures Saved(Below(q), k) {
      assert Saved(q.stack, k);
      SavedBelow(Below(q), Top(q).value, k);
    }
    InnermostPush(Below(q), Top(q).value);
  }

  ghost predicate AllDisciplined(st: State) {
    forall s :: 0 <= s < |st.sequences| ==> Disciplined(st.sequences[s])
  }

  lemma {:induction false} PostAllDisciplined(st: State, list: nat, call: nat, order: seq<nat>, self: Option<nat>)
    requires Placed(st) && AllDisciplined(st)
    ensures AllDisciplined(PostAll(st, list, call, order, self))
    decreases order
  {
    if order != [] {
      var key := Key(list, order[0]);
      if key in st.observers && Some(st.observers[key]) != self {
        PostAllDisciplined(Post(st, st.observers[key], key, Note(list, call)), list, call, order[1..], self);
      } else {
        PostAllDisciplined(st, list, call, order[1..], self);
      }
    }
  }

  lemma CheckDisciplined(st: State, s: nat, q: Sequence, task: Task)
    requires AllDisciplined(st) && s < |st.sequences| && Disciplined(q) && (Top(q).Some? ==> !Top(q).value.Checked?)
    ensures AllDisciplined(Check(st, s, q, task))
  {
    PushDisciplined(q, Checked(task));
  }

  lemma SyncNextDisciplined(q: Sequence)
    requires Disciplined(q) && Top(q).Some? && Top(q).value.SyncLoop? && Top(q).value.rest != []
    ensures Disciplined(q.(stack := Below(q) + [SyncLoop(Top(q).value.rest[1..])]))
  {
    PopDisciplined(q);
    PushDisciplined(q.(stack := Below(q), current := Innermost(Below(q))), SyncLoop(Top(q).value.rest[1..]));
  }

  lemma PutDisciplined(st: State, s: nat, q: Sequence)
    requires AllDisciplined(st) && s < |st.sequences| && Disciplined(q)
    ensures AllDisciplined(Put(st, s, q))
  {}

  lemma SynchronouslyDisciplined(st: State, s: nat, list: nat, call: nat, order: seq<nat>, all: set<nat>)
    requires AllDisciplined(st) && Enabled(st, NotifySynchronously(s, list, call, order))
    ensures AllDisciplined(Apply(st, NotifySynchronously(s, list, call, order), all))
  {
    PostAllDisciplined(st, list, call, order, Some(s));
    PostAllKeepsStacks(st, list, call, order, Some(s), s);
    var st1 := PostAll(st, list, call, order, Some(s));
    var loop := SyncLoop(Own(st, list, call, order, s, st1.nextUid));
    PushDisciplined(st1.sequences[s], loop);
    PutDisciplined(st1, s, st1.sequences[s].(stack := st1.sequences[s].stack + [loop]));
  }

  lemma TopDisciplined(st: State, step: Step, all: set<nat>)
    requires AllDisciplined(st) && Enabled(st, step) && (step.SyncDone? || step.Start? || step.Finish?)
    ensures AllDisciplined(Apply(st, step, all))
  {
    var q := st.sequences[step.s];
    PopDisciplined(q);
    var below := q.(stack := Below(q), current := Innermost(Below(q)));
    if step.Start? {
      BelowNotChecked(q);
      StartDisciplined(below, Top(q).value.task);
    }
    PutDisciplined(st, step.s, Apply(st, step, all).sequences[step.s]);
  }

  lemma BelowNotChecked(q: Sequence)
    requires Disciplined(q) && Top(q).Some?
    ensures Below(q) != [] ==> !Below(q)[|Below(q)| - 1].Checked?
  {}

  lemma StepDisciplined(st: State, step: Step, all: set<nat>)
    requires AllDisciplined(st) && Enabled(st, step)
    ensures AllDisciplined(Apply(st, step, all))
  {
    var q := st.sequences[step.s];
    match step
    case AddObserver(s, key) =>
    case RemoveObserver(s, key) =>
    case Notify(s, list, call, order) => PostAllDisciplined(st, list, call, order, None);
    case NotifySynchronously(s, list, call, order) => SynchronouslyDisciplined(st, s, list, call, order, all);
    case RunTask(s) => CheckDisciplined(st, s, q.(queue := q.queue[1..]), q.queue[0]);
    case SyncNext(s) =>
      SyncNextDisciplined(q);
      CheckDisciplined(st, s, q.(stack := Below(q) + [SyncLoop(Top(q).value.rest[1..])]), Top(q).value.rest[0]);
    case _ => TopDisciplined(st, step, all);
  }

  lemma {:induction false} PostAllKeepsStacks(
    st: State, list: nat, call: nat, order: seq<nat>, self: Option<nat>, s: nat)
    requires Placed(st) && s < |st.sequences|
    ensures PostAll(st, list, call, order, self).sequences[s].stack == st.sequences[s].stack
    decreases order
  {
    if order != [] {
      var key := Key(list, order[0]);
      if key in st.observers && Some(st.observers[key]) != self {
        PostAllKeepsStacks(Post(st, st.observers[key], key, Note(list, call)), list, call, order[1..], self, s);
      } else {
        PostAllKeepsStacks(st, list, call, order[1..], self, s);
      }
    }
  }

  // ----- Every posted task is delivered, dropped or pending

  function StackCount(stack: seq<Frame>, t: Task): nat {
    if stack == [] then 0
    else
      var n := |stack| - 1;
      StackCount(stack[..n], t) + FrameCount(stack[n], t)
  }

  function FrameCount(f: Frame, t: Task): nat {
    match f
    case SyncLoop(rest) => multiset(rest)[t]
    case Checked(task) => multiset{task}[t]
    case Running(_, _) => 0
  }

  /** How often `t` is pending on a sequence. */
  function Pending(q: Sequence, t: Task): nat {
    multiset(q.queue)[t] + StackCount(q.stack, t)
  }

  function PendingAnywhere(sequences: seq<Sequence>, t: Task): nat {
    if sequences == [] then 0
    else PendingAnywhere(sequences[..|sequences| - 1], t) + Pending(sequences[|sequences| - 1], t)
  }

  lemma {:induction false} PendingUpdate(sequences: seq<Sequence>, s: nat, q: Sequence, t: Task)
    requires s < |sequences|
    ensures PendingAnywhere(sequences[s := q], t)
            == PendingAnywhere(sequences, t) - Pending(sequences[s], t) + Pending(q, t)
  {
    var n := |sequences| - 1;
    if s < n {
      PendingUpdate(sequences[..n], s, q, t);
      assert sequences[s := q][..n] == sequences[..n][s := q];
    } else {
      assert sequences[s := q][..n] == sequences[..n];
    }
  }

  lemma StackCountPush(stack: seq<Frame>, f: Frame, t: Task)
    ensures StackCount(stack + [f], t) == StackCount(stack, t) + FrameCount(f, t)
  {
    assert (stack + [f])[..|stack|] == stack;
  }

  /** Task `t` is posted at most once, and if it is, it is in exactly one place: delivered, dropped or
      pending. */
  ghost predicate Conserved(st: State, t: Task) {
    && st.posted[t] == st.delivered[t] + st.dropped[t] + PendingAnywhere(st.sequences, t)
    && st.posted[t] <= 1 && (st.nextUid <= t.uid ==> st.posted[t] == 0)
  }

  lemma PostConserved(st: State, s: nat, key: Key, note: Note, t: Task)
    requires Conserved(st, t) && s < |st.sequences|
    ensures Conserved(Post(st, s, key, note), t)
  {
    var q := st.sequences[s];
    PendingUpdate(st.sequences, s, q.(queue := q.queue + [Task(st.nextUid, key, note)]), t);
  }

  lemma {:induction false} PostAllConserved(
    st: State, list: nat, call: nat, order: seq<nat>, self: Option<nat>, t: Task)
    requires Placed(st) && Conserved(st, t)
    ensures Conserved(PostAll(st, list, call, order, self), t)
    decreases order
  {
    if order != [] {
      var key := Key(list, order[0]);
      if key in st.observers && Some(st.observers[key]) != self {
        PostConserved(st, st.observers[key], key, Note(list, call), t);
        PostAllConserved(Post(st, st.observers[key], key, Note(list, call)), list, call, order[1..], self, t);
      } else {
        PostAllConserved(st, list, call, order[1..], self, t);
      }
    }
  }

  /** The tasks have consecutive identities from `uid` and belong to observers of sequence `s`. */
  ghost predicate Fresh(own: seq<Task>, observers: map<Key, nat>, s: nat, uid: nat) {
    forall i :: 0 <= i < |own| ==> own[i].uid == uid + i && own[i].key in observers && observers[own[i].key] == s
  }

  lemma {:induction false} OwnFresh(st: State, list: nat, call: nat, order: seq<nat>, s: nat, uid: nat)
    ensures Fresh(Own(st, list, call, order, s, uid), st.observers, s, uid)
  {
    if order != [] {
      if Key(list, order[0]) in st.observers && st.observers[Key(list, order[0])] == s {
        OwnFresh(st, list, call, order[1..], s, uid + 1);
      } else {
        OwnFresh(st, list, call, order[1..], s, uid);
      }
    }
  }

  lemma {:induction false} FreshCount(own: seq<Task>, observers: map<Key, nat>, s: nat, uid: nat, t: Task)
    requires Fresh(own, observers, s, uid)
    ensures multiset(own)[t] <= 1 && (t.uid < uid || uid + |own| <= t.uid ==> multiset(own)[t] == 0)
  {
    if own != [] {
      var front, last := own[..|own| - 1], own[|own| - 1];
      FreshCount(front, observers, s, uid, t);
      assert own == front + [last];
    }
  }

  lemma SyncConserved(st: State, s: nat, own: seq<Task>, t: Task)
    requires Conserved(st, t) && s < |st.sequences| && Fresh(own, st.observers, s, st.nextUid)
    ensures var q := st.sequences[s];
            Conserved(Put(st, s, q.(stack := q.stack + [SyncLoop(own)]))
                        .(nextUid := st.nextUid + |own|, posted := st.posted + multiset(own)), t)
  {
    var q := st.sequences[s];
    FreshCount(own, st.observers, s, st.nextUid, t);
    StackCountPush(q.stack, SyncLoop(own), t);
    PendingUpdate(st.sequences, s, q.(stack := q.stack + [SyncLoop(own)]), t);
  }

  lemma CheckConserved(st: State, s: nat, q: Sequence, task: Task, t: Task)
    requires Conserved(st, t) && s < |st.sequences|
    requires Pending(q, t) + multiset{task}[t] == Pending(st.sequences[s], t)
    ensures Conserved(Check(st, s, q, task), t)
  {
    if task.key in st.observers {
      StackCountPush(q.stack, Checked(task), t);
      PendingUpdate(st.sequences, s, q.(stack := q.stack + [Checked(task)]), t);
    } else {
      PendingUpdate(st.sequences, s, q, t);
    }
  }

  lemma MoveConserved(st: State, s: nat, q: Sequence, t: Task)
    requires Conserved(st, t) && s < |st.sequences| && Pending(q, t) == Pending(st.sequences[s], t)
    ensures Conserved(Put(st, s, q), t)
  {
    PendingUpdate(st.sequences, s, q, t);
  }

  lemma TopCount(q: Sequence, f: Frame, t: Task)
    requires Top(q).Some?
    ensures StackCount(q.stack, t) == StackCount(Below(q), t) + FrameCount(Top(q).value, t)
    ensures StackCount(Below(q) + [f], t) == StackCount(Below(q), t) + FrameCount(f, t)
  {
    StackCountPush(Below(q), f, t);
  }

  lemma StartConserved(st: State, s: nat, t: Task)
    requires Conserved(st, t) && Enabled(st, Start(s))
    ensures Conserved(Apply(st, Start(s), {}), t)
  {
    var q := st.sequences[s];
    TopCount(q, Running(Top(q).value.task, q.current), t);
    PendingUpdate(st.sequences, s, Apply(st, Start(s), {}).sequences[s], t);
  }

  lemma SyncNextConserved(st: State, s: nat, t: Task)
    requires Conserved(st, t) && Enabled(st, SyncNext(s))
    ensures Conserved(Apply(st, SyncNext(s), {}), t)
  {
    var q := st.sequences[s];
    var rest := Top(q).value.rest;
    assert rest == [rest[0]] + rest[1..];
    TopCount(q, SyncLoop(rest[1..]), t);
    CheckConserved(st, s, q.(stack := Below(q) + [SyncLoop(rest[1..])]), rest[0], t);
  }

  lemma RunTaskConserved(st: State, s: nat, t: Task)
    requires Conserved(st, t) && Enabled(st, RunTask(s))
    ensures Conserved(Apply(st, RunTask(s), {}), t)
  {
    var q := st.sequences[s];
    assert q.queue == [q.queue[0]] + q.queue[1..];
    CheckConserved(st, s, q.(queue := q.queue[1..]), q.queue[0], t);
  }

  lemma SynchronouslyConserved(st: State, s: nat, list: nat, call: nat, order: seq<nat>, t: Task)
    requires Conserved(st, t) && Enabled(st, NotifySynchronously(s, list, call, order))
    ensures Conserved(Apply(st, NotifySynchronously(s, list, call, order), {}), t)
  {
    PostAllConserved(st, list, call, order, Some(s), t);
    var st1 := PostAll(st, list, call, order, Some(s));
    OwnFresh(st, list, call, order, s, st1.nextUid);
    SyncConserved(st1, s, Own(st, list, call, order, s, st1.nextUid), t);
  }

  lemma StepConserved(st: State, step: Step, all: set<nat>, t: Task)
    requires Conserved(st, t) && Enabled(st, step)
    ensures Conserved(Apply(st, step, all), t)
  {
    var q := st.sequences[step.s];
    match step
    case AddObserver(s, key) =>
      if q.current.Some? {
        PostConserved(st.(observers := st.observers[key := s], home := st.home[key := s]), s, key, q.current.value, t);
      }
    case RemoveObserver(s, key) =>
    case Notify(s, list, call, order) => PostAllConserved(st, list, call, order, None, t);
    case NotifySynchronously(s, list, call, order) => SynchronouslyConserved(st, s, list, call, order, t);
    case RunTask(s) => RunTaskConserved(st, s, t);
    case SyncNext(s) => SyncNextConserved(st, s, t);
    case SyncDone(s) =>
      TopCount(q, SyncLoop([]), t);
      MoveConserved(st, s, q.(stack := Below(q)), t);
    case Start(s) => StartConserved(st, s, t);
    case Finish(s) =>
      TopCount(q, Top(q).value, t);
      MoveConserved(st, s, Apply(st, step, all).sequences[s], t);
  }

  // ----- Work for an observer waits only on the sequence it registered on last

  ghost predicate TaskHome(t: Task, s: nat, home: map<Key, nat>) {
    t.key in home && home[t.key] == s
  }

  ghost predicate FrameHome(f: Frame, s: nat, home: map<Key, nat>) {
    match f
    case Checked(t) => TaskHome(t, s, home)
    case Running(_, _) => true
    case SyncLoop(rest) => forall j :: 0 <= j < |rest| ==> TaskHome(rest[j], s, home)
  }

  ghost predicate HomeAt(q: Sequence, s: nat, home: map<Key, nat>) {
    && (forall i :: 0 <= i < |q.queue| ==> TaskHome(q.queue[i], s, home))
    && (forall i :: 0 <= i < |q.stack| ==> FrameHome(q.stack[i], s, home))
  }

  ghost predicate AllHome(st: State) {
    && Placed(st)
    && (forall key :: key in st.observers ==> key in st.home && st.home[key] == st.observers[key])
    && (forall s :: 0 <= s < |st.sequences| ==> HomeAt(st.sequences[s], s, st.home))
  }

  lemma MovedHome(q: Sequence, s: nat, home: map<Key, nat>, key: Key, s': nat)
    requires HomeAt(q, s, home) && !AwaitsIn(q, key)
    ensures HomeAt(q, s, home[key := s'])
  {
    forall i | 0 <= i < |q.stack| ensures FrameHome(q.stack[i], s, home[key := s']) {
      assert FrameHome(q.stack[i], s, home);
    }
  }

  lemma StayedHome(q: Sequence, s: nat, home: map<Key, nat>, key: Key)
    requires HomeAt(q, s, home)
    ensures HomeAt(q, s, home[key := s])
  {
    forall i | 0 <= i < |q.stack| ensures FrameHome(q.stack[i], s, home[key := s]) {
      assert FrameHome(q.stack[i], s, home);
    }
  }

  lemma RegisterHome(st: State, s: nat, key: Key)
    requires AllHome(st) && s < |st.sequences|
    requires forall t :: 0 <= t < |st.sequences| && t != s ==> !AwaitsIn(st.sequences[t], key)
    ensures AllHome(st.(observers := st.observers[key := s], home := st.home[key := s]))
  {
    forall t | 0 <= t < |st.sequences| ensures HomeAt(st.sequences[t], t, st.home[key := s]) {
      if t == s {
        StayedHome(st.sequences[t], t, st.home, key);
      } else {
        MovedHome(st.sequences[t], t, st.home, key, s);
      }
    }
  }

  lemma PutHome(st: State, s: nat, q: Sequence)
    requires AllHome(st) && s < |st.sequences| && HomeAt(q, s, st.home)
    ensures AllHome(Put(st, s, q))
  {}

  lemma PostHome(st: State, s: nat, key: Key, note: Note)
    requires AllHome(st) && s < |st.sequences| && key in st.home && st.home[key] == s
    ensures AllHome(Post(st, s, key, note))
  {
    var q := st.sequences[s];
    PutHome(st, s, q.(queue := q.queue + [Task(st.nextUid, key, note)]));
  }

  lemma {:induction false} PostAllHome(st: State, list: nat, call: nat, order: seq<nat>, self: Option<nat>)
    requires AllHome(st)
    ensures AllHome(PostAll(st, list, call, order, self)) && PostAll(st, list, call, order, self).home == st.home
    decreases order
  {
    if order != [] {
      var key := Key(list, order[0]);
      if key in st.observers && Some(st.observers[key]) != self {
        PostHome(st, st.observers[key], key, Note(list, call));
        PostAllHome(Post(st, st.observers[key], key, Note(list, call)), list, call, order[1..], self);
      } else {
        PostAllHome(st, list, call, order[1..], self);
      }
    }
  }

  lemma CheckHome(st: State, s: nat, q: Sequence, task: Task)
    requires AllHome(st) && s < |st.sequences| && HomeAt(q, s, st.home) && TaskHome(task, s, st.home)
    ensures AllHome(Check(st, s, q, task))
  {
    PutHome(st, s, q);
    PutHome(st, s, q.(stack := q.stack + [Checked(task)]));
  }

  lemma SynchronouslyHome(st: State, s: nat, list: nat, call: nat, order: seq<nat>)
    requires AllHome(st) && Enabled(st, NotifySynchronously(s, list, call, order))
    ensures AllHome(Apply(st, NotifySynchronously(s, list, call, order), {}))
  {
    PostAllHome(st, list, call, order, Some(s));
    var st1 := PostAll(st, list, call, order, Some(s));
    var own := Own(st, list, call, order, s, st1.nextUid);
    OwnFresh(st, list, call, order, s, st1.nextUid);
    assert FrameHome(SyncLoop(own), s, st1.home);
    PutHome(st1, s, st1.sequences[s].(stack := st1.sequences[s].stack + [SyncLoop(own)]));
  }

  lemma SyncNextHome(st: State, s: nat)
    requires AllHome(st) && Enabled(st, SyncNext(s))
    ensures AllHome(Apply(st, SyncNext(s), {}))
  {
    var q := st.sequences[s];
    var rest := Top(q).value.rest;
    assert FrameHome(q.stack[|q.stack| - 1], s, st.home);
    CheckHome(st, s, q.(stack := Below(q) + [SyncLoop(rest[1..])]), rest[0]);
  }

  lemma StepHome(st: State, step: Step, all: set<nat>)
    requires AllHome(st) && Enabled(st, step)
    ensures AllHome(Apply(st, step, all))
  {
    var q := st.sequences[step.s];
    match step
    case AddObserver(s, key) =>
      RegisterHome(st, s, key);
      if q.current.Some? {
        PostHome(st.(observers := st.observers[key := s], home := st.home[key := s]), s, key, q.current.value);
      }
    case RemoveObserver(s, key) =>
    case Notify(s, list, call, order) => PostAllHome(st, list, call, order, None);
    case NotifySynchronously(s, list, call, order) => SynchronouslyHome(st, s, list, call, order);
    case RunTask(s) => CheckHome(st, s, q.(queue := q.queue[1..]), q.queue[0]);
    case SyncNext(s) => SyncNextHome(st, s);
    case SyncDone(s) => PutHome(st, s, Apply(st, step, all).sequences[s]);
    case Start(s) => PutHome(st, s, Apply(st, step, all).sequences[s]);
    case Finish(s) => PutHome(st, s, Apply(st, step, all).sequences[s]);
  }

  // ----- Every run

  ghost predicate Invariant(st: State) {
    AllDisciplined(st) && AllHome(st) && forall t :: Conserved(st, t)
  }

  lemma {:induction false} NothingPending(n: nat, t: Task)
    ensures PendingAnywhere(Initial(n).sequences, t) == 0
  {
    if n > 0 {
      NothingPending(n - 1, t);
      assert Initial(n).sequences[..n - 1] == Initial(n - 1).sequences;
    }
  }

  lemma {:induction false} EveryRunKeepsInvariant(n: nat, steps: seq<Step>, all: set<nat>)
    ensures Invariant(Exec(n, steps, all)) && |Exec(n, steps, all).sequences| == n
  {
    if steps == [] {
      forall t ensures Conserved(Initial(n), t) {
        NothingPending(n, t);
      }
    } else {
      EveryRunKeepsInvariant(n, steps[..|steps| - 1], all);
      var st, step := Exec(n, steps[..|steps| - 1], all), steps[|steps| - 1];
      if Enabled(st, step) {
        StepKeepsInvariant(st, step, all);
      }
    }
  }

  lemma StepKeepsInvariant(st: State, step: Step, all: set<nat>)
    requires Invariant(st) && Enabled(st, step)
    ensures Invariant(Apply(st, step, all)) && |Apply(st, step, all).sequences| == |st.sequences|
  {
    StepDisciplined(st, step, all);
    StepHome(st, step, all);
    forall t ensures Conserved(Apply(st, step, all), t) {
      StepConserved(st, step, all, t);
    }
  }

  /** In every interleaving a posted task is in exactly one place: delivered, which means that its
      callback has started, dropped at the locked check, or pending; nothing else is delivered or
      dropped. */
  lemma PostedTasksSplitExactly(n: nat, steps: seq<Step>, all: set<nat>, t: Task)
    ensures var st := Exec(n, steps, all);
            st.delivered[t] + st.dropped[t] + PendingAnywhere(st.sequences, t) == if t in st.posted then 1 else 0
  {
    EveryRunKeepsInvariant(n, steps, all);
    assert Conserved(Exec(n, steps, all), t);
  }

  /** The thread-local notification is that of the innermost running callback, so whenever the call
      stack of a sequence is back to what it was (after a `NotifyWrapper` call, say) the
      notification has its prior value. */
  lemma CurrentFollowsStack(n: nat, steps: seq<Step>, all: set<nat>, i: nat, s: nat)
    requires i <= |steps| && s < n
    ensures |Exec(n, steps, all).sequences| == |Exec(n, steps[..i], all).sequences| == n
    ensures Exec(n, steps, all).sequences[s].current == Innermost(Exec(n, steps, all).sequences[s].stack)
    ensures Exec(n, steps, all).sequences[s].stack == Exec(n, steps[..i], all).sequences[s].stack ==>
              Exec(n, steps, all).sequences[s].current == Exec(n, steps[..i], all).sequences[s].current
  {
    EveryRunKeepsInvariant(n, steps, all);
    EveryRunKeepsInvariant(n, steps[..i], all);
  }

  ghost predicate CatchesUp(st: State, s: nat, key: Key, all: set<nat>)
    requires s < |st.sequences|
  {
    var running := Innermost(st.sequences[s].stack);
    key.list in all && running.Some? && running.value.list == key.list
  }

  /** `AddObserver` posts exactly one catch-up task, to its own sequence and for the notification of
      the innermost running callback, if the list's policy is `ALL` and that notification belongs
      to this list; otherwise it posts nothing. */
  lemma AddObserverCatchesUp(n: nat, steps: seq<Step>, all: set<nat>, s: nat, key: Key)
    requires Enabled(Exec(n, steps, all), AddObserver(s, key))
    ensures var st := Exec(n, steps, all);
            var st' := Apply(st, AddObserver(s, key), all);
            && (CatchesUp(st, s, key, all) ==>
                  var task := Task(st.nextUid, key, Innermost(st.sequences[s].stack).value);
                  && task !in st.posted && st'.posted == st.posted + multiset{task}
                  && st'.sequences == st.sequences[s := st.sequences[s].(queue := st.sequences[s].queue + [task])])
            && (!CatchesUp(st, s, key, all) ==> st'.posted == st.posted && st'.sequences == st.sequences)
  {
    var st := Exec(n, steps, all);
    EveryRunKeepsInvariant(n, steps, all);
    assert Disciplined(st.sequences[s]);
    forall note ensures Task(st.nextUid, key, note) !in st.posted {
      assert Conserved(st, Task(st.nextUid, key, note));
    }
  }

  // ----- A notification reaches every observer once

  /** The tasks are one for each observer of `list` in `order` that is registered on sequence `s`. */
  ghost predicate OnePerObserver(
    tasks: seq<Task>, observers: map<Key, nat>, list: nat, call: nat, order: seq<nat>, s: nat)
  {
    && (forall i :: 0 <= i < |tasks| ==>
          && tasks[i].key.list == list && tasks[i].key.obs in order && tasks[i].note == Note(list, call)
          && tasks[i].key in observers && observers[tasks[i].key] == s)
    && (forall o :: o in order && Key(list, o) in observers && observers[Key(list, o)] == s ==>
          HasTaskFor(tasks, Key(list, o)))
    && (forall i, j :: 0 <= i < j < |tasks| ==> tasks[i].key != tasks[j].key)
  }

  ghost predicate HasTaskFor(tasks: seq<Task>, key: Key) {
    exists i :: 0 <= i < |tasks| && tasks[i].key == key
  }

  lemma OneMore(tasks: seq<Task>, observers: map<Key, nat>, list: nat, call: nat, order: seq<nat>, s: nat, task: Task)
    requires order != [] && order[0] !in order[1..] && OnePerObserver(tasks, observers, list, call, order[1..], s)
    requires task.key == Key(list, order[0]) && task.note == Note(list, call)
    requires task.key in observers && observers[task.key] == s
    ensures OnePerObserver([task] + tasks, observers, list, call, order, s)
  {
    var all := [task] + tasks;
    forall o | o in order && Key(list, o) in observers && observers[Key(list, o)] == s
      ensures HasTaskFor(all, Key(list, o))
    {
      if o == order[0] {
        assert all[0].key == Key(list, o);
      } else {
        assert HasTaskFor(tasks, Key(list, o));
        var i :| 0 <= i < |tasks| && tasks[i].key == Key(list, o);
        assert all[i + 1].key == Key(list, o);
      }
    }
  }

  lemma NoMore(tasks: seq<Task>, observers: map<Key, nat>, list: nat, call: nat, order: seq<nat>, s: nat)
    requires order != [] && OnePerObserver(tasks, observers, list, call, order[1..], s)
    requires Key(list, order[0]) in observers ==> observers[Key(list, order[0])] != s
    ensures OnePerObserver(tasks, observers, list, call, order, s)
  {}

  /** The tasks that posting to `order` adds to sequence `s`, which is not `self`. */
  function Sent(
    observers: map<Key, nat>, list: nat, call: nat, order: seq<nat>, self: Option<nat>, s: nat, uid: nat): seq<Task>
  {
    if order == [] then []
    else
      var key := Key(list, order[0]);
      if key !in observers || Some(observers[key]) == self then Sent(observers, list, call, order[1..], self, s, uid)
      else
        (if observers[key] == s then [Task(uid, key, Note(list, call))] else [])
        + Sent(observers, list, call, order[1..], self, s, uid + 1)
  }

  lemma PostSends(st: State, k: nat, key: Key, note: Note, s: nat)
    requires k < |st.sequences| && s < |st.sequences|
    ensures Post(st, k, key, note).sequences[s].queue
         == st.sequences[s].queue + if k == s then [Task(st.nextUid, key, note)] else []
    ensures Post(st, k, key, note).sequences[s].current == st.sequences[s].current
  {}

  lemma {:induction false} PostAllSends(st: State, list: nat, call: nat, order: seq<nat>, self: Option<nat>, s: nat)
    requires Placed(st) && s < |st.sequences|
    ensures PostAll(st, list, call, order, self).sequences[s].queue
         == st.sequences[s].queue + Sent(st.observers, list, call, order, self, s, st.nextUid)
    ensures PostAll(st, list, call, order, self).sequences[s].current == st.sequences[s].current
    decreases order
  {
    if order != [] {
      var key := Key(list, order[0]);
      if key in st.observers && Some(st.observers[key]) != self {
        PostSends(st, st.observers[key], key, Note(list, call), s);
        PostAllSends(Post(st, st.observers[key], key, Note(list, call)), list, call, order[1..], self, s);
        SendsFirst(st.observers, list, call, order, self, s, st.nextUid, st.sequences[s].queue);
      } else {
        PostAllSends(st, list, call, order[1..], self, s);
      }
    }
  }

  lemma SendsFirst(observers: map<Key, nat>, list: nat, call: nat, order: seq<nat>, self: Option<nat>, s: nat, uid: nat,
                   queue: seq<Task>)
    requires order != [] && Key(list, order[0]) in observers && Some(observers[Key(list, order[0])]) != self
    ensures var key := Key(list, order[0]);
            var first := if observers[key] == s then [Task(uid, key, Note(list, call))] else [];
            queue + Sent(observers, list, call, order, self, s, uid)
            == (queue + first) + Sent(observers, list, call, order[1..], self, s, uid + 1)
  {}

  lemma {:induction false} SentOnePerObserver(
    observers: map<Key, nat>, list: nat, call: nat, order: seq<nat>, self: Option<nat>, s: nat, uid: nat)
    requires NoRepeats(order) && Some(s) != self
    ensures OnePerObserver(Sent(observers, list, call, order, self, s, uid), observers, list, call, order, s)
  {
    if order != [] {
      var key := Key(list, order[0]);
      if key !in observers || Some(observers[key]) == self {
        SentOnePerObserver(observers, list, call, order[1..], self, s, uid);
        NoMore(Sent(observers, list, call, order[1..], self, s, uid), observers, list, call, order, s);
      } else {
        SentOnePerObserver(observers, list, call, order[1..], self, s, uid + 1);
        var tail := Sent(observers, list, call, order[1..], self, s, uid + 1);
        if observers[key] == s {
          OneMore(tail, observers, list, call, order, s, Task(uid, key, Note(list, call)));
        } else {
          NoMore(tail, observers, list, call, order, s);
          assert [] + tail == tail;
        }
      }
    }
  }

  lemma {:induction false} OwnOnePerObserver(st: State, list: nat, call: nat, order: seq<nat>, s: nat, uid: nat)
    requires NoRepeats(order)
    ensures OnePerObserver(Own(st, list, call, order, s, uid), st.observers, list, call, order, s)
  {
    if order != [] {
      var key := Key(list, order[0]);
      if key in st.observers && st.observers[key] == s {
        OwnOnePerObserver(st, list, call, order[1..], s, uid + 1);
        OneMore(Own(st, list, call, order[1..], s, uid + 1), st.observers, list, call, order, s,
                Task(uid, key, Note(list, call)));
      } else {
        OwnOnePerObserver(st, list, call, order[1..], s, uid);
        NoMore(Own(st, list, call, order[1..], s, uid), st.observers, list, call, order, s);
      }
    }
  }

  /** The tasks are exactly one for each observer of `list` registered on sequence `s`. */
  ghost predicate CoversObservers(tasks: seq<Task>, observers: map<Key, nat>, list: nat, call: nat, s: nat) {
    && (forall i :: 0 <= i < |tasks| ==>
          && tasks[i].key.list == list && tasks[i].note == Note(list, call)
          && tasks[i].key in observers && observers[tasks[i].key] == s)
    && (forall key :: key in observers && key.list == list && observers[key] == s ==> HasTaskFor(tasks, key))
    && (forall i, j :: 0 <= i < j < |tasks| ==> tasks[i].key != tasks[j].key)
  }

  /** Sequence `s` went from `q` to `q'` by gaining exactly one task for each of its observers. */
  ghost predicate GainsTasks(q: Sequence, q': Sequence, observers: map<Key, nat>, list: nat, call: nat, s: nat) {
    && q'.stack == q.stack && q'.current == q.current
    && |q.queue| <= |q'.queue| && q'.queue[..|q.queue|] == q.queue
    && CoversObservers(q'.queue[|q.queue|..], observers, list, call, s)
  }

  lemma EnumeratedCovers(st: State, tasks: seq<Task>, list: nat, call: nat, order: seq<nat>, s: nat)
    requires Enumerates(st, list, order) && OnePerObserver(tasks, st.observers, list, call, order, s)
    ensures CoversObservers(tasks, st.observers, list, call, s)
  {
    forall key | key in st.observers && key.list == list && st.observers[key] == s ensures HasTaskFor(tasks, key) {
      assert key == Key(list, key.obs) && key.obs in order;
    }
  }

  lemma PostAllGains(st: State, list: nat, call: nat, order: seq<nat>, self: Option<nat>, t: nat)
    requires Placed(st) && Enumerates(st, list, order) && t < |st.sequences| && Some(t) != self
    ensures GainsTasks(st.sequences[t], PostAll(st, list, call, order, self).sequences[t], st.observers, list, call, t)
  {
    var tasks := Sent(st.observers, list, call, order, self, t, st.nextUid);
    PostAllSends(st, list, call, order, self, t);
    PostAllKeepsStacks(st, list, call, order, self, t);
    SentOnePerObserver(st.observers, list, call, order, self, t, st.nextUid);
    EnumeratedCovers(st, tasks, list, call, order, t);
    assert (st.sequences[t].queue + tasks)[|st.sequences[t].queue|..] == tasks;
  }

  /** `Notify` gives every sequence exactly one task for each observer of the list registered on it, and
      does nothing else to it. */
  lemma NotifyPostsOnePerObserver(st: State, s: nat, list: nat, call: nat, order: seq<nat>, all: set<nat>, t: nat)
    requires Enabled(st, Notify(s, list, call, order)) && t < |st.sequences|
    ensures var st' := Apply(st, Notify(s, list, call, order), all);
            st'.observers == st.observers && GainsTasks(st.sequences[t], st'.sequences[t], st.observers, list, call, t)
  {
    PostAllGains(st, list, call, order, None, t);
  }

  /** Sequence `s` went from `q` to `q'` by starting to call each of its observers exactly once. */
  ghost predicate CallsObservers(q: Sequence, q': Sequence, observers: map<Key, nat>, list: nat, call: nat, s: nat) {
    && q'.queue == q.queue && q'.current == q.current
    && |q'.stack| == |q.stack| + 1 && q'.stack[..|q.stack|] == q.stack && q'.stack[|q.stack|].SyncLoop?
    && CoversObservers(q'.stack[|q.stack|].rest, observers, list, call, s)
  }

  lemma {:induction false} SelfSendsNone(
    observers: map<Key, nat>, list: nat, call: nat, order: seq<nat>, s: nat, uid: nat)
    ensures Sent(observers, list, call, order, Some(s), s, uid) == []
  {
    if order != [] {
      SelfSendsNone(observers, list, call, order[1..], s, uid);
      SelfSendsNone(observers, list, call, order[1..], s, uid + 1);
    }
  }

  /** `NotifySynchronously` calls each observer registered on its own sequence directly, once, and gives
      every other sequence exactly one task for each observer registered on it. */
  lemma SynchronousSplitsObservers(st: State, s: nat, list: nat, call: nat, order: seq<nat>, all: set<nat>, t: nat)
    requires Enabled(st, NotifySynchronously(s, list, call, order)) && t < |st.sequences|
    ensures var st' := Apply(st, NotifySynchronously(s, list, call, order), all);
            && st'.observers == st.observers
            && if t == s then CallsObservers(st.sequences[t], st'.sequences[t], st.observers, list, call, t)
               else GainsTasks(st.sequences[t], st'.sequences[t], st.observers, list, call, t)
  {
    if t == s {
      var uid := PostAll(st, list, call, order, Some(s)).nextUid;
      PostAllSends(st, list, call, order, Some(s), s);
      SelfSendsNone(st.observers, list, call, order, s, st.nextUid);
      PostAllKeepsStacks(st, list, call, order, Some(s), s);
      OwnOnePerObserver(st, list, call, order, s, uid);
      EnumeratedCovers(st, Own(st, list, call, order, s, uid), list, call, order, s);
    } else {
      PostAllGains(st, list, call, order, Some(s), t);
    }
  }

  // ----- What becomes of a posted task

  /** The task whose locked check the step performs. */
  ghost function Examined(st: State, step: Step): Option<Task> {
    if !Enabled(st, step) then None
    else
      match step
      case RunTask(s) => Some(st.sequences[s].queue[0])
      case SyncNext(s) => Some(Top(st.sequences[s]).value.rest[0])
      case _ => None
  }

  /** The step finds that the observer of `t` is gone. */
  ghost predicate Drops(st: State, step: Step, t: Task) {
    Examined(st, step) == Some(t) && t.key !in st.observers
  }

  ghost predicate DropsAt(n: nat, steps: seq<Step>, all: set<nat>, j: nat, t: Task)
    requires j < |steps|
  {
    Drops(Exec(n, steps[..j], all), steps[j], t)
  }

  ghost predicate IsDropped(n: nat, steps: seq<Step>, all: set<nat>, t: Task) {
    exists j :: 0 <= j < |steps| && DropsAt(n, steps, all, j, t)
  }

  lemma StepDrops(st: State, step: Step, all: set<nat>, t: Task)
    requires Enabled(st, step)
    ensures Apply(st, step, all).dropped[t] == st.dropped[t] + if Drops(st, step, t) then 1 else 0
  {}

  lemma DropsAtFront(n: nat, front: seq<Step>, step: Step, all: set<nat>, j: nat, t: Task)
    requires j <= |front|
    ensures DropsAt(n, front + [step], all, j, t) <==>
            if j < |front| then DropsAt(n, front, all, j, t) else Drops(Exec(n, front, all), step, t)
  {
    assert (front + [step])[..j] == front[..j];
    assert j == |front| ==> front[..j] == front;
  }

  lemma IsDroppedSnoc(n: nat, front: seq<Step>, step: Step, all: set<nat>, t: Task)
    ensures IsDropped(n, front + [step], all, t) <==> IsDropped(n, front, all, t) || Drops(Exec(n, front, all), step, t)
  {
    if IsDropped(n, front, all, t) {
      var j :| 0 <= j < |front| && DropsAt(n, front, all, j, t);
      DropsAtFront(n, front, step, all, j, t);
    }
    if IsDropped(n, front + [step], all, t) {
      var j :| 0 <= j < |front + [step]| && DropsAt(n, front + [step], all, j, t);
      DropsAtFront(n, front, step, all, j, t);
    }
    DropsAtFront(n, front, step, all, |front|, t);
  }

  /** A task is dropped if and only if its observer is gone when it is examined. */
  lemma {:induction false} DroppedExactly(n: nat, steps: seq<Step>, all: set<nat>, t: Task)
    ensures Exec(n, steps, all).dropped[t] > 0 <==> IsDropped(n, steps, all, t)
  {
    if steps != [] {
      var front, step := steps[..|steps| - 1], steps[|steps| - 1];
      DroppedExactly(n, front, all, t);
      IsDroppedSnoc(n, front, step, all, t);
      assert steps == front + [step];
      if Enabled(Exec(n, front, all), step) {
        StepDrops(Exec(n, front, all), step, all, t);
      }
    }
  }

  /** Once a posted task is no longer pending, its callback has been started exactly once if its observer
      was registered when it was examined, and never otherwise. */
  lemma DeliveredExactlyWhenRegistered(n: nat, steps: seq<Step>, all: set<nat>, t: Task)
    requires t in Exec(n, steps, all).posted && PendingAnywhere(Exec(n, steps, all).sequences, t) == 0
    ensures Exec(n, steps, all).delivered[t] == if IsDropped(n, steps, all, t) then 0 else 1
  {
    PostedTasksSplitExactly(n, steps, all, t);
    DroppedExactly(n, steps, all, t);
  }

  // ----- A task waits only where it was posted

  lemma {:induction false} PendingPart(sequences: seq<Sequence>, u: nat, t: Task)
    requires u < |sequences|
    ensures Pending(sequences[u], t) <= PendingAnywhere(sequences, t)
  {
    var m := |sequences| - 1;
    if u < m {
      PendingPart(sequences[..m], u, t);
    }
  }

  lemma {:induction false} PendingNowhere(sequences: seq<Sequence>, t: Task)
    requires forall u :: 0 <= u < |sequences| ==> Pending(sequences[u], t) == 0
    ensures PendingAnywhere(sequences, t) == 0
  {
    if sequences != [] {
      PendingNowhere(sequences[..|sequences| - 1], t);
    }
  }

  lemma PendingOnce(sequences: seq<Sequence>, s: nat, u: nat, t: Task)
    requires s < |sequences| && u < |sequences| && s != u
    requires PendingAnywhere(sequences, t) <= 1 <= Pending(sequences[s], t)
    ensures Pending(sequences[u], t) == 0
  {
    var others := sequences[s := Sequence([], [], None)];
    PendingUpdate(sequences, s, Sequence([], [], None), t);
    PendingPart(others, u, t);
  }

  ghost predicate NewerThan(tasks: seq<Task>, t: Task) {
    forall i :: 0 <= i < |tasks| ==> t.uid < tasks[i].uid
  }

  lemma NewerCounts(tasks: seq<Task>, t: Task)
    requires NewerThan(tasks, t)
    ensures multiset(tasks)[t] == 0
  {
    assert t !in tasks;
  }

  lemma {:induction false} SentNewer(
    observers: map<Key, nat>, list: nat, call: nat, order: seq<nat>, self: Option<nat>, s: nat, uid: nat, t: Task)
    requires t.uid < uid
    ensures NewerThan(Sent(observers, list, call, order, self, s, uid), t)
  {
    if order != [] {
      SentNewer(observers, list, call, order[1..], self, s, uid, t);
      SentNewer(observers, list, call, order[1..], self, s, uid + 1, t);
    }
  }

  lemma PostAllBringsNone(st: State, list: nat, call: nat, order: seq<nat>, self: Option<nat>, u: nat, t: Task)
    requires Placed(st) && u < |st.sequences| && t.uid < st.nextUid && Pending(st.sequences[u], t) == 0
    ensures Pending(PostAll(st, list, call, order, self).sequences[u], t) == 0
  {
    var sent := Sent(st.observers, list, call, order, self, u, st.nextUid);
    PostAllSends(st, list, call, order, self, u);
    PostAllKeepsStacks(st, list, call, order, self, u);
    SentNewer(st.observers, list, call, order, self, u, st.nextUid, t);
    NewerCounts(sent, t);
  }

  lemma SyncBringsNone(st: State, s: nat, list: nat, call: nat, order: seq<nat>, all: set<nat>, u: nat, t: Task)
    requires Enabled(st, NotifySynchronously(s, list, call, order))
    requires u < |st.sequences| && t.uid < st.nextUid && Pending(st.sequences[u], t) == 0
    ensures Pending(Apply(st, NotifySynchronously(s, list, call, order), all).sequences[u], t) == 0
  {
    PostAllBringsNone(st, list, call, order, Some(s), u, t);
    if u == s {
      var st1 := PostAll(st, list, call, order, Some(s));
      OwnBringsNone(st, list, call, order, s, st1.nextUid, st1.sequences[s], t);
    }
  }

  lemma OwnBringsNone(st: State, list: nat, call: nat, order: seq<nat>, s: nat, uid: nat, q: Sequence, t: Task)
    requires t.uid < uid && Pending(q, t) == 0
    ensures Pending(q.(stack := q.stack + [SyncLoop(Own(st, list, call, order, s, uid))]), t) == 0
  {
    var own := Own(st, list, call, order, s, uid);
    OwnFresh(st, list, call, order, s, uid);
    FreshCount(own, st.observers, s, uid, t);
    StackCountPush(q.stack, SyncLoop(own), t);
  }

  lemma CheckBringsNone(st: State, s: nat, q: Sequence, task: Task, u: nat, t: Task)
    requires s < |st.sequences| && u < |st.sequences| && (u == s ==> Pending(q, t) + multiset{task}[t] == 0)
    requires Pending(st.sequences[u], t) == 0
    ensures Pending(Check(st, s, q, task).sequences[u], t) == 0
  {
    StackCountPush(q.stack, Checked(task), t);
  }

  lemma RunTaskBringsNone(st: State, s: nat, all: set<nat>, u: nat, t: Task)
    requires Enabled(st, RunTask(s)) && u < |st.sequences| && Pending(st.sequences[u], t) == 0
    ensures Pending(Apply(st, RunTask(s), all).sequences[u], t) == 0
  {
    var q := st.sequences[s];
    assert q.queue == [q.queue[0]] + q.queue[1..];
    CheckBringsNone(st, s, q.(queue := q.queue[1..]), q.queue[0], u, t);
  }

  lemma SyncNextBringsNone(st: State, s: nat, all: set<nat>, u: nat, t: Task)
    requires Enabled(st, SyncNext(s)) && u < |st.sequences| && Pending(st.sequences[u], t) == 0
    ensures Pending(Apply(st, SyncNext(s), all).sequences[u], t) == 0
  {
    var q := st.sequences[s];
    var rest := Top(q).value.rest;
    assert rest == [rest[0]] + rest[1..];
    TopCount(q, SyncLoop(rest[1..]), t);
    CheckBringsNone(st, s, q.(stack := Below(q) + [SyncLoop(rest[1..])]), rest[0], u, t);
  }

  lemma AddBringsNone(st: State, s: nat, key: Key, all: set<nat>, u: nat, t: Task)
    requires Enabled(st, AddObserver(s, key)) && u < |st.sequences| && t.uid < st.nextUid
    requires Pending(st.sequences[u], t) == 0
    ensures Pending(Apply(st, AddObserver(s, key), all).sequences[u], t) == 0
  {}

  /** Taking a frame off, or starting its callback, makes nothing pending. */
  lemma TopBringsNone(st: State, step: Step, all: set<nat>, u: nat, t: Task)
    requires Enabled(st, step) && (step.SyncDone? || step.Start? || step.Finish?)
    requires u < |st.sequences| && Pending(st.sequences[u], t) == 0
    ensures Pending(Apply(st, step, all).sequences[u], t) == 0
  {
    if step.s == u {
      TopPending(st.sequences[u], t);
    }
  }

  lemma TopPending(q: Sequence, t: Task)
    requires Top(q).Some? && Pending(q, t) == 0
    ensures StackCount(Below(q), t) == 0 && multiset(q.queue)[t] == 0
    ensures forall f: Frame :: f.Running? ==> StackCount(Below(q) + [f], t) == 0
  {
    TopCount(q, Top(q).value, t);
    forall f: Frame | f.Running? ensures StackCount(Below(q) + [f], t) == 0 {
      TopCount(q, f, t);
    }
  }

  lemma StepBringsNone(st: State, step: Step, all: set<nat>, u: nat, t: Task)
    requires Enabled(st, step) && u < |st.sequences| && t.uid < st.nextUid && Pending(st.sequences[u], t) == 0
    ensures u < |Apply(st, step, all).sequences| && Pending(Apply(st, step, all).sequences[u], t) == 0
    ensures t.uid < Apply(st, step, all).nextUid
  {
    match step
    case AddObserver(s, key) => AddBringsNone(st, s, key, all, u, t);
    case RemoveObserver(s, key) =>
    case Notify(s, list, call, order) => PostAllBringsNone(st, list, call, order, None, u, t);
    case NotifySynchronously(s, list, call, order) => SyncBringsNone(st, s, list, call, order, all, u, t);
    case RunTask(s) => RunTaskBringsNone(st, s, all, u, t);
    case SyncNext(s) => SyncNextBringsNone(st, s, all, u, t);
    case _ => TopBringsNone(st, step, all, u, t);
  }

  /** A task that has been posted and waits nowhere on sequence `u` never will. */
  ghost predicate Absent(st: State, u: nat, t: Task) {
    t in st.posted && t.uid < st.nextUid && u < |st.sequences| && Pending(st.sequences[u], t) == 0
  }

  lemma {:induction false} AbsentStays(n: nat, steps: seq<Step>, all: set<nat>, i: nat, u: nat, t: Task)
    requires i <= |steps| && Absent(Exec(n, steps[..i], all), u, t)
    ensures Absent(Exec(n, steps, all), u, t)
    decreases |steps|
  {
    if i == |steps| {
      assert steps[..i] == steps;
    } else {
      var front, step := steps[..|steps| - 1], steps[|steps| - 1];
      assert front[..i] == steps[..i];
      AbsentStays(n, front, all, i, u, t);
      if Enabled(Exec(n, front, all), step) {
        StepBringsNone(Exec(n, front, all), step, all, u, t);
        PostedStays(Exec(n, front, all), step, all, t);
      }
    }
  }

  lemma PostedStays(st: State, step: Step, all: set<nat>, t: Task)
    requires Enabled(st, step) && t in st.posted
    ensures t in Apply(st, step, all).posted
  {}

  // ----- From a notification to its callbacks

  /** The sequence has nothing left to do. */
  predicate IsIdle(q: Sequence) {
    q.queue == [] && q.stack == []
  }

  /** Whenever a task of the notification `note` for `key` is examined from step `i` on, `key` is registered. */
  ghost predicate RegisteredWhenExamined(n: nat, steps: seq<Step>, all: set<nat>, i: nat, key: Key, note: Note) {
    forall j :: i <= j < |steps| ==> !DropsFor(n, steps, all, j, key, note)
  }

  ghost predicate DropsFor(n: nat, steps: seq<Step>, all: set<nat>, j: nat, key: Key, note: Note)
    requires j < |steps|
  {
    var task := Examined(Exec(n, steps[..j], all), steps[j]);
    task.Some? && task.value.key == key && task.value.note == note && key !in Exec(n, steps[..j], all).observers
  }

  /** The new task that a notification posts for an observer. */
  lemma NotifyPosts(st: State, step: Step, all: set<nat>, key: Key) returns (t: Task)
    requires Enabled(st, step) && step.Notify? && key in st.observers && key.list == step.list
    ensures t.key == key && t.note == Note(step.list, step.call) && st.nextUid <= t.uid
    ensures st.observers[key] < |Apply(st, step, all).sequences|
    ensures t in Apply(st, step, all).sequences[st.observers[key]].queue
  {
    var s := st.observers[key];
    var sent := Sent(st.observers, step.list, step.call, step.order, None, s, st.nextUid);
    PostAllSends(st, step.list, step.call, step.order, None, s);
    SentOnePerObserver(st.observers, step.list, step.call, step.order, None, s, st.nextUid);
    EnumeratedCovers(st, sent, step.list, step.call, step.order, s);
    assert HasTaskFor(sent, key);
    var k :| 0 <= k < |sent| && sent[k].key == key;
    t := sent[k];
    if t.uid < st.nextUid {
      SentNewer(st.observers, step.list, step.call, step.order, None, s, st.nextUid, t);
    }
  }

  /** Right after it is posted, a task waits on its own sequence only. */
  lemma PostedThere(st: State, s: nat, u: nat, t: Task)
    requires Invariant(st) && s < |st.sequences| && u < |st.sequences| && u != s && t in st.sequences[s].queue
    ensures Absent(st, u, t) && st.dropped[t] == 0
  {
    assert Conserved(st, t);
    PendingPart(st.sequences, s, t);
    PendingOnce(st.sequences, s, u, t);
  }

  lemma PostedThereAlone(st: State, s: nat, t: Task)
    requires Invariant(st) && s < |st.sequences| && t in st.sequences[s].queue
    ensures t in st.posted && st.dropped[t] == 0
  {
    assert Conserved(st, t);
    PendingPart(st.sequences, s, t);
  }

  lemma {:induction false} PostedForEver(n: nat, steps: seq<Step>, all: set<nat>, i: nat, t: Task)
    requires i <= |steps| && t in Exec(n, steps[..i], all).posted
    ensures t in Exec(n, steps, all).posted
    decreases |steps|
  {
    if i == |steps| {
      assert steps[..i] == steps;
    } else {
      var front := steps[..|steps| - 1];
      assert front[..i] == steps[..i];
      PostedForEver(n, front, all, i, t);
      if Enabled(Exec(n, front, all), steps[|steps| - 1]) {
        PostedStays(Exec(n, front, all), steps[|steps| - 1], all, t);
      }
    }
  }

  /** If a task waits on sequence `s` after `i` steps and `s` is idle in the end, it is pending no more. */
  lemma IdleHasNone(n: nat, steps: seq<Step>, all: set<nat>, i: nat, s: nat, t: Task)
    requires i <= |steps| && s < |Exec(n, steps, all).sequences| && IsIdle(Exec(n, steps, all).sequences[s])
    requires s < |Exec(n, steps[..i], all).sequences| && t in Exec(n, steps[..i], all).sequences[s].queue
    ensures PendingAnywhere(Exec(n, steps, all).sequences, t) == 0
  {
    EveryRunKeepsInvariant(n, steps[..i], all);
    EveryRunKeepsInvariant(n, steps, all);
    forall u | 0 <= u < n ensures Pending(Exec(n, steps, all).sequences[u], t) == 0 {
      if u != s {
        PostedThere(Exec(n, steps[..i], all), s, u, t);
        AbsentStays(n, steps, all, i, u, t);
      }
    }
    PendingNowhere(Exec(n, steps, all).sequences, t);
  }

  lemma NeverDropped(n: nat, steps: seq<Step>, all: set<nat>, i: nat, t: Task)
    requires i <= |steps| && Exec(n, steps[..i], all).dropped[t] == 0
    requires RegisteredWhenExamined(n, steps, all, i, t.key, t.note)
    ensures !IsDropped(n, steps, all, t)
  {
    DroppedExactly(n, steps[..i], all, t);
    if j :| 0 <= j < |steps| && DropsAt(n, steps, all, j, t) {
      if j < i {
        assert steps[..i][..j] == steps[..j];
        assert DropsAt(n, steps[..i], all, j, t);
      } else {
        assert DropsFor(n, steps, all, j, t.key, t.note);
      }
    }
  }

  /** An observer registered when a list is notified, and still when its task is examined, has its callback
      for that notification started exactly once by the time its sequence is idle. */
  lemma NotifiedIsCalledOnceIfRegistered(n: nat, steps: seq<Step>, all: set<nat>, i: nat, key: Key) returns (t: Task)
    requires i < |steps| && steps[i].Notify? && Enabled(Exec(n, steps[..i], all), steps[i])
    requires key in Exec(n, steps[..i], all).observers && key.list == steps[i].list
    requires RegisteredWhenExamined(n, steps, all, i + 1, key, Note(steps[i].list, steps[i].call))
    requires Exec(n, steps[..i], all).observers[key] < |Exec(n, steps, all).sequences|
    requires IsIdle(Exec(n, steps, all).sequences[Exec(n, steps[..i], all).observers[key]])
    ensures t.key == key && t.note == Note(steps[i].list, steps[i].call)
    ensures t !in Exec(n, steps[..i], all).posted && t in Exec(n, steps[..i + 1], all).posted
    ensures Exec(n, steps, all).delivered[t] == 1
  {
    var st, s := Exec(n, steps[..i], all), Exec(n, steps[..i], all).observers[key];
    t := NotifyPosts(st, steps[i], all, key);
    assert steps[..i + 1][..i] == steps[..i];
    assert Exec(n, steps[..i + 1], all) == Apply(st, steps[i], all);
    EveryRunKeepsInvariant(n, steps[..i], all);
    EveryRunKeepsInvariant(n, steps[..i + 1], all);
    assert Conserved(st, t);
    PostedThereAlone(Exec(n, steps[..i + 1], all), s, t);
    PostedForEver(n, steps, all, i + 1, t);
    IdleHasNone(n, steps, all, i + 1, s, t);
    NeverDropped(n, steps, all, i + 1, t);
    DeliveredExactlyWhenRegistered(n, steps, all, t);
  }

  // ----- Who is registered, by the steps alone

  /** One step registers an observer on a sequence, or leaves it so, exactly if it adds it there, or it was
      so and the step does not remove that very observer. */
  lemma StepRegistersExactly(st: State, step: Step, all: set<nat>, key: Key, s: nat)
    requires Enabled(st, step)
    ensures IsOn(Apply(st, step, all), key, s) <==>
            step == AddObserver(s, key) || (IsOn(st, key, s) && !IsRemoval(step, key))
  {}

  ghost predicate IsOn(st: State, key: Key, s: nat) {
    key in st.observers && st.observers[key] == s
  }

  predicate IsRemoval(step: Step, key: Key) {
    step.RemoveObserver? && step.key == key
  }

  /** The step at `j` is performed and removes `key`. */
  ghost predicate RemovesAt(n: nat, steps: seq<Step>, all: set<nat>, j: nat, key: Key)
    requires j < |steps|
  {
    IsRemoval(steps[j], key) && Enabled(Exec(n, steps[..j], all), steps[j])
  }

  /** The step at `i` is performed and adds `key` on `s`, and none after it removes it. */
  ghost predicate AddedForGood(n: nat, steps: seq<Step>, all: set<nat>, i: nat, key: Key, s: nat)
    requires i < |steps|
  {
    && steps[i] == AddObserver(s, key) && Enabled(Exec(n, steps[..i], all), steps[i])
    && forall j :: i < j < |steps| ==> !RemovesAt(n, steps, all, j, key)
  }

  ghost predicate WasAdded(n: nat, steps: seq<Step>, all: set<nat>, key: Key, s: nat) {
    exists i :: 0 <= i < |steps| && AddedForGood(n, steps, all, i, key, s)
  }

  lemma RemovesAtFront(n: nat, front: seq<Step>, step: Step, all: set<nat>, j: nat, key: Key)
    requires j <= |front|
    ensures RemovesAt(n, front + [step], all, j, key) <==>
            if j < |front| then RemovesAt(n, front, all, j, key)
            else IsRemoval(step, key) && Enabled(Exec(n, front, all), step)
  {
    assert (front + [step])[..j] == front[..j];
    assert j == |front| ==> front[..j] == front;
  }

  lemma AddedForGoodFront(n: nat, front: seq<Step>, step: Step, all: set<nat>, i: nat, key: Key, s: nat)
    requires i < |front|
    ensures AddedForGood(n, front + [step], all, i, key, s) <==>
            AddedForGood(n, front, all, i, key, s) && !(IsRemoval(step, key) && Enabled(Exec(n, front, all), step))
  {
    assert (front + [step])[..i] == front[..i] && (front + [step])[i] == front[i];
    forall j | i < j <= |front|
      ensures RemovesAt(n, front + [step], all, j, key) <==>
              if j < |front| then RemovesAt(n, front, all, j, key)
              else IsRemoval(step, key) && Enabled(Exec(n, front, all), step)
    {
      RemovesAtFront(n, front, step, all, j, key);
    }
    if AddedForGood(n, front + [step], all, i, key, s) {
      forall j | i < j < |front| ensures !RemovesAt(n, front, all, j, key) {
        assert !RemovesAt(n, front + [step], all, j, key);
      }
      assert !RemovesAt(n, front + [step], all, |front|, key);
    }
  }

  lemma AddedForGoodLast(n: nat, front: seq<Step>, step: Step, all: set<nat>, key: Key, s: nat)
    ensures AddedForGood(n, front + [step], all, |front|, key, s) <==>
            step == AddObserver(s, key) && Enabled(Exec(n, front, all), step)
  {
    assert (front + [step])[..|front|] == front && (front + [step])[|front|] == step;
  }

  lemma WasAddedSnoc(n: nat, front: seq<Step>, step: Step, all: set<nat>, key: Key, s: nat)
    ensures WasAdded(n, front + [step], all, key, s) <==>
            || (step == AddObserver(s, key) && Enabled(Exec(n, front, all), step))
            || (WasAdded(n, front, all, key, s) && !(IsRemoval(step, key) && Enabled(Exec(n, front, all), step)))
  {
    AddedForGoodLast(n, front, step, all, key, s);
    if WasAdded(n, front, all, key, s) {
      var i :| 0 <= i < |front| && AddedForGood(n, front, all, i, key, s);
      AddedForGoodFront(n, front, step, all, i, key, s);
    }
    if WasAdded(n, front + [step], all, key, s) {
      var i :| 0 <= i < |front + [step]| && AddedForGood(n, front + [step], all, i, key, s);
      if i < |front| {
        AddedForGoodFront(n, front, step, all, i, key, s);
      }
    }
  }

  /** In every run an observer is registered on a sequence if and only if it was added there and no later
      step removed it: nothing else registers, moves or unregisters it. */
  lemma {:induction false} RegisteredExactly(n: nat, steps: seq<Step>, all: set<nat>, key: Key, s: nat)
    ensures IsOn(Exec(n, steps, all), key, s) <==> WasAdded(n, steps, all, key, s)
  {
    if steps != [] {
      var front, step := steps[..|steps| - 1], steps[|steps| - 1];
      RegisteredExactly(n, front, all, key, s);
      WasAddedSnoc(n, front, step, all, key, s);
      assert steps == front + [step];
      if Enabled(Exec(n, front, all), step) {
        StepRegistersExactly(Exec(n, front, all), step, all, key, s);
      }
    }
  }

  lemma {:induction false} StaysRegistered(n: nat, steps: seq<Step>, all: set<nat>, i: nat, key: Key)
    requires i <= |steps| && key in Exec(n, steps[..i], all).observers
    requires forall j :: i <= j < |steps| ==> !IsRemoval(steps[j], key)
    ensures key in Exec(n, steps, all).observers
    decreases |steps|
  {
    if i == |steps| {
      assert steps[..i] == steps;
    } else {
      var front, step := steps[..|steps| - 1], steps[|steps| - 1];
      assert front[..i] == steps[..i];
      StaysRegistered(n, front, all, i, key);
      if Enabled(Exec(n, front, all), step) {
        StepRegistersExactly(Exec(n, front, all), step, all, key, Exec(n, front, all).observers[key]);
      }
    }
  }

  lemma NeverRemovedIsRegistered(n: nat, steps: seq<Step>, all: set<nat>, i: nat, key: Key, note: Note)
    requires i <= |steps| && key in Exec(n, steps[..i], all).observers
    requires forall j :: i <= j < |steps| ==> !IsRemoval(steps[j], key)
    ensures RegisteredWhenExamined(n, steps, all, i, key, note)
  {
    forall j | i <= j < |steps| ensures !DropsFor(n, steps, all, j, key, note) {
      assert steps[..j][..i] == steps[..i];
      StaysRegistered(n, steps[..j], all, i, key);
    }
  }

  /** An observer registered when its list is notified, and not removed by a later step, has its callback
      for that notification started exactly once by the time its sequence is idle. */
  lemma NotifiedIsCalledOnce(n: nat, steps: seq<Step>, all: set<nat>, i: nat, key: Key) returns (t: Task)
    requires i < |steps| && steps[i].Notify? && Enabled(Exec(n, steps[..i], all), steps[i])
    requires key in Exec(n, steps[..i], all).observers && key.list == steps[i].list
    requires forall j :: i < j < |steps| ==> !IsRemoval(steps[j], key)
    requires Exec(n, steps[..i], all).observers[key] < |Exec(n, steps, all).sequences|
    requires IsIdle(Exec(n, steps, all).sequences[Exec(n, steps[..i], all).observers[key]])
    ensures t.key == key && t.note == Note(steps[i].list, steps[i].call)
    ensures t !in Exec(n, steps[..i], all).posted && t in Exec(n, steps[..i + 1], all).posted
    ensures Exec(n, steps, all).delivered[t] == 1
  {
    assert steps[..i + 1][..i] == steps[..i];
    StaysRegistered(n, steps[..i + 1], all, i, key);
    NeverRemovedIsRegistered(n, steps, all, i + 1, key, Note(steps[i].list, steps[i].call));
    t := NotifiedIsCalledOnceIfRegistered(n, steps, all, i, key);
  }

  // ----- Every sequence can finish its work

  function FrameWork(f: Frame): nat {
    match f
    case Checked(_) => 2
    case Running(_, _) => 1
    case SyncLoop(rest) => 1 + 4 * |rest|
  }

  function StackWork(stack: seq<Frame>): nat {
    if stack == [] then 0 else StackWork(stack[..|stack| - 1]) + FrameWork(stack[|stack| - 1])
  }

  /** How much a sequence still has to do. */
  function Work(q: Sequence): nat {
    4 * |q.queue| + StackWork(q.stack)
  }

  lemma WorkPush(stack: seq<Frame>, f: Frame)
    ensures StackWork(stack + [f]) == StackWork(stack) + FrameWork(f)
  {
    assert (stack + [f])[..|stack|] == stack;
  }

  /** The step with which a sequence goes on. */
  function Onward(q: Sequence, s: nat): Step {
    match Top(q)
    case None => RunTask(s)
    case Some(f) =>
      match f
      case Checked(_) => Start(s)
      case Running(_, _) => Finish(s)
      case SyncLoop(rest) => if rest == [] then SyncDone(s) else SyncNext(s)
  }

  lemma CheckWork(st: State, s: nat, q: Sequence, task: Task)
    requires s < |st.sequences|
    ensures Work(Check(st, s, q, task).sequences[s]) <= Work(q) + 2
  {
    WorkPush(q.stack, Checked(task));
  }

  lemma RunTaskWorksOff(st: State, s: nat, all: set<nat>)
    requires Enabled(st, RunTask(s))
    ensures Work(Apply(st, RunTask(s), all).sequences[s]) < Work(st.sequences[s])
  {
    var q := st.sequences[s];
    CheckWork(st, s, q.(queue := q.queue[1..]), q.queue[0]);
  }

  lemma SyncNextWorksOff(st: State, s: nat, all: set<nat>)
    requires Enabled(st, SyncNext(s))
    ensures Work(Apply(st, SyncNext(s), all).sequences[s]) < Work(st.sequences[s])
  {
    var q := st.sequences[s];
    var loop := SyncLoop(Top(q).value.rest[1..]);
    WorkPush(Below(q), loop);
    CheckWork(st, s, q.(stack := Below(q) + [loop]), Top(q).value.rest[0]);
  }

  lemma StartWorksOff(st: State, s: nat, all: set<nat>)
    requires Enabled(st, Start(s))
    ensures Work(Apply(st, Start(s), all).sequences[s]) < Work(st.sequences[s])
  {
    var q := st.sequences[s];
    WorkPush(Below(q), Running(Top(q).value.task, q.current));
  }

  lemma PopWorksOff(st: State, step: Step, all: set<nat>)
    requires Enabled(st, step) && (step.SyncDone? || step.Finish?)
    ensures Work(Apply(st, step, all).sequences[step.s]) < Work(st.sequences[step.s])
  {}

  /** A sequence that is not idle can go on, and then has less to do. */
  lemma OnwardWorksOff(st: State, s: nat, all: set<nat>)
    requires Placed(st) && s < |st.sequences| && !IsIdle(st.sequences[s])
    ensures Enabled(st, Onward(st.sequences[s], s))
    ensures var st' := Apply(st, Onward(st.sequences[s], s), all);
            s < |st'.sequences| && Work(st'.sequences[s]) < Work(st.sequences[s])
  {
    var step := Onward(st.sequences[s], s);
    if step.RunTask? {
      RunTaskWorksOff(st, s, all);
    } else if step.SyncNext? {
      SyncNextWorksOff(st, s, all);
    } else if step.Start? {
      StartWorksOff(st, s, all);
    } else {
      PopWorksOff(st, step, all);
    }
  }

  lemma NextWorksOff(st: State, s: nat, all: set<nat>)
    requires Placed(st) && s < |st.sequences| && !IsIdle(st.sequences[s])
    ensures var step := Onward(st.sequences[s], s);
            var st' := Next(st, step, all);
            IsOnward(step, s) && s < |st'.sequences| && Work(st'.sequences[s]) < Work(st.sequences[s])
  {
    OnwardWorksOff(st, s, all);
  }

  lemma RunsPlaced(n: nat, steps: seq<Step>, all: set<nat>)
    ensures Placed(Exec(n, steps, all))
  {
    EveryRunKeepsInvariant(n, steps, all);
  }

  lemma OnwardInRun(n: nat, steps: seq<Step>, all: set<nat>, s: nat)
    requires s < |Exec(n, steps, all).sequences| && !IsIdle(Exec(n, steps, all).sequences[s])
    ensures var step := Onward(Exec(n, steps, all).sequences[s], s);
            && IsOnward(step, s) && s < |Exec(n, steps + [step], all).sequences|
            && Work(Exec(n, steps + [step], all).sequences[s]) < Work(Exec(n, steps, all).sequences[s])
  {
    RunsPlaced(n, steps, all);
    NextWorksOff(Exec(n, steps, all), s, all);
    ExecSnoc(n, steps, Onward(Exec(n, steps, all).sequences[s], s), all);
  }

  predicate IsOnward(step: Step, s: nat) {
    step.s == s && (step.RunTask? || step.SyncNext? || step.SyncDone? || step.Start? || step.Finish?)
  }

  /** The run leaves sequence `s` idle. */
  ghost predicate EndsIdle(n: nat, steps: seq<Step>, all: set<nat>, s: nat) {
    s < |Exec(n, steps, all).sequences| && IsIdle(Exec(n, steps, all).sequences[s])
  }

  ghost predicate AllOnward(steps: seq<Step>, s: nat) {
    forall i :: 0 <= i < |steps| ==> IsOnward(steps[i], s)
  }

  lemma PrependOnward(steps: seq<Step>, step: Step, rest: seq<Step>, s: nat)
    requires IsOnward(step, s) && AllOnward(rest, s)
    ensures AllOnward([step] + rest, s) && steps + [step] + rest == steps + ([step] + rest)
  {}

  /** From every state of every run a sequence can become idle by its own steps alone. */
  lemma {:induction false} CanBecomeIdle(n: nat, steps: seq<Step>, all: set<nat>, s: nat) returns (more: seq<Step>)
    requires s < |Exec(n, steps, all).sequences|
    ensures AllOnward(more, s) && EndsIdle(n, steps + more, all, s)
    decreases Work(Exec(n, steps, all).sequences[s])
  {
    if EndsIdle(n, steps, all, s) {
      more := [];
      assert steps + more == steps;
    } else {
      var step := Onward(Exec(n, steps, all).sequences[s], s);
      OnwardInRun(n, steps, all, s);
      var rest := CanBecomeIdle(n, steps + [step], all, s);
      PrependOnward(steps, step, rest, s);
      more := [step] + rest;
    }
  }

  /** So after a notification the callback of every observer registered then can be reached, and is
      started exactly once. */
  lemma NotifiedCanBeCalled(n: nat, steps: seq<Step>, notify: Step, all: set<nat>, key: Key)
    returns (more: seq<Step>, t: Task)
    requires notify.Notify? && Enabled(Exec(n, steps, all), notify)
    requires key in Exec(n, steps, all).observers && key.list == notify.list
    ensures t.key == key && t.note == Note(notify.list, notify.call) && t !in Exec(n, steps, all).posted
    ensures AllOnward(more, Exec(n, steps, all).observers[key])
    ensures Exec(n, steps + [notify] + more, all).delivered[t] == 1
  {
    var s := Exec(n, steps, all).observers[key];
    EveryRunKeepsInvariant(n, steps, all);
    EveryRunKeepsInvariant(n, steps + [notify], all);
    more := CanBecomeIdle(n, steps + [notify], all, s);
    var run := steps + [notify] + more;
    NotifyThenOnward(steps, notify, more, s, key);
    t := NotifiedIsCalledOnce(n, run, all, |steps|, key);
  }

  lemma NotifyThenOnward(steps: seq<Step>, notify: Step, more: seq<Step>, s: nat, key: Key)
    requires AllOnward(more, s)
    ensures var run := steps + [notify] + more;
            && run[..|steps|] == steps && run[|steps|] == notify
            && forall j :: |steps| < j < |run| ==> !IsRemoval(run[j], key)
  {
    var run := steps + [notify] + more;
    forall j | |steps| < j < |run| ensures !IsRemoval(run[j], key) {
      assert run[j] == more[j - |steps| - 1];
    }
  }

  // ----- The brackets around a callback

  /** Starting a callback saves the notification that was current and makes the callback's own current;
      finishing it takes exactly that back. */
  lemma CallbackIsBracketed(st: State, s: nat, all: set<nat>)
    requires Enabled(st, Start(s)) || Enabled(st, Finish(s))
    ensures Enabled(st, Start(s)) ==>
              var q, q' := st.sequences[s], Apply(st, Start(s), all).sequences[s];
              && Top(q') == Some(Running(Top(q).value.task, q.current)) && q'.current == Some(Top(q).value.task.note)
              && Below(q') == Below(q) && q'.queue == q.queue
    ensures Enabled(st, Finish(s)) ==>
              var q, q' := st.sequences[s], Apply(st, Finish(s), all).sequences[s];
              q'.current == Top(q).value.previous && q'.stack == Below(q) && q'.queue == q.queue
  {}

  // ----- No callback after an observer removed itself

  ghost predicate NoCheck(q: Sequence, key: Key) {
    forall k :: 0 <= k < |q.stack| && q.stack[k].Checked? ==> q.stack[k].task.key != key
  }

  /** `key` is not registered and no callback to it is about to start. */
  ghost predicate Quiet(st: State, key: Key) {
    key !in st.observers && forall s :: 0 <= s < |st.sequences| ==> NoCheck(st.sequences[s], key)
  }

  lemma SelfRemovalQuiets(st: State, s: nat, key: Key)
    requires Invariant(st) && Enabled(st, RemoveObserver(s, key)) && key in st.home && st.home[key] == s
    ensures Quiet(Apply(st, RemoveObserver(s, key), {}), key)
  {
    forall t | 0 <= t < |st.sequences| ensures NoCheck(st.sequences[t], key) {
      var q := st.sequences[t];
      assert HomeAt(q, t, st.home) && Disciplined(q);
      forall k | 0 <= k < |q.stack| && q.stack[k].Checked? ensures q.stack[k].task.key != key {
        assert FrameHome(q.stack[k], t, st.home);
      }
    }
  }

  lemma CheckQuiet(st: State, s: nat, q: Sequence, task: Task, key: Key)
    requires Quiet(st, key) && s < |st.sequences| && NoCheck(q, key)
    ensures Quiet(Check(st, s, q, task), key)
  {}

  lemma QuietStays(st: State, step: Step, all: set<nat>, key: Key)
    requires Quiet(st, key) && Enabled(st, step) && !(step.AddObserver? && step.key == key)
    ensures Quiet(Apply(st, step, all), key)
  {
    var q := st.sequences[step.s];
    match step
    case AddObserver(s, k) =>
    case RemoveObserver(s, k) =>
    case Notify(s, list, call, order) => PostAllQuiet(st, list, call, order, None, key);
    case NotifySynchronously(s, list, call, order) => SyncQuiet(st, s, list, call, order, all, key);
    case RunTask(s) => CheckQuiet(st, s, q.(queue := q.queue[1..]), q.queue[0], key);
    case SyncNext(s) =>
      CheckQuiet(st, s, q.(stack := Below(q) + [SyncLoop(Top(q).value.rest[1..])]), Top(q).value.rest[0], key);
    case SyncDone(s) => PutQuiet(st, s, Apply(st, step, all).sequences[s], key);
    case Start(s) => PutQuiet(st, s, Apply(st, step, all).sequences[s], key);
    case Finish(s) => PutQuiet(st, s, Apply(st, step, all).sequences[s], key);
  }

  lemma PutQuiet(st: State, s: nat, q: Sequence, key: Key)
    requires Quiet(st, key) && s < |st.sequences| && NoCheck(q, key)
    ensures Quiet(Put(st, s, q), key)
  {}

  lemma SyncQuiet(st: State, s: nat, list: nat, call: nat, order: seq<nat>, all: set<nat>, key: Key)
    requires Quiet(st, key) && Enabled(st, NotifySynchronously(s, list, call, order))
    ensures Quiet(Apply(st, NotifySynchronously(s, list, call, order), all), key)
  {
    PostAllQuiet(st, list, call, order, Some(s), key);
    var st1 := PostAll(st, list, call, order, Some(s));
    PutQuiet(st1, s, Apply(st, NotifySynchronously(s, list, call, order), all).sequences[s], key);
  }

  lemma PostAllQuiet(st: State, list: nat, call: nat, order: seq<nat>, self: Option<nat>, key: Key)
    requires Quiet(st, key) && Placed(st)
    ensures Quiet(PostAll(st, list, call, order, self), key)
  {
    forall s | 0 <= s < |st.sequences| ensures NoCheck(PostAll(st, list, call, order, self).sequences[s], key) {
      PostAllKeepsStacks(st, list, call, order, self, s);
      assert NoCheck(st.sequences[s], key);
    }
  }

  /** After an observer removed itself on its own sequence, no callback to it starts, in any
      interleaving, until it is added again. */
  lemma NoCallbackAfterSelfRemoval(n: nat, steps: seq<Step>, all: set<nat>, i: nat)
    requires i < |steps| && steps[i].RemoveObserver? && Enabled(Exec(n, steps[..i], all), steps[i])
    requires steps[i].key in Exec(n, steps[..i], all).home && Exec(n, steps[..i], all).home[steps[i].key] == steps[i].s
    requires forall j :: i < j < |steps| ==> !(steps[j].AddObserver? && steps[j].key == steps[i].key)
    ensures Quiet(Exec(n, steps, all), steps[i].key)
    ensures StartsNone(Exec(n, steps, all), steps[i].key)
  {
    SelfRemovalQuietsRun(n, steps, all, i);
    LaterReAddsNone(steps, i, steps[i].key);
    QuietRuns(n, steps[..i + 1], steps[i + 1..], all, steps[i].key);
    assert steps[..i + 1] + steps[i + 1..] == steps;
    QuietStartsNothing(Exec(n, steps, all), steps[i].key);
  }

  lemma SelfRemovalQuietsRun(n: nat, steps: seq<Step>, all: set<nat>, i: nat)
    requires i < |steps| && steps[i].RemoveObserver? && Enabled(Exec(n, steps[..i], all), steps[i])
    requires steps[i].key in Exec(n, steps[..i], all).home && Exec(n, steps[..i], all).home[steps[i].key] == steps[i].s
    ensures Quiet(Exec(n, steps[..i + 1], all), steps[i].key)
  {
    EveryRunKeepsInvariant(n, steps[..i], all);
    SelfRemovalQuiets(Exec(n, steps[..i], all), steps[i].s, steps[i].key);
    ExecPrefix(n, steps, i, all);
  }

  lemma LaterReAddsNone(steps: seq<Step>, i: nat, key: Key)
    requires i < |steps| && forall j :: i < j < |steps| ==> !(steps[j].AddObserver? && steps[j].key == key)
    ensures NoReAdd(steps[i + 1..], key)
  {}

  lemma QuietStartsNothing(st: State, key: Key)
    requires Quiet(st, key)
    ensures StartsNone(st, key)
  {
    forall s: nat | Enabled(st, Start(s)) ensures Top(st.sequences[s]).value.task.key != key {
      assert NoCheck(st.sequences[s], key);
    }
  }

  ghost predicate NoReAdd(steps: seq<Step>, key: Key) {
    forall i :: 0 <= i < |steps| ==> !(steps[i].AddObserver? && steps[i].key == key)
  }

  ghost predicate StartsNone(st: State, key: Key) {
    forall s: nat :: Enabled(st, Start(s)) ==> Top(st.sequences[s]).value.task.key != key
  }

  /** However the run goes on, no callback to `key` starts until it is added again. */
  ghost predicate Silenced(n: nat, steps: seq<Step>, all: set<nat>, key: Key) {
    forall more: seq<Step> :: NoReAdd(more, key) ==> StartsNone(Exec(n, steps + more, all), key)
  }

  /** No callback to `key` is past the locked check and not yet started, on any sequence. */
  ghost predicate NoneChecked(st: State, key: Key) {
    forall t :: 0 <= t < |st.sequences| ==> NoCheck(st.sequences[t], key)
  }

  lemma {:induction false} QuietRuns(n: nat, steps: seq<Step>, more: seq<Step>, all: set<nat>, key: Key)
    requires Quiet(Exec(n, steps, all), key) && NoReAdd(more, key)
    ensures Quiet(Exec(n, steps + more, all), key)
    decreases |more|
  {
    if more == [] {
      assert steps + more == steps;
    } else {
      var front, step := more[..|more| - 1], more[|more| - 1];
      QuietRuns(n, steps, front, all, key);
      assert (steps + more)[..|steps + more| - 1] == steps + front;
      if Enabled(Exec(n, steps + front, all), step) {
        QuietStays(Exec(n, steps + front, all), step, all, key);
      }
    }
  }

  lemma CheckedCanStart(st: State, t: nat, k: nat)
    requires Placed(st) && t < |st.sequences| && Disciplined(st.sequences[t])
    requires k < |st.sequences[t].stack| && st.sequences[t].stack[k].Checked?
    ensures Enabled(st, Start(t)) && Top(st.sequences[t]) == Some(st.sequences[t].stack[k])
  {}

  /** A removal, from whatever sequence, silences the observer if and only if no callback to it has
      passed the locked check without having started. */
  lemma RemovalSilencesExactlyWhenNoneChecked(n: nat, steps: seq<Step>, all: set<nat>, s: nat, key: Key)
    requires Enabled(Exec(n, steps, all), RemoveObserver(s, key))
    ensures Silenced(n, steps + [RemoveObserver(s, key)], all, key) <==> NoneChecked(Exec(n, steps, all), key)
  {
    var removed := steps + [RemoveObserver(s, key)];
    var st, st' := Exec(n, steps, all), Exec(n, removed, all);
    assert removed[..|removed| - 1] == steps;
    assert st' == Apply(st, RemoveObserver(s, key), all);
    EveryRunKeepsInvariant(n, steps, all);
    if NoneChecked(st, key) {
      forall more: seq<Step> | NoReAdd(more, key) ensures StartsNone(Exec(n, removed + more, all), key) {
        QuietRuns(n, removed, more, all, key);
        QuietStartsNothing(Exec(n, removed + more, all), key);
      }
    } else {
      var t :| 0 <= t < |st.sequences| && !NoCheck(st.sequences[t], key);
      var stack := st.sequences[t].stack;
      var k :| 0 <= k < |stack| && stack[k].Checked? && stack[k].task.key == key;
      CheckedCanStart(st', t, k);
      assert removed + [] == removed && NoReAdd([], key);
    }
  }

  // A run in which another sequence removes the observer late.
  const LATE_KEY := Key(0, 7)
  const LATE_STEPS := [AddObserver(0, LATE_KEY), Notify(1, 0, 0, [7]), RunTask(0), RemoveObserver(1, LATE_KEY)]
  const LATE_TASK := Task(0, LATE_KEY, Note(0, 0))
  const IDLE := Sequence([], [], None)
  const ADDED := State(map[LATE_KEY := 0], [IDLE, IDLE], map[LATE_KEY := 0], 0, multiset{}, multiset{}, multiset{})
  const NOTIFIED :=
    ADDED.(sequences := [IDLE.(queue := [LATE_TASK]), IDLE], nextUid := 1, posted := multiset{LATE_TASK})
  const FOUND := NOTIFIED.(sequences := [IDLE.(stack := [Checked(LATE_TASK)]), IDLE])

  lemma LateAdd()
    ensures Next(Initial(2), LATE_STEPS[0], {}) == ADDED
  {
    assert Initial(2).sequences == [IDLE, IDLE];
  }

  lemma LateNotify()
    ensures Next(ADDED, LATE_STEPS[1], {}) == NOTIFIED
  {
    var posted := Post(ADDED, 0, LATE_KEY, Note(0, 0));
    assert IDLE.queue + [LATE_TASK] == [LATE_TASK];
    assert posted.sequences == NOTIFIED.sequences && posted.posted == NOTIFIED.posted;
    assert Enumerates(ADDED, 0, [7]);
    assert PostAll(posted, 0, 0, [7][1..], None) == posted;
  }

  lemma LateCheck()
    ensures Next(NOTIFIED, LATE_STEPS[2], {}) == FOUND
  {
    assert LATE_STEPS[2] == RunTask(0) && IDLE.stack + [Checked(LATE_TASK)] == [Checked(LATE_TASK)];
    assert NOTIFIED.sequences[0].queue[1..] == [];
    assert FOUND.sequences == NOTIFIED.sequences[0 := IDLE.(stack := [Checked(LATE_TASK)])];
  }

  /** The promise is for the observer's own sequence only: when another sequence removes it between the
      locked check and the callback, the callback still starts. */
  lemma RemovalElsewhereCanBeLate()
    ensures LATE_KEY !in Exec(2, LATE_STEPS, {}).observers
    ensures Enabled(Exec(2, LATE_STEPS, {}), Start(0))
    ensures Top(Exec(2, LATE_STEPS, {}).sequences[0]).value.task.key == LATE_KEY
  {
    LateRun();
    ExecSnoc(2, LATE_STEPS[..3], LATE_STEPS[3], {});
    assert LATE_STEPS == LATE_STEPS[..3] + [LATE_STEPS[3]];
  }

  lemma LateRun()
    ensures Exec(2, LATE_STEPS[..3], {}) == FOUND
  {
    LateNotified();
    LateCheck();
    ExecPrefix(2, LATE_STEPS, 2, {});
  }

  lemma LateNotified()
    ensures Exec(2, LATE_STEPS[..2], {}) == NOTIFIED
  {
    LateAdded();
    LateNotify();
    ExecPrefix(2, LATE_STEPS, 1, {});
  }

  lemma LateAdded()
    ensures Exec(2, LATE_STEPS[..1], {}) == ADDED
  {
    LateAdd();
    assert LATE_STEPS[..0] == [] && Exec(2, [], {}) == Initial(2);
    ExecPrefix(2, LATE_STEPS, 0, {});
  }

  lemma ExecPrefix(n: nat, steps: seq<Step>, i: nat, all: set<nat>)
    requires i < |steps|
    ensures Exec(n, steps[..i + 1], all) == Next(Exec(n, steps[..i], all), steps[i], all)
  {
    ExecSnoc(n, steps[..i], steps[i], all);
    assert steps[..i + 1] == steps[..i] + [steps[i]];
  }

  lemma ExecSnoc(n: nat, steps: seq<Step>, step: Step, all: set<nat>)
    ensures Exec(n, steps + [step], all) == Next(Exec(n, steps, all), step, all)
  {
    assert (steps + [step])[..|steps|] == steps;
  }
}
