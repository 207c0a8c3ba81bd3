/**
  `GetOrCreateLazyPointer` raced by any number of threads: one atomic word is 0, the value that
  holds the lock while the instance is being created, or the instance.
 */
module LazyPointer {

  const CREATING := 1

  /** If any bit but the lock's is set, the instance has been created. */
  predicate IsCreated(word: nat) {
    word / 2 != 0
  }

  /** What a creator can return: null, or an aligned address. */
  predicate IsPointer(p: nat) {
    p % 2 == 0
  }

  /** Where a thread is: before the fast-path load, before `NeedsLazyInstance`, inside it and waiting,
      past it and told to load, told to create, with a new instance to publish, or back. */
  datatype Place = Calling | Asking | Waiting | Loading | Creating | Publishing(p: nat) | Returned(p: nat)

  /** `words` is every value the word has had; `creations` counts calls of the creator. */
  datatype State = State(word: nat, threads: seq<Place>, creations: nat, words: seq<nat>)

  datatype Step = Load(t: nat) | Ask(t: nat) | Wake(t: nat) | Reload(t: nat) | Create(t: nat, p: nat) | Publish(t: nat)

  predicate Enabled(st: State, step: Step) {
    step.t < |st.threads| &&
    match step
    case Load(t) => st.threads[t].Calling?
    case Ask(t) => st.threads[t].Asking?
    case Wake(t) => st.threads[t].Waiting? && st.word != CREATING
    case Reload(t) => st.threads[t].Loading?
    case Create(t, p) => st.threads[t].Creating? && IsPointer(p)
    case Publish(t) => st.threads[t].Publishing?
  }

  function Go(st: State, t: nat, place: Place): State
    requires t < |st.threads|
  {
    st.(threads := st.threads[t := place])
  }

  function Store(st: State, word: nat): State {
    st.(word := word, words := st.words + [word])
  }

  function Apply(st: State, step: Step): State
    requires Enabled(st, step)
  {
    match step
    case Load(t) => Go(st, t, if IsCreated(st.word) then Returned(st.word) else Asking)
    case Ask(t) => if st.word == 0 then Go(Store(st, CREATING), t, Creating) else Go(st, t, Waiting)
    case Wake(t) => Go(st, t, Loading)
    case Reload(t) => Go(st, t, Returned(st.word))
    case Create(t, p) => Go(st, t, Publishing(p)).(creations := st.creations + 1)
    case Publish(t) => Go(Store(st, st.threads[t].p), t, Returned(st.threads[t].p))
  }

  function Initial(n: nat): State {
    State(0, seq(n, i => Calling), 0, [0])
  }

  /** The state after a run; a step that is not enabled does nothing. */
  function Exec(n: nat, steps: seq<Step>): State {
    if steps == [] then Initial(n) else Next(Exec(n, steps[..|steps| - 1]), steps[|steps| - 1])
  }

  function Next(st: State, step: Step): State {
    if Enabled(st, step) then Apply(st, step) else st
  }

  predicate Owns(place: Place) {
    place.Creating? || place.Publishing?
  }

  /** The word is the lock exactly while one thread creates. */
  ghost predicate Locked(st: State) {
    && (forall t :: 0 <= t < |st.threads| && Owns(st.threads[t]) ==> st.word == CREATING)
    && (forall t, u :: 0 <= t < u < |st.threads| ==> !(Owns(st.threads[t]) && Owns(st.threads[u])))
    && (st.word == CREATING ==> exists t :: 0 <= t < |st.threads| && Owns(st.threads[t]))
    && (forall t :: 0 <= t < |st.threads| && st.threads[t].Publishing? ==> IsPointer(st.threads[t].p))
    && st.words != [] && st.words[|st.words| - 1] == st.word
  }

  lemma StepLocked(st: State, step: Step)
    requires Locked(st) && Enabled(st, step)
    ensures Locked(Apply(st, step))
  {
    var st' := Apply(st, step);
    if st'.word == CREATING {
      if st.word == CREATING {
        var t :| 0 <= t < |st.threads| && Owns(st.threads[t]);
        assert Owns(st'.threads[t]);
      } else {
        assert Owns(st'.threads[step.t]);
      }
    }
  }

  lemma {:induction false} RunsLocked(n: nat, steps: seq<Step>)
    ensures Locked(Exec(n, steps)) && |Exec(n, steps).threads| == n
  {
    if steps != [] {
      RunsLocked(n, steps[..|steps| - 1]);
      var st := Exec(n, steps[..|steps| - 1]);
      if Enabled(st, steps[|steps| - 1]) {
        StepLocked(st, steps[|steps| - 1]);
      }
    }
  }

  /** With a creator that never returns null: it has run as far as the word shows, the word's history
      is the beginning of 0, the lock, the instance, and every caller that is back has the instance. */
  ghost predicate Single(st: State) {
    && (st.word == 0 ==> st.creations == 0 && st.words == [0])
    && (st.word == CREATING ==> st.words == [0, CREATING])
    && (IsCreated(st.word) ==> st.creations == 1 && st.words == [0, CREATING, st.word])
    && (forall t :: 0 <= t < |st.threads| ==>
          && (st.threads[t].Creating? ==> st.creations == 0)
          && (st.threads[t].Publishing? ==> st.creations == 1 && IsCreated(st.threads[t].p))
          && (st.threads[t].Loading? ==> IsCreated(st.word))
          && (st.threads[t].Waiting? ==> st.word != 0)
          && (st.threads[t].Returned? ==> IsCreated(st.word) && st.threads[t].p == st.word))
  }

  ghost predicate SameForAll(threads: seq<Place>) {
    forall t, u :: 0 <= t < |threads| && 0 <= u < |threads| && threads[t].Returned? && threads[u].Returned? ==>
      threads[t].p == threads[u].p
  }

  ghost predicate InstanceForAll(threads: seq<Place>) {
    forall t :: 0 <= t < |threads| && threads[t].Returned? ==> IsCreated(threads[t].p)
  }

  /** The creator returns only values in `values`. */
  ghost predicate Over(steps: seq<Step>, values: set<nat>) {
    forall i :: 0 <= i < |steps| && steps[i].Create? ==> steps[i].p in values
  }

  lemma StepSingle(st: State, step: Step)
    requires Locked(st) && Single(st) && Enabled(st, step) && (step.Create? ==> step.p != 0)
    ensures Single(Apply(st, step))
  {}

  /** With any number of threads and a creator that never returns null, the creator runs at most once,
      every caller gets the same instance, and the word only moves from 0 to the lock to the pointer. */
  lemma {:induction false} CreatedOnceForAll(n: nat, steps: seq<Step>, values: set<nat>)
    requires 0 !in values && Over(steps, values)
    ensures Single(Exec(n, steps)) && Exec(n, steps).creations <= 1
    ensures SameForAll(Exec(n, steps).threads) && InstanceForAll(Exec(n, steps).threads)
  {
    RunsLocked(n, steps);
    if steps != [] {
      var front := steps[..|steps| - 1];
      CreatedOnceForAll(n, front, values);
      RunsLocked(n, front);
      if Enabled(Exec(n, front), steps[|steps| - 1]) {
        StepSingle(Exec(n, front), steps[|steps| - 1]);
      }
    }
  }

  /** Nothing has been created; a caller that is back has null or has loaded the lock. */
  ghost predicate Never(st: State) {
    && !IsCreated(st.word)
    && (forall t :: 0 <= t < |st.threads| ==>
          && (st.threads[t].Publishing? ==> st.threads[t].p == 0)
          && (st.threads[t].Returned? ==> st.threads[t].p == 0 || st.threads[t].p == CREATING))
  }

  /** With a creator that only returns null nothing is ever created. */
  lemma {:induction false} NullCreatorCreatesNothing(n: nat, steps: seq<Step>)
    requires Over(steps, {0})
    ensures Never(Exec(n, steps))
  {
    if steps != [] {
      NullCreatorCreatesNothing(n, steps[..|steps| - 1]);
    }
  }

  // ----- What other callers a caller must have met, whatever the creator returns

  ghost predicate AnotherIsBack(threads: seq<Place>, t: nat) {
    exists u :: 0 <= u < |threads| && u != t && threads[u].Returned?
  }

  ghost predicate AnotherOwned(threads: seq<Place>, t: nat) {
    exists u :: 0 <= u < |threads| && u != t && (Owns(threads[u]) || threads[u].Returned?)
  }

  /** A caller that waits met another that created; one told to load met another that is back; one that
      loaded the lock met both; and a caller alone creates once. */
  ghost predicate Met(st: State, t: nat)
    requires t < |st.threads|
  {
    && (st.threads[t].Waiting? ==> AnotherOwned(st.threads, t))
    && (st.threads[t].Loading? ==> AnotherIsBack(st.threads, t))
    && (st.threads[t] == Returned(CREATING) ==> |st.threads| >= 3)
    && (IsCreated(st.word) && !st.threads[t].Returned? ==> AnotherIsBack(st.threads, t))
    && (|st.threads| == 1 ==>
          st.creations <= if st.threads[t].Publishing? || st.threads[t].Returned? then 1 else 0)
  }

  ghost predicate AllMet(st: State) {
    forall t {:trigger Met(st, t)} :: 0 <= t < |st.threads| ==> Met(st, t)
  }

  lemma MetStays(st: State, step: Step, t: nat)
    requires Locked(st) && Enabled(st, step) && t < |st.threads| && t != step.t && Met(st, t)
    ensures Met(Apply(st, step), t)
  {
    var st' := Apply(st, step);
    if AnotherIsBack(st.threads, t) {
      var u :| 0 <= u < |st.threads| && u != t && st.threads[u].Returned?;
      assert st'.threads[u].Returned?;
    } else if AnotherOwned(st.threads, t) {
      var u :| 0 <= u < |st.threads| && u != t && Owns(st.threads[u]);
      assert Owns(st'.threads[u]) || st'.threads[u].Returned?;
    }
    if step.Publish? {
      assert st'.threads[step.t].Returned?;
    }
  }

  lemma OtherOwner(st: State, t: nat)
    requires Locked(st) && t < |st.threads| && !Owns(st.threads[t]) && st.word == CREATING
    ensures AnotherOwned(st.threads, t)
  {
    var u :| 0 <= u < |st.threads| && Owns(st.threads[u]);
    assert u != t;
  }

  lemma AskMeets(st: State, t: nat)
    requires Locked(st) && Enabled(st, Ask(t)) && Met(st, t)
    ensures Met(Apply(st, Ask(t)), t)
  {
    var st' := Apply(st, Ask(t));
    if st.word == CREATING {
      OtherOwner(st, t);
      var u :| 0 <= u < |st.threads| && u != t && (Owns(st.threads[u]) || st.threads[u].Returned?);
      assert Owns(st'.threads[u]) || st'.threads[u].Returned?;
    } else if st.word != 0 {
      var u :| 0 <= u < |st.threads| && u != t && st.threads[u].Returned?;
      assert st'.threads[u].Returned?;
    }
  }

  lemma WakeMeets(st: State, t: nat)
    requires Locked(st) && Enabled(st, Wake(t)) && Met(st, t)
    ensures Met(Apply(st, Wake(t)), t)
  {
    var u :| 0 <= u < |st.threads| && u != t && (Owns(st.threads[u]) || st.threads[u].Returned?);
    assert Apply(st, Wake(t)).threads[u].Returned?;
  }

  lemma ReloadMeets(st: State, t: nat)
    requires Locked(st) && Enabled(st, Reload(t)) && Met(st, t)
    ensures Met(Apply(st, Reload(t)), t)
  {
    var u :| 0 <= u < |st.threads| && u != t && st.threads[u].Returned?;
    if st.word == CREATING {
      var v :| 0 <= v < |st.threads| && Owns(st.threads[v]);
      assert v != t && v != u;
    }
  }

  lemma OwnStepMeets(st: State, step: Step)
    requires Locked(st) && Enabled(st, step) && Met(st, step.t)
    ensures Met(Apply(st, step), step.t)
  {
    match step
    case Load(t) => LoadMeets(st, t);
    case Ask(t) => AskMeets(st, t);
    case Wake(t) => WakeMeets(st, t);
    case Reload(t) => ReloadMeets(st, t);
    case Create(t, p) => CreateMeets(st, t, p);
    case Publish(t) =>
  }

  lemma LoadMeets(st: State, t: nat)
    requires Enabled(st, Load(t)) && Met(st, t)
    ensures Met(Apply(st, Load(t)), t)
  {
    if IsCreated(st.word) {
      var u :| 0 <= u < |st.threads| && u != t && st.threads[u].Returned?;
    }
  }

  lemma CreateMeets(st: State, t: nat, p: nat)
    requires Locked(st) && Enabled(st, Create(t, p)) && Met(st, t)
    ensures Met(Apply(st, Create(t, p)), t)
  {}

  lemma {:induction false} RunsMeet(n: nat, steps: seq<Step>)
    ensures AllMet(Exec(n, steps)) && |Exec(n, steps).threads| == n
  {
    RunsLocked(n, steps);
    if steps != [] {
      var front, step := steps[..|steps| - 1], steps[|steps| - 1];
      RunsMeet(n, front);
      RunsLocked(n, front);
      var st := Exec(n, front);
      if Enabled(st, step) {
        assert Met(st, step.t);
        OwnStepMeets(st, step);
        forall t | 0 <= t < n && t != step.t ensures Met(Apply(st, step), t) {
          assert Met(st, t);
          MetStays(st, step, t);
        }
      }
    }
  }

  // ----- Runs of a creator that returns null

  /** The word and the places of the first three callers, as far as there are so many. */
  ghost predicate Shows(st: State, n: nat, word: nat, a: Place, b: Place, c: Place) {
    && |st.threads| == n >= 1 && st.word == word && st.threads[0] == a
    && (n >= 2 ==> st.threads[1] == b) && (n >= 3 ==> st.threads[2] == c)
  }

  lemma ExecSnoc(n: nat, steps: seq<Step>, step: Step)
    ensures Exec(n, steps + [step]) == Next(Exec(n, steps), step)
  {
    assert (steps + [step])[..|steps|] == steps;
  }

  const FIRST_GETS_NULL := [Load(0), Ask(0), Create(0, 0), Publish(0)]

  lemma FirstIsNull(n: nat)
    requires n >= 1
    ensures Shows(Exec(n, FIRST_GETS_NULL), n, 0, Returned(0), Calling, Calling)
    ensures Exec(n, FIRST_GETS_NULL).creations == 1
  {
    ExecSnoc(n, [], Load(0));
    ExecSnoc(n, [Load(0)], Ask(0));
    ExecSnoc(n, [Load(0), Ask(0)], Create(0, 0));
    ExecSnoc(n, [Load(0), Ask(0), Create(0, 0)], Publish(0));
    assert [] + [Load(0)] == [Load(0)] && [Load(0)] + [Ask(0)] == [Load(0), Ask(0)];
    assert [Load(0), Ask(0)] + [Create(0, 0)] == [Load(0), Ask(0), Create(0, 0)];
    assert [Load(0), Ask(0), Create(0, 0)] + [Publish(0)] == FIRST_GETS_NULL;
  }

  function SecondCreates(p: nat): seq<Step> {
    FIRST_GETS_NULL + [Load(1)] + [Ask(1)] + [Create(1, p)] + [Publish(1)]
  }

  lemma SecondGets(n: nat, p: nat)
    requires n >= 2 && IsPointer(p)
    ensures Shows(Exec(n, SecondCreates(p)), n, p, Returned(0), Returned(p), Calling)
    ensures Exec(n, SecondCreates(p)).creations == 2
  {
    FirstIsNull(n);
    ExecSnoc(n, FIRST_GETS_NULL, Load(1));
    ExecSnoc(n, FIRST_GETS_NULL + [Load(1)], Ask(1));
    ExecSnoc(n, FIRST_GETS_NULL + [Load(1)] + [Ask(1)], Create(1, p));
    ExecSnoc(n, FIRST_GETS_NULL + [Load(1)] + [Ask(1)] + [Create(1, p)], Publish(1));
  }

  // The second caller loses the race to the null of the first.
  const BOTH_ASK := [Load(0), Ask(0), Load(1), Ask(1)]
  const LOSES_TO_NULL := BOTH_ASK + [Create(0, 0)] + [Publish(0)] + [Wake(1)]

  lemma BothHaveAsked(n: nat)
    requires n >= 2
    ensures Shows(Exec(n, BOTH_ASK), n, CREATING, Creating, Waiting, Calling)
  {
    ExecSnoc(n, [], Load(0));
    ExecSnoc(n, [Load(0)], Ask(0));
    ExecSnoc(n, [Load(0), Ask(0)], Load(1));
    ExecSnoc(n, [Load(0), Ask(0), Load(1)], Ask(1));
    assert [] + [Load(0)] == [Load(0)] && [Load(0)] + [Ask(0)] == [Load(0), Ask(0)];
    assert [Load(0), Ask(0)] + [Load(1)] == [Load(0), Ask(0), Load(1)];
    assert [Load(0), Ask(0), Load(1)] + [Ask(1)] == BOTH_ASK;
  }

  lemma SecondLoses(n: nat)
    requires n >= 2
    ensures Shows(Exec(n, LOSES_TO_NULL), n, 0, Returned(0), Loading, Calling)
  {
    BothHaveAsked(n);
    ExecSnoc(n, BOTH_ASK, Create(0, 0));
    ExecSnoc(n, BOTH_ASK + [Create(0, 0)], Publish(0));
    ExecSnoc(n, BOTH_ASK + [Create(0, 0)] + [Publish(0)], Wake(1));
  }

  // A third caller takes the lock before the second one loads the word.
  const LOADS_THE_LOCK := LOSES_TO_NULL + [Load(2)] + [Ask(2)] + [Reload(1)]

  lemma SecondLoadsTheLock(n: nat)
    requires n >= 3
    ensures Shows(Exec(n, LOADS_THE_LOCK), n, CREATING, Returned(0), Returned(CREATING), Creating)
  {
    SecondLoses(n);
    ExecSnoc(n, LOSES_TO_NULL, Load(2));
    ExecSnoc(n, LOSES_TO_NULL + [Load(2)], Ask(2));
    ExecSnoc(n, LOSES_TO_NULL + [Load(2)] + [Ask(2)], Reload(1));
  }

  // ----- Exactly when the guarantees hold, for `n` callers and a creator that may return `values`

  ghost predicate AlwaysInstance(n: nat, values: set<nat>) {
    forall steps: seq<Step> :: Over(steps, values) ==> InstanceForAll(Exec(n, steps).threads)
  }

  ghost predicate AlwaysSame(n: nat, values: set<nat>) {
    forall steps: seq<Step> :: Over(steps, values) ==> SameForAll(Exec(n, steps).threads)
  }

  ghost predicate AlwaysOnce(n: nat, values: set<nat>) {
    forall steps: seq<Step> :: Over(steps, values) ==> Exec(n, steps).creations <= 1
  }

  /** A caller comes to the second load and its assertion while nothing has been created. */
  ghost predicate MissesAssertion(st: State) {
    !IsCreated(st.word) && exists t :: 0 <= t < |st.threads| && st.threads[t].Loading?
  }

  ghost predicate CanMissAssertion(n: nat, values: set<nat>) {
    exists steps: seq<Step> :: Over(steps, values) && MissesAssertion(Exec(n, steps))
  }

  ghost predicate CanReturnLock(n: nat, values: set<nat>) {
    exists steps: seq<Step> :: Over(steps, values) && Returned(CREATING) in Exec(n, steps).threads
  }

  /** Every caller that returns has an instance, in every run, if and only if the creator cannot return
      null. */
  lemma InstanceExactlyWithoutNull(n: nat, values: set<nat>)
    requires n >= 1
    ensures AlwaysInstance(n, values) <==> 0 !in values
  {
    if 0 in values {
      FirstIsNull(n);
      assert Over(FIRST_GETS_NULL, values);
      assert Exec(n, FIRST_GETS_NULL).threads[0] == Returned(0);
    } else {
      forall steps: seq<Step> | Over(steps, values) ensures InstanceForAll(Exec(n, steps).threads) {
        CreatedOnceForAll(n, steps, values);
      }
    }
  }

  /** The creator is called at most once, in every run, if and only if it cannot return null or there is
      only one caller. */
  lemma OnceExactlyWithoutNull(n: nat, values: set<nat>)
    ensures AlwaysOnce(n, values) <==> 0 !in values || n <= 1
  {
    if 0 in values && n >= 2 {
      SecondGets(n, 0);
      assert Over(SecondCreates(0), values);
    } else {
      forall steps: seq<Step> | Over(steps, values) ensures Exec(n, steps).creations <= 1 {
        CreatedAtMostOnce(n, steps, values);
      }
    }
  }

  lemma {:induction false} CreatedAtMostOnce(n: nat, steps: seq<Step>, values: set<nat>)
    requires Over(steps, values) && (0 !in values || n <= 1)
    ensures Exec(n, steps).creations <= 1
  {
    RunsMeet(n, steps);
    if 0 !in values {
      CreatedOnceForAll(n, steps, values);
    } else if n == 1 {
      assert Met(Exec(n, steps), 0);
    } else if steps != [] {
      RunsMeet(n, steps[..|steps| - 1]);
      CreatedAtMostOnce(n, steps[..|steps| - 1], values);
    }
  }

  /** The assertion after the second load can be missed if and only if the creator can return null and
      there are at least two callers. */
  lemma AssertionMissedExactly(n: nat, values: set<nat>)
    ensures CanMissAssertion(n, values) <==> 0 in values && n >= 2
  {
    if 0 in values && n >= 2 {
      SecondLoses(n);
      assert Over(LOSES_TO_NULL, values);
      assert Exec(n, LOSES_TO_NULL).threads[1].Loading?;
    }
    if steps: seq<Step> :| Over(steps, values) && MissesAssertion(Exec(n, steps)) {
      RunsMeet(n, steps);
      var t :| 0 <= t < n && Exec(n, steps).threads[t].Loading?;
      assert Met(Exec(n, steps), t);
      if 0 !in values {
        CreatedOnceForAll(n, steps, values);
      }
    }
  }

  /** A caller can return the lock itself if and only if the creator can return null and there are at
      least three callers. */
  lemma LockReturnedExactly(n: nat, values: set<nat>)
    ensures CanReturnLock(n, values) <==> 0 in values && n >= 3
  {
    if 0 in values && n >= 3 {
      SecondLoadsTheLock(n);
      assert Over(LOADS_THE_LOCK, values);
      assert Exec(n, LOADS_THE_LOCK).threads[1] == Returned(CREATING);
    }
    if steps: seq<Step> :| Over(steps, values) && Returned(CREATING) in Exec(n, steps).threads {
      RunsMeet(n, steps);
      var t :| 0 <= t < n && Exec(n, steps).threads[t] == Returned(CREATING);
      assert Met(Exec(n, steps), t);
      if 0 !in values {
        CreatedOnceForAll(n, steps, values);
      }
    }
  }

  /** All callers that return have the same value, in every run, if and only if the creator cannot return
      null, or there is one caller, or there are two and it returns nothing but null. */
  lemma SameExactly(n: nat, values: set<nat>)
    requires forall p :: p in values ==> IsPointer(p)
    ensures AlwaysSame(n, values) <==> 0 !in values || n <= 1 || (n == 2 && values == {0})
  {
    if 0 in values && n >= 2 && values != {0} {
      var p :| p in values && p != 0;
      SecondGets(n, p);
      assert Over(SecondCreates(p), values);
      assert Exec(n, SecondCreates(p)).threads[0] == Returned(0) && Exec(n, SecondCreates(p)).threads[1] == Returned(p);
    } else if 0 in values && n >= 3 {
      SecondLoadsTheLock(n);
      assert Over(LOADS_THE_LOCK, values);
      var threads := Exec(n, LOADS_THE_LOCK).threads;
      assert threads[0] == Returned(0) && threads[1] == Returned(CREATING);
    } else {
      forall steps: seq<Step> | Over(steps, values) ensures SameForAll(Exec(n, steps).threads) {
        SameWhen(n, steps, values);
      }
    }
  }

  lemma SameWhen(n: nat, steps: seq<Step>, values: set<nat>)
    requires Over(steps, values) && (0 !in values || n <= 1 || (n == 2 && values == {0}))
    ensures SameForAll(Exec(n, steps).threads)
  {
    RunsMeet(n, steps);
    if 0 !in values {
      CreatedOnceForAll(n, steps, values);
    } else if n == 2 {
      NullCreatorCreatesNothing(n, steps);
      forall t | 0 <= t < 2 && Exec(n, steps).threads[t].Returned? ensures Exec(n, steps).threads[t].p == 0 {
        assert Met(Exec(n, steps), t);
      }
    }
  }

  /** What the header asks of a creator that may return null: from then on it returns only null. */
  ghost predicate NullIsFinal(steps: seq<Step>) {
    forall i, j :: 0 <= i < j < |steps| && steps[i].Create? && steps[j].Create? && steps[i].p == 0 ==> steps[j].p == 0
  }

  ghost predicate ReturnedNull(steps: seq<Step>) {
    exists i :: 0 <= i < |steps| && steps[i].Create? && steps[i].p == 0
  }

  lemma NullEndsCreation(st: State, step: Step)
    requires Locked(st) && Single(st) && Enabled(st, step) && step.Create? && step.p == 0
    ensures Never(Apply(st, step))
  {
    assert st.word == CREATING;
  }

  /** Such a creator creates one instance for all, or none. */
  lemma {:induction false} OneInstanceOrNone(n: nat, steps: seq<Step>)
    requires NullIsFinal(steps)
    ensures Single(Exec(n, steps)) || (Never(Exec(n, steps)) && ReturnedNull(steps))
  {
    if steps != [] {
      var front, step := steps[..|steps| - 1], steps[|steps| - 1];
      OneInstanceOrNone(n, front);
      RunsLocked(n, front);
      var st := Exec(n, front);
      if ReturnedNull(front) {
        var i :| 0 <= i < |front| && front[i].Create? && front[i].p == 0;
        assert steps[i] == front[i];
      }
      if Enabled(st, step) {
        OneOrNoneStep(st, step, ReturnedNull(front));
      }
      if step.Create? && step.p == 0 {
        assert ReturnedNull(steps);
      }
    }
  }

  lemma OneOrNoneStep(st: State, step: Step, was: bool)
    requires Locked(st) && Enabled(st, step) && (Single(st) || (Never(st) && was))
    requires was && step.Create? ==> step.p == 0
    ensures Single(Apply(st, step)) || (Never(Apply(st, step)) && (was || (step.Create? && step.p == 0)))
  {
    if Single(st) {
      if step.Create? && step.p == 0 {
        NullEndsCreation(st, step);
      } else {
        StepSingle(st, step);
      }
    }
  }

  ghost predicate AlwaysSameByRule(n: nat, values: set<nat>) {
    forall steps: seq<Step> :: Over(steps, values) && NullIsFinal(steps) ==> SameForAll(Exec(n, steps).threads)
  }

  /** Under the header's rule all callers that return have the same value, in every run, if and only if
      the creator cannot return null or there are at most two callers. */
  lemma SameByRuleExactly(n: nat, values: set<nat>)
    ensures AlwaysSameByRule(n, values) <==> 0 !in values || n <= 2
  {
    if 0 in values && n >= 3 {
      SecondLoadsTheLock(n);
      assert Over(LOADS_THE_LOCK, values) && NullIsFinal(LOADS_THE_LOCK);
      var threads := Exec(n, LOADS_THE_LOCK).threads;
      assert threads[0] == Returned(0) && threads[1] == Returned(CREATING);
    } else {
      forall steps: seq<Step> | Over(steps, values) && NullIsFinal(steps) ensures SameForAll(Exec(n, steps).threads) {
        SameByRule(n, steps, values);
      }
    }
  }

  lemma SameByRule(n: nat, steps: seq<Step>, values: set<nat>)
    requires Over(steps, values) && NullIsFinal(steps) && (0 !in values || n <= 2)
    ensures SameForAll(Exec(n, steps).threads)
  {
    OneInstanceOrNone(n, steps);
    RunsMeet(n, steps);
    if !Single(Exec(n, steps)) {
      forall t | 0 <= t < n && Exec(n, steps).threads[t].Returned? ensures Exec(n, steps).threads[t].p == 0 {
        assert Met(Exec(n, steps), t);
      }
    }
  }

  /** While a caller is not back, some caller can go on: waiting never lasts for ever by itself. */
  lemma SomeCallerCanStep(n: nat, steps: seq<Step>, t: nat, p: nat) returns (u: nat)
    requires t < |Exec(n, steps).threads| && !Exec(n, steps).threads[t].Returned? && IsPointer(p)
    ensures var st := Exec(n, steps);
            || Enabled(st, Load(u)) || Enabled(st, Ask(u)) || Enabled(st, Wake(u))
            || Enabled(st, Reload(u)) || Enabled(st, Create(u, p)) || Enabled(st, Publish(u))
  {
    RunsLocked(n, steps);
    var st := Exec(n, steps);
    if st.threads[t].Waiting? && st.word == CREATING {
      u :| u < |st.threads| && Owns(st.threads[u]);
    } else {
      u := t;
    }
  }

  // ----- Every call comes back

  /** How many steps a caller still takes at most. */
  function Rank(place: Place): nat {
    match place
    case Calling => 5
    case Asking => 4
    case Waiting => 2
    case Loading => 1
    case Creating => 2
    case Publishing(_) => 1
    case Returned(_) => 0
  }

  function Ranks(threads: seq<Place>): nat {
    if threads == [] then 0 else Ranks(threads[..|threads| - 1]) + Rank(threads[|threads| - 1])
  }

  lemma {:induction false} RanksUpdate(threads: seq<Place>, t: nat, place: Place)
    requires t < |threads|
    ensures Ranks(threads[t := place]) == Ranks(threads) - Rank(threads[t]) + Rank(place)
  {
    var m := |threads| - 1;
    if t < m {
      RanksUpdate(threads[..m], t, place);
      assert threads[t := place][..m] == threads[..m][t := place];
    } else {
      assert threads[t := place][..m] == threads[..m];
    }
  }

  /** Every step brings its caller nearer to its return. */
  lemma StepLowersRanks(st: State, step: Step)
    requires Enabled(st, step)
    ensures Ranks(Apply(st, step).threads) < Ranks(st.threads)
  {
    RanksUpdate(st.threads, step.t, Apply(st, step).threads[step.t]);
  }

  /** A caller that comes when the instance has been created gets it at once. */
  lemma CreatedIsReturnedAtOnce(st: State, t: nat)
    requires Enabled(st, Load(t)) && IsCreated(st.word)
    ensures Apply(st, Load(t)).threads[t] == Returned(st.word) && Apply(st, Load(t)).word == st.word
  {}

  ghost predicate AllBack(threads: seq<Place>) {
    forall t :: 0 <= t < |threads| ==> threads[t].Returned?
  }

  /** From every state of every run all callers can come back, in at most five steps each, whatever the
      creator returns. */
  lemma {:induction false} AllCanComeBack(n: nat, steps: seq<Step>, p: nat) returns (more: seq<Step>)
    requires IsPointer(p)
    ensures AllBack(Exec(n, steps + more).threads) && |more| <= Ranks(Exec(n, steps).threads)
    ensures Over(more, {p})
    decreases Ranks(Exec(n, steps).threads)
  {
    var st := Exec(n, steps);
    if AllBack(st.threads) {
      more := [];
      assert steps + more == steps;
    } else {
      var step := SomeStep(n, steps, p);
      StepLowersRanks(st, step);
      ExecSnoc(n, steps, step);
      var rest := AllCanComeBack(n, steps + [step], p);
      more := [step] + rest;
      assert steps + [step] + rest == steps + more;
    }
  }

  lemma SomeStep(n: nat, steps: seq<Step>, p: nat) returns (step: Step)
    requires IsPointer(p) && !AllBack(Exec(n, steps).threads)
    ensures Enabled(Exec(n, steps), step) && (step.Create? ==> step.p == p)
  {
    var st := Exec(n, steps);
    var t :| 0 <= t < |st.threads| && !st.threads[t].Returned?;
    var u := SomeCallerCanStep(n, steps, t, p);
    step := if Enabled(st, Load(u)) then Load(u) else if Enabled(st, Ask(u)) then Ask(u)
            else if Enabled(st, Wake(u)) then Wake(u) else if Enabled(st, Reload(u)) then Reload(u)
            else if Enabled(st, Create(u, p)) then Create(u, p) else Publish(u);
  }
}
