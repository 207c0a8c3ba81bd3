/**
  The vector of observer slots and the registrations it stands for.

  A slot holds an observer or is marked for removal.  Each slot has a stamp (a ghost of the
  list): the vector's unmarked slots, with their stamps, are the registrations of
  `Registrations`.
 */
module Slots {
  import opened Wrappers
  import opened Registrations

  datatype Slot = Marked | Holds(obs: Observer)

  /** The registrations a vector of slots stands for. */
  function Entries(slots: seq<Slot>, stamps: seq<nat>): seq<Entry>
    requires |slots| == |stamps|
  {
    if slots == [] then []
    else
      var n := |slots| - 1;
      Entries(slots[..n], stamps[..n]) + (if slots[n].Holds? then [Entry(stamps[n], slots[n].obs)] else [])
  }

  ghost predicate Rising(stamps: seq<nat>, next: nat) {
    && (forall i, j :: 0 <= i < j < |stamps| ==> stamps[i] < stamps[j])
    && (forall i :: 0 <= i < |stamps| ==> stamps[i] < next)
  }

  ghost predicate Unrepeated(slots: seq<Slot>) {
    forall i, j :: 0 <= i < j < |slots| && slots[i].Holds? ==> slots[i] != slots[j]
  }

  ghost predicate NoMarks(slots: seq<Slot>) {
    forall i :: 0 <= i < |slots| ==> slots[i].Holds?
  }

  ghost predicate MarkedBetween(slots: seq<Slot>, lo: nat, hi: nat) {
    forall k :: lo <= k < hi && k < |slots| ==> slots[k].Marked?
  }

  /** While an iterator is live the vector only grows at the tail, by later registrations, or turns
      slots into marks: no index ever shifts. */
  ghost predicate Grows(slots: seq<Slot>, stamps: seq<nat>, next: nat, slots': seq<Slot>, stamps': seq<nat>) {
    && |slots| == |stamps| <= |slots'| == |stamps'| && stamps <= stamps'
    && (forall i :: 0 <= i < |slots| ==> slots'[i] == slots[i] || slots'[i].Marked?)
    && (forall i :: |slots| <= i < |stamps'| ==> next <= stamps'[i])
  }

  lemma GrowsTransitive(a: seq<Slot>, s: seq<nat>, n: nat, b: seq<Slot>, t: seq<nat>, m: nat, c: seq<Slot>, u: seq<nat>)
    requires Grows(a, s, n, b, t) && Grows(b, t, m, c, u) && n <= m
    ensures Grows(a, s, n, c, u)
  {
    assert forall i :: 0 <= i < |b| ==> u[i] == t[i];
  }

  function Erased<T>(s: seq<T>, i: nat): seq<T>
    requires i < |s|
  {
    s[..i] + s[i + 1..]
  }

  function Compacted(slots: seq<Slot>): seq<Slot> {
    if slots == [] then []
    else
      var n := |slots| - 1;
      Compacted(slots[..n]) + (if slots[n].Holds? then [slots[n]] else [])
  }

  ghost function CompactedStamps(slots: seq<Slot>, stamps: seq<nat>): seq<nat>
    requires |slots| == |stamps|
  {
    if slots == [] then []
    else
      var n := |slots| - 1;
      CompactedStamps(slots[..n], stamps[..n]) + (if slots[n].Holds? then [stamps[n]] else [])
  }

  lemma {:induction false} EntryHasSlot(slots: seq<Slot>, stamps: seq<nat>, e: Entry) returns (i: nat)
    requires |slots| == |stamps| && e in Entries(slots, stamps)
    ensures i < |slots| && slots[i] == Holds(e.obs) && stamps[i] == e.stamp
  {
    var n := |slots| - 1;
    if e in Entries(slots[..n], stamps[..n]) {
      i := EntryHasSlot(slots[..n], stamps[..n], e);
    } else {
      i := n;
    }
  }

  lemma {:induction false} SlotHasEntry(slots: seq<Slot>, stamps: seq<nat>, i: nat)
    requires |slots| == |stamps| && i < |slots| && slots[i].Holds?
    ensures Entry(stamps[i], slots[i].obs) in Entries(slots, stamps)
  {
    var n := |slots| - 1;
    if i < n {
      SlotHasEntry(slots[..n], stamps[..n], i);
    }
  }

  lemma RegisteredHasSlot(slots: seq<Slot>, stamps: seq<nat>, o: Observer)
    requires |slots| == |stamps|
    ensures Registered(Entries(slots, stamps), o) <==> Holds(o) in slots
  {
    var entries := Entries(slots, stamps);
    if Registered(entries, o) {
      var k :| 0 <= k < |entries| && entries[k].obs == o;
      var i := EntryHasSlot(slots, stamps, entries[k]);
    }
    if Holds(o) in slots {
      var i :| 0 <= i < |slots| && slots[i] == Holds(o);
      SlotHasEntry(slots, stamps, i);
    }
  }

  lemma {:induction false} EntriesOrdered(slots: seq<Slot>, stamps: seq<nat>, next: nat)
    requires |slots| == |stamps| && Rising(stamps, next)
    ensures Ordered(Entries(slots, stamps))
  {
    if slots != [] {
      var n := |slots| - 1;
      EntriesOrdered(slots[..n], stamps[..n], next);
      var front := Entries(slots[..n], stamps[..n]);
      forall i | 0 <= i < |front| ensures front[i].stamp < stamps[n] {
        var k := EntryHasSlot(slots[..n], stamps[..n], front[i]);
      }
    }
  }

  lemma {:induction false} EntriesDistinct(slots: seq<Slot>, stamps: seq<nat>)
    requires |slots| == |stamps| && Unrepeated(slots)
    ensures Distinct(Entries(slots, stamps))
  {
    if slots != [] {
      var n := |slots| - 1;
      EntriesDistinct(slots[..n], stamps[..n]);
      var front := Entries(slots[..n], stamps[..n]);
      forall i | 0 <= i < |front| && slots[n].Holds? ensures front[i].obs != slots[n].obs {
        var k := EntryHasSlot(slots[..n], stamps[..n], front[i]);
      }
    }
  }

  lemma EntriesWellFormed(slots: seq<Slot>, stamps: seq<nat>, next: nat)
    requires |slots| == |stamps| && Rising(stamps, next) && Unrepeated(slots)
    ensures WellFormed(Registry(Entries(slots, stamps), next, true))
  {
    EntriesOrdered(slots, stamps, next);
    EntriesDistinct(slots, stamps);
    var entries := Entries(slots, stamps);
    forall i | 0 <= i < |entries| ensures entries[i].stamp < next {
      var k := EntryHasSlot(slots, stamps, entries[i]);
    }
  }

  /** Appending a slot for a new observer adds its registration. */
  lemma AppendAdds(slots: seq<Slot>, stamps: seq<nat>, next: nat, o: Observer)
    requires |slots| == |stamps| && Rising(stamps, next) && Unrepeated(slots) && Holds(o) !in slots
    ensures Rising(stamps + [next], next + 1) && Unrepeated(slots + [Holds(o)])
    ensures Entries(slots + [Holds(o)], stamps + [next]) == Entries(slots, stamps) + [Entry(next, o)]
  {
    assert (slots + [Holds(o)])[..|slots|] == slots && (stamps + [next])[..|stamps|] == stamps;
  }

  lemma {:induction false} WithoutAbsent(slots: seq<Slot>, stamps: seq<nat>, o: Observer)
    requires |slots| == |stamps| && Holds(o) !in slots
    ensures Without(Entries(slots, stamps), o) == Entries(slots, stamps)
  {
    if slots != [] {
      var n := |slots| - 1;
      WithoutAbsent(slots[..n], stamps[..n], o);
      var front := Entries(slots[..n], stamps[..n]);
      if slots[n].Holds? {
        assert (front + [Entry(stamps[n], slots[n].obs)])[..|front|] == front;
      } else {
        assert front + [] == front;
      }
    }
  }

  /** Removing an observer's registration, one slot at a time. */
  lemma WithoutLast(slots: seq<Slot>, stamps: seq<nat>, o: Observer)
    requires |slots| == |stamps| > 0
    ensures var n := |slots| - 1;
            Without(Entries(slots, stamps), o)
            == Without(Entries(slots[..n], stamps[..n]), o)
               + if slots[n].Holds? && slots[n].obs != o then [Entry(stamps[n], slots[n].obs)] else []
  {
    var n := |slots| - 1;
    var front := Entries(slots[..n], stamps[..n]);
    if slots[n].Holds? {
      assert (front + [Entry(stamps[n], slots[n].obs)])[..|front|] == front;
    } else {
      assert front + [] == front;
    }
  }

  lemma UnrepeatedFront(slots: seq<Slot>)
    requires Unrepeated(slots) && slots != []
    ensures Unrepeated(slots[..|slots| - 1])
    ensures slots[|slots| - 1].Holds? ==> slots[|slots| - 1] !in slots[..|slots| - 1]
  {}

  lemma MarkedLast(slots: seq<Slot>, i: nat)
    requires i < |slots|
    ensures var n := |slots| - 1;
            slots[i := Marked][..n] == if i == n then slots[..n] else slots[..n][i := Marked]
  {}

  lemma ErasedLast<T>(s: seq<T>, i: nat)
    requires i < |s| - 1
    ensures |Erased(s, i)| == |s| - 1 && Erased(s, i)[|s| - 2] == s[|s| - 1]
    ensures Erased(s, i)[..|s| - 2] == Erased(s[..|s| - 1], i)
  {}

  lemma MarkLastRemoves(slots: seq<Slot>, stamps: seq<nat>)
    requires |slots| == |stamps| > 0 && Unrepeated(slots) && slots[|slots| - 1].Holds?
    ensures Entries(slots[|slots| - 1 := Marked], stamps) == Without(Entries(slots, stamps), slots[|slots| - 1].obs)
  {
    var n := |slots| - 1;
    UnrepeatedFront(slots);
    WithoutLast(slots, stamps, slots[n].obs);
    WithoutAbsent(slots[..n], stamps[..n], slots[n].obs);
    assert slots[n := Marked][..n] == slots[..n];
  }

  lemma EntriesLast(slots: seq<Slot>, stamps: seq<nat>, front: seq<Slot>)
    requires |slots| == |stamps| > 0 && front == slots[..|slots| - 1]
    ensures var n := |slots| - 1;
            Entries(slots, stamps) == Entries(front, stamps[..n])
                                      + if slots[n].Holds? then [Entry(stamps[n], slots[n].obs)] else []
  {}

  /** Marking the slot of an observer removes its registration. */
  lemma {:induction false} MarkRemoves(slots: seq<Slot>, stamps: seq<nat>, i: nat)
    requires |slots| == |stamps| && Unrepeated(slots) && i < |slots| && slots[i].Holds?
    ensures Entries(slots[i := Marked], stamps) == Without(Entries(slots, stamps), slots[i].obs)
  {
    var n := |slots| - 1;
    if i == n {
      MarkLastRemoves(slots, stamps);
    } else {
      UnrepeatedFront(slots);
      MarkRemoves(slots[..n], stamps[..n], i);
      WithoutLast(slots, stamps, slots[i].obs);
      MarkedLast(slots, i);
      EntriesLast(slots[i := Marked], stamps, slots[..n][i := Marked]);
    }
  }

  /** So does erasing it. */
  lemma {:induction false} EraseRemoves(slots: seq<Slot>, stamps: seq<nat>, i: nat)
    requires |slots| == |stamps| && Unrepeated(slots) && i < |slots| && slots[i].Holds?
    ensures Entries(Erased(slots, i), Erased(stamps, i)) == Without(Entries(slots, stamps), slots[i].obs)
  {
    var n := |slots| - 1;
    UnrepeatedFront(slots);
    WithoutLast(slots, stamps, slots[i].obs);
    if i == n {
      assert Erased(slots, i) == slots[..n] && Erased(stamps, i) == stamps[..n];
      WithoutAbsent(slots[..n], stamps[..n], slots[n].obs);
    } else {
      EraseRemoves(slots[..n], stamps[..n], i);
      ErasedLast(slots, i);
      ErasedLast(stamps, i);
      EntriesLast(Erased(slots, i), Erased(stamps, i), Erased(slots[..n], i));
    }
  }

  lemma {:induction false} WithoutLength(entries: seq<Entry>, o: Observer)
    requires Distinct(entries)
    ensures |Without(entries, o)| == if Registered(entries, o) then |entries| - 1 else |entries|
  {
    if entries != [] {
      var n := |entries| - 1;
      WithoutLength(entries[..n], o);
      if Registered(entries[..n], o) {
        var i :| 0 <= i < n && entries[..n][i].obs == o;
        assert entries[i].obs == o;
      }
    }
  }

  lemma {:induction false} MarkAllClears(slots: seq<Slot>, stamps: seq<nat>)
    requires |slots| == |stamps| && forall i :: 0 <= i < |slots| ==> slots[i].Marked?
    ensures Entries(slots, stamps) == []
  {
    if slots != [] {
      MarkAllClears(slots[..|slots| - 1], stamps[..|slots| - 1]);
    }
  }

  /** Compaction drops exactly the marked slots and keeps every registration. */
  lemma {:induction false} CompactKeeps(slots: seq<Slot>, stamps: seq<nat>)
    requires |slots| == |stamps|
    ensures |Compacted(slots)| == |CompactedStamps(slots, stamps)| && NoMarks(Compacted(slots))
    ensures Entries(Compacted(slots), CompactedStamps(slots, stamps)) == Entries(slots, stamps)
  {
    if slots != [] {
      var n := |slots| - 1;
      CompactKeeps(slots[..n], stamps[..n]);
      if slots[n].Holds? {
        var c, d := Compacted(slots[..n]), CompactedStamps(slots[..n], stamps[..n]);
        assert (c + [slots[n]])[..|c|] == c && (d + [stamps[n]])[..|d|] == d;
      } else {
        assert Compacted(slots) == Compacted(slots[..n]);
        assert CompactedStamps(slots, stamps) == CompactedStamps(slots[..n], stamps[..n]);
      }
    }
  }

  /** A compacted vector is the registrations themselves, one slot each, in order. */
  lemma {:induction false} CompactIsEntries(slots: seq<Slot>, stamps: seq<nat>)
    requires |slots| == |stamps|
    ensures |Compacted(slots)| == |Entries(slots, stamps)| == |CompactedStamps(slots, stamps)|
    ensures forall k :: 0 <= k < |Entries(slots, stamps)| ==>
              && Compacted(slots)[k] == Holds(Entries(slots, stamps)[k].obs)
              && CompactedStamps(slots, stamps)[k] == Entries(slots, stamps)[k].stamp
  {
    if slots != [] {
      CompactIsEntries(slots[..|slots| - 1], stamps[..|slots| - 1]);
    }
  }

  lemma CompactValid(slots: seq<Slot>, stamps: seq<nat>, next: nat)
    requires |slots| == |stamps| && Rising(stamps, next) && Unrepeated(slots)
    ensures Rising(CompactedStamps(slots, stamps), next) && Unrepeated(Compacted(slots))
  {
    CompactIsEntries(slots, stamps);
    EntriesWellFormed(slots, stamps, next);
  }

  /** `Iter::max_index_`: the largest `size_t` under `All`, the starting size otherwise. */
  datatype Bound = Unbounded | UpTo(size: nat)

  function Clamped(max: Bound, size: nat): nat {
    if max.UpTo? && max.size < size then max.size else size
  }

  /** An iterator at `index` has passed the registrations up to stamp `cur` and no other, and its
      bound on indices is the window's bound on stamps. */
  ghost predicate Position(slots: seq<Slot>, stamps: seq<nat>, cur: int, limit: Limit, index: nat, max: Bound) {
    && |slots| == |stamps| && index <= Clamped(max, |slots|)
    && (forall j :: 0 <= j < index ==> stamps[j] <= cur || slots[j].Marked?)
    && (forall j :: index <= j < |stamps| ==> cur < stamps[j])
    && (max.Unbounded? <==> limit.Unlimited?)
    && (max.UpTo? ==>
          && max.size <= |slots|
          && forall j :: 0 <= j < |stamps| ==> (stamps[j] < limit.stamp <==> j < max.size))
  }

  lemma StartPosition(policy: Policy, slots: seq<Slot>, stamps: seq<nat>, next: nat, index: nat, max: Bound)
    requires |slots| == |stamps| && Rising(stamps, next)
    requires max == if policy.All? then Unbounded else UpTo(|slots|)
    requires index <= Clamped(max, |slots|) && MarkedBetween(slots, 0, index)
    ensures Position(slots, stamps, -1, StartLimit(policy, Registry(Entries(slots, stamps), next, true)), index, max)
  {}

  lemma PositionEnd(slots: seq<Slot>, stamps: seq<nat>, next: nat, cur: int, limit: Limit, index: nat, max: Bound)
    requires Rising(stamps, next) && Position(slots, stamps, cur, limit, index, max)
    requires index == Clamped(max, |slots|)
    ensures First(Entries(slots, stamps), cur, limit) == None
  {
    NoneUnmarkedIsEnd(slots, stamps, next, cur, limit);
  }

  lemma PositionNext(slots: seq<Slot>, stamps: seq<nat>, next: nat, cur: int, limit: Limit, index: nat, max: Bound)
    requires Rising(stamps, next) && Position(slots, stamps, cur, limit, index, max)
    requires index < Clamped(max, |slots|) && slots[index].Holds?
    ensures First(Entries(slots, stamps), cur, limit) == Some(Entry(stamps[index], slots[index].obs))
  {
    FirstUnmarkedIsNext(slots, stamps, next, cur, limit, index);
  }

  /** The iterator is still in position after a callback and the `++` that follows it. */
  lemma PositionAdvances(slots: seq<Slot>, stamps: seq<nat>, next: nat, cur: int, limit: Limit, index: nat, max: Bound,
                         slots': seq<Slot>, stamps': seq<nat>, next': nat, index': nat)
    requires Position(slots, stamps, cur, limit, index, max) && Grows(slots, stamps, next, slots', stamps')
    requires Rising(stamps', next') && index < Clamped(max, |slots|) && (limit.Below? ==> limit.stamp <= next)
    requires index < index' <= Clamped(max, |slots'|) && MarkedBetween(slots', index + 1, index')
    ensures Position(slots', stamps', stamps[index], limit, index', max)
  {
    assert forall j :: 0 <= j < |stamps| ==> stamps'[j] == stamps[j];
  }

  /** The registration found by skipping marked slots is the earliest one in the window. */
  lemma FirstUnmarkedIsNext(slots: seq<Slot>, stamps: seq<nat>, next: nat, cur: int, limit: Limit, i: nat)
    requires |slots| == |stamps| && Rising(stamps, next) && i < |slots| && slots[i].Holds?
    requires InWindow(stamps[i], cur, limit)
    requires forall j :: 0 <= j < i ==> stamps[j] <= cur || slots[j].Marked?
    ensures First(Entries(slots, stamps), cur, limit) == Some(Entry(stamps[i], slots[i].obs))
  {
    EntriesOrdered(slots, stamps, next);
    SlotHasEntry(slots, stamps, i);
    var e := Entry(stamps[i], slots[i].obs);
    forall d | d in Entries(slots, stamps) && InWindow(d.stamp, cur, limit) ensures e.stamp <= d.stamp {
      var k := EntryHasSlot(slots, stamps, d);
    }
    FirstIs(Entries(slots, stamps), cur, limit, e);
  }

  /** With no unmarked slot in the window there is nothing left to visit. */
  lemma NoneUnmarkedIsEnd(slots: seq<Slot>, stamps: seq<nat>, next: nat, cur: int, limit: Limit)
    requires |slots| == |stamps| && Rising(stamps, next)
    requires forall j :: 0 <= j < |slots| ==> !InWindow(stamps[j], cur, limit) || slots[j].Marked?
    ensures First(Entries(slots, stamps), cur, limit) == None
  {
    EntriesOrdered(slots, stamps, next);
    FirstIsEarliest(Entries(slots, stamps), cur, limit);
    var f := First(Entries(slots, stamps), cur, limit);
    if f.Some? {
      var k := EntryHasSlot(slots, stamps, f.value);
      assert false;
    }
  }

  /** Erasing or marking the slot of an observer takes it and no other out of the vector. */
  lemma SlotGone(slots: seq<Slot>, i: nat)
    requires Unrepeated(slots) && i < |slots| && slots[i].Holds?
    ensures forall x :: Holds(x) in Erased(slots, i) <==> Holds(x) in slots && x != slots[i].obs
    ensures forall x :: Holds(x) in slots[i := Marked] <==> Holds(x) in slots && x != slots[i].obs
  {
    forall x ensures Holds(x) in Erased(slots, i) <==> Holds(x) in slots && x != slots[i].obs {
      ErasedHolds(slots, i, x);
    }
    forall x ensures Holds(x) in slots[i := Marked] <==> Holds(x) in slots && x != slots[i].obs {
      MarkedHolds(slots, i, x);
    }
  }

  lemma ErasedHolds(slots: seq<Slot>, i: nat, x: Observer)
    requires Unrepeated(slots) && i < |slots| && slots[i].Holds?
    ensures Holds(x) in Erased(slots, i) <==> Holds(x) in slots && x != slots[i].obs
  {
    if Holds(x) in slots && x != slots[i].obs {
      var j :| 0 <= j < |slots| && slots[j] == Holds(x);
      assert Erased(slots, i)[if j < i then j else j - 1] == Holds(x);
    }
  }

  lemma MarkedHolds(slots: seq<Slot>, i: nat, x: Observer)
    requires Unrepeated(slots) && i < |slots| && slots[i].Holds?
    ensures Holds(x) in slots[i := Marked] <==> Holds(x) in slots && x != slots[i].obs
  {
    if Holds(x) in slots && x != slots[i].obs {
      var j :| 0 <= j < |slots| && slots[j] == Holds(x);
      assert slots[i := Marked][j] == Holds(x);
    }
  }
}
