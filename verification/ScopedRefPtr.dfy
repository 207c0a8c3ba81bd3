/**
  `scoped_refptr` over `RefCountedBase`: the reference counts of all live objects and the values of
  all smart pointers, changed in the order the source changes them.

  Smart pointers may be fields of counted objects: deleting an object destroys its fields, which
  releases the objects they hold, and so on.  Touching an object or a pointer that is gone breaks
  the world for good, so that "not broken" means that no step of a cascade used freed memory.
 */
module ScopedRefPtr {
  import opened Wrappers

  /** The counts of the live objects, the values of the live pointers, the fields of every object in
      the order they are destroyed, the object each field belongs to, the deleted objects, the
      references handed out by `release()` and not dropped yet, and the objects ever referenced. */
  datatype World = World(counts: map<nat, nat>, ptrs: map<nat, Option<nat>>, fields: map<nat, seq<nat>>,
                         owner: map<nat, nat>, deleted: set<nat>, loose: map<nat, nat>, referenced: set<nat>,
                         broken: bool)

  const EMPTY := World(map[], map[], map[], map[], {}, map[], {}, false)

  /** The smart pointers that hold object `o`. */
  function Holders(ptrs: map<nat, Option<nat>>, o: nat): set<nat> {
    set p | p in ptrs && ptrs[p] == Some(o)
  }

  function Loose(loose: map<nat, nat>, o: nat): nat {
    if o in loose then loose[o] else 0
  }

  /** The references to `o`: the pointers holding it and the references handed out. */
  function References(w: World, o: nat): nat {
    |Holders(w.ptrs, o)| + Loose(w.loose, o)
  }

  /** The operations a program may perform; `r` is a raw pointer, null or to a live object. */
  datatype RefOp =
    | NewObject(o: nat, fs: seq<nat>)
    | Construct(p: nat, r: Option<nat>)
    | CopyConstruct(p: nat, q: nat)
    | MoveConstruct(p: nat, q: nat)
    | Destruct(p: nat)
    | AssignRaw(p: nat, r: Option<nat>)
    | AssignCopy(p: nat, q: nat)
    | AssignMove(p: nat, q: nat)
    | Swap(p: nat, q: nat)
    | Release(p: nat)
    | DropRaw(o: nat)

  predicate Unused(w: World, p: nat) {
    p !in w.ptrs && p !in w.owner
  }

  /** What the language and the header demand before `op`; only a pointer that is not a field is destroyed
      by itself. */
  ghost predicate Allowed(w: World, op: RefOp) {
    match op
    case NewObject(o, fs) =>
      && o !in w.counts && o !in w.deleted && o !in w.fields
      && NoRepeats(fs) && forall i :: 0 <= i < |fs| ==> Unused(w, fs[i])
    case Construct(p, r) => Unused(w, p) && (r.Some? ==> r.value in w.counts)
    case CopyConstruct(p, q) => Unused(w, p) && q in w.ptrs
    case MoveConstruct(p, q) => Unused(w, p) && q in w.ptrs
    case Destruct(p) => p in w.ptrs && p !in w.owner
    case AssignRaw(p, r) => p in w.ptrs && (r.Some? ==> r.value in w.counts)
    case AssignCopy(p, q) => p in w.ptrs && q in w.ptrs
    case AssignMove(p, q) => p in w.ptrs && q in w.ptrs
    case Swap(p, q) => p in w.ptrs && q in w.ptrs
    case Release(p) => p in w.ptrs
    case DropRaw(o) => Loose(w.loose, o) > 0
  }

  // ----- The counted object

  function Increased(w: World, r: Option<nat>): World {
    if r.None? then w
    else if r.value !in w.counts then w.(broken := true)
    else w.(counts := w.counts[r.value := w.counts[r.value] + 1], referenced := w.referenced + {r.value})
  }

  /** `Release`: one reference less; dropping the last one deletes the object and destroys its fields. */
  function Released(w: World, o: nat): (v: World)
    ensures |v.counts| <= |w.counts|
    decreases |w.counts|, 0, 0
  {
    if o !in w.counts || w.counts[o] == 0 then w.(broken := true)
    else if w.counts[o] > 1 then w.(counts := w.counts[o := w.counts[o] - 1])
    else
      SmallerWithout(w.counts, o);
      Emptied(Deleted(w, o), FieldsOf(w, o))
  }

  function Deleted(w: World, o: nat): World {
    w.(counts := w.counts - {o}, deleted := w.deleted + {o})
  }

  function FieldsOf(w: World, o: nat): seq<nat> {
    if o in w.fields then w.fields[o] else []
  }

  /** Destroys the pointers `fs` one after the other. */
  function Emptied(w: World, fs: seq<nat>): (v: World)
    ensures |v.counts| <= |w.counts|
    decreases |w.counts|, 3, |fs|
  {
    if fs == [] then w
    else if fs[0] !in w.ptrs then w.(broken := true)
    else Emptied(Destroyed(w, fs[0]), fs[1..])
  }

  /** `~scoped_refptr` of one pointer. */
  function Destroyed(w: World, p: nat): (v: World)
    requires p in w.ptrs
    ensures |v.counts| <= |w.counts|
    decreases |w.counts|, 2, 0
  {
    ReleasedIf(w.(ptrs := w.ptrs - {p}), w.ptrs[p])
  }

  function ReleasedIf(w: World, r: Option<nat>): (v: World)
    ensures |v.counts| <= |w.counts|
    decreases |w.counts|, 1, 0
  {
    if r.Some? then Released(w, r.value) else w
  }

  lemma SmallerWithout(m: map<nat, nat>, o: nat)
    requires o in m
    ensures |m - {o}| < |m|
  {
    assert m == (m - {o})[o := m[o]];
  }

  // ----- The pointer

  function Stored(w: World, p: nat, r: Option<nat>): World {
    w.(ptrs := w.ptrs[p := r])
  }

  /** `operator=(T*)`: reference the new object, release the old one, store. */
  function Assigned(w: World, p: nat, r: Option<nat>): World
    requires p in w.ptrs
  {
    var v := ReleasedIf(Increased(w, r), w.ptrs[p]);
    if p in v.ptrs then Stored(v, p, r) else v.(broken := true)
  }

  /** One reference handed out is about to be released. */
  function Dropping(w: World, o: nat): World
    requires Loose(w.loose, o) > 0
  {
    w.(loose := w.loose[o := Loose(w.loose, o) - 1])
  }

  ghost function Apply(w: World, op: RefOp): World
    requires Allowed(w, op)
  {
    match op
    case NewObject(o, fs) =>
      w.(counts := w.counts[o := 0], fields := w.fields[o := fs],
         owner := map f | f in w.owner.Keys + (set f | f in fs) :: if f in fs then o else w.owner[f],
         ptrs := map f | f in w.ptrs.Keys + (set f | f in fs) :: if f in fs then None else w.ptrs[f])
    case Construct(p, r) => Increased(Stored(w, p, r), r)
    case CopyConstruct(p, q) => Increased(Stored(w, p, w.ptrs[q]), w.ptrs[q])
    case MoveConstruct(p, q) => Stored(Stored(w, q, None), p, w.ptrs[q])
    case Destruct(p) => Destroyed(w, p)
    case AssignRaw(p, r) => Assigned(w, p, r)
    case AssignCopy(p, q) => Assigned(w, p, w.ptrs[q])
    case AssignMove(p, q) =>
      var v := Stored(w, q, None);
      ReleasedIf(Stored(v, p, w.ptrs[q]), v.ptrs[p])
    case Swap(p, q) => Stored(Stored(w, p, w.ptrs[q]), q, w.ptrs[p])
    case Release(p) =>
      var v := Stored(w, p, None);
      var r := w.ptrs[p];
      if r.Some? then v.(loose := v.loose[r.value := Loose(v.loose, r.value) + 1]) else v
    case DropRaw(o) => Released(Dropping(w, o), o)
  }

  /** The world after a sequence of operations; one that is not allowed is not performed, and none is once
      the world is broken. */
  ghost function Exec(ops: seq<RefOp>): World {
    if ops == [] then EMPTY else Next(Exec(ops[..|ops| - 1]), ops[|ops| - 1])
  }

  ghost predicate Performed(w: World, op: RefOp) {
    !w.broken && Allowed(w, op)
  }

  ghost function Next(w: World, op: RefOp): World {
    if Performed(w, op) then Apply(w, op) else w
  }

  // ----- What a cascade leaves alone

  /** A cascade from `w` to `v` only deletes objects and destroys pointers; of those pointers each is one of
      `fs` or a field of an object that was deleted. */
  ghost predicate Trimmed(w: World, v: World, fs: seq<nat>) {
    && v.fields == w.fields && v.owner == w.owner && v.loose == w.loose && v.referenced == w.referenced
    && (forall o :: o in v.counts ==> o in w.counts)
    && (forall q :: q in v.ptrs ==> q in w.ptrs && v.ptrs[q] == w.ptrs[q])
    && (forall q :: q in w.ptrs && q !in v.ptrs ==> q in fs || OwnerDied(w, v, q))
  }

  ghost predicate OwnerDied(w: World, v: World, q: nat) {
    q in w.owner && w.owner[q] in w.counts && w.owner[q] !in v.counts
  }

  lemma TrimmedTransitive(w: World, u: World, v: World, fs: seq<nat>, gs: seq<nat>, hs: seq<nat>)
    requires Trimmed(w, u, fs) && Trimmed(u, v, gs)
    requires forall q :: q in fs || q in gs ==> q in hs
    ensures Trimmed(w, v, hs)
  {
    forall q | q in w.ptrs && q !in v.ptrs ensures q in hs || OwnerDied(w, v, q) {
      assert q !in u.ptrs ==> q in fs || OwnerDied(w, u, q);
      assert q in u.ptrs ==> q in gs || OwnerDied(u, v, q);
    }
  }

  /** Each field belongs to one object. */
  ghost predicate FieldsOwned(w: World) {
    forall o :: o in w.fields ==> NoRepeats(w.fields[o]) && OwnedBy(w.owner, w.fields[o], o)
  }

  ghost predicate OwnedBy(owner: map<nat, nat>, fs: seq<nat>, o: nat) {
    forall f :: f in fs ==> f in owner && owner[f] == o
  }

  /** Each field is listed with the object it belongs to. */
  ghost predicate FieldsListed(w: World) {
    forall q :: q in w.owner ==> w.owner[q] in w.fields && q in w.fields[w.owner[q]]
  }

  /** Every field that is left belongs to a live object or is one of `dying`. */
  ghost predicate OrphansOnly(w: World, dying: set<nat>) {
    forall q :: q in w.ptrs && q in w.owner ==> w.owner[q] in w.counts || q in dying
  }

  lemma DeletedTrims(w: World, o: nat, v: World)
    requires FieldsOwned(w) && o in w.counts && Trimmed(Deleted(w, o), v, FieldsOf(w, o))
    ensures Trimmed(w, v, [])
  {
    forall q | q in w.ptrs && q !in v.ptrs ensures OwnerDied(w, v, q) {
      assert q in FieldsOf(w, o) || OwnerDied(Deleted(w, o), v, q);
      assert q in FieldsOf(w, o) ==> OwnedBy(w.owner, w.fields[o], o);
    }
  }

  lemma {:induction false} ReleasedTrims(w: World, o: nat)
    requires FieldsOwned(w)
    ensures Trimmed(w, Released(w, o), []) && (w.broken ==> Released(w, o).broken)
    decreases |w.counts|, 0, 0
  {
    if o in w.counts && w.counts[o] == 1 {
      SmallerWithout(w.counts, o);
      EmptiedTrims(Deleted(w, o), FieldsOf(w, o));
      DeletedTrims(w, o, Released(w, o));
    }
  }

  lemma {:induction false} DestroyedTrims(w: World, p: nat)
    requires FieldsOwned(w) && p in w.ptrs
    ensures Trimmed(w, Destroyed(w, p), [p]) && p !in Destroyed(w, p).ptrs && (w.broken ==> Destroyed(w, p).broken)
    decreases |w.counts|, 2, 0
  {
    var gone := w.(ptrs := w.ptrs - {p});
    assert Trimmed(w, gone, [p]);
    if w.ptrs[p].Some? {
      ReleasedTrims(gone, w.ptrs[p].value);
      assert Destroyed(w, p) == Released(gone, w.ptrs[p].value);
      TrimmedTransitive(w, gone, Destroyed(w, p), [p], [], [p]);
    }
  }

  lemma {:induction false} EmptiedTrims(w: World, fs: seq<nat>)
    requires FieldsOwned(w)
    ensures Trimmed(w, Emptied(w, fs), fs) && (w.broken ==> Emptied(w, fs).broken)
    decreases |w.counts|, 3, |fs|
  {
    if fs != [] && fs[0] in w.ptrs {
      DestroyedTrims(w, fs[0]);
      EmptiedTrims(Destroyed(w, fs[0]), fs[1..]);
      assert fs == [fs[0]] + fs[1..];
      TrimmedTransitive(w, Destroyed(w, fs[0]), Emptied(w, fs), [fs[0]], fs[1..], fs);
    }
  }

  // ----- No field outlives its object

  lemma {:induction false} ReleasedOrphans(w: World, o: nat, dying: set<nat>)
    requires FieldsOwned(w) && FieldsListed(w) && OrphansOnly(w, dying) && !Released(w, o).broken
    ensures OrphansOnly(Released(w, o), dying)
    decreases |w.counts|, 0, 0
  {
    if o in w.counts && w.counts[o] == 1 {
      SmallerWithout(w.counts, o);
      EmptiedOrphans(Deleted(w, o), FieldsOf(w, o), dying);
    }
  }

  lemma {:induction false} DestroyedOrphans(w: World, p: nat, dying: set<nat>)
    requires FieldsOwned(w) && FieldsListed(w) && p in w.ptrs && OrphansOnly(w, dying + {p}) && !Destroyed(w, p).broken
    ensures OrphansOnly(Destroyed(w, p), dying)
    decreases |w.counts|, 2, 0
  {
    var gone := w.(ptrs := w.ptrs - {p});
    assert Destroyed(w, p) == ReleasedIf(gone, w.ptrs[p]);
    if w.ptrs[p].Some? {
      ReleasedOrphans(gone, w.ptrs[p].value, dying);
    }
  }

  lemma {:induction false} EmptiedOrphans(w: World, fs: seq<nat>, dying: set<nat>)
    requires FieldsOwned(w) && FieldsListed(w) && OrphansOnly(w, dying + Members(fs)) && !Emptied(w, fs).broken
    ensures OrphansOnly(Emptied(w, fs), dying)
    decreases |w.counts|, 3, |fs|
  {
    if fs != [] {
      EmptiedUnrolls(w, fs);
      DestroyedTrims(w, fs[0]);
      assert fs == [fs[0]] + fs[1..];
      DestroyedOrphans(w, fs[0], dying + Members(fs[1..]));
      EmptiedOrphans(Destroyed(w, fs[0]), fs[1..], dying);
    }
  }

  function Members(fs: seq<nat>): set<nat> {
    set f | f in fs
  }

  // ----- Conservation of references

  function One(r: Option<nat>, o: nat): nat {
    if r == Some(o) then 1 else 0
  }

  /** References on their way: one that is counted and held by no pointer yet, and one that pointer `debtor`
      still holds although it has been released. */
  datatype Transit = Transit(added: Option<nat>, owed: Option<nat>, debtor: nat)

  const NOTHING := Transit(None, None, 0)

  function Net(t: Transit, o: nat): int {
    One(t.added, o) - One(t.owed, o)
  }

  /** With `k` references in transit, the count of `o` is the number of references to it; it is live if
      it is referenced, and once referenced it is live exactly while it still is. */
  ghost predicate Balanced(w: World, o: nat, k: int) {
    var n := References(w, o) + k;
    && 0 <= n && (o in w.counts ==> w.counts[o] == n) && (n > 0 ==> o in w.counts && o in w.referenced)
    && (o in w.referenced ==> (o in w.counts <==> n > 0) && (o in w.deleted <==> o !in w.counts))
    && (o in w.deleted ==> o in w.referenced)
  }

  /** Every account is balanced when `r` is about to be released. */
  ghost predicate Accounts(w: World, t: Transit, r: Option<nat>) {
    forall o {:trigger Balanced(w, o, Net(t, o) + One(r, o))} :: Balanced(w, o, Net(t, o) + One(r, o))
  }

  /** Live objects have their fields. */
  ghost predicate FieldsPresent(w: World) {
    forall o :: o in w.counts ==> o in w.fields && forall f :: f in w.fields[o] ==> f in w.ptrs
  }

  ghost predicate Sound(w: World) {
    !w.broken && FieldsOwned(w) && FieldsPresent(w)
  }

  /** The pointer that owes a reference still holds it. */
  ghost predicate DebtHeld(w: World, t: Transit) {
    t.owed.Some? ==> t.debtor in w.ptrs && w.ptrs[t.debtor] == t.owed
  }

  /** `fs` are the fields of an object that has been deleted. */
  ghost predicate Orphans(w: World, fs: seq<nat>) {
    NoRepeats(fs) && forall f :: f in fs ==> f in w.ptrs && f in w.owner && w.owner[f] !in w.counts
  }

  lemma HoldersRemove(ptrs: map<nat, Option<nat>>, p: nat, o: nat)
    requires p in ptrs
    ensures |Holders(ptrs - {p}, o)| == |Holders(ptrs, o)| - One(ptrs[p], o)
  {
    if p in Holders(ptrs, o) {
      assert Holders(ptrs, o) == Holders(ptrs - {p}, o) + {p};
    } else {
      assert Holders(ptrs, o) == Holders(ptrs - {p}, o);
    }
  }

  /** Whatever is about to be released is live. */
  lemma IsCounted(w: World, o: nat, t: Transit)
    requires Accounts(w, t, Some(o)) && DebtHeld(w, t)
    ensures o in w.counts && w.counts[o] > 0
  {
    assert Balanced(w, o, Net(t, o) + One(Some(o), o));
    if t.owed == Some(o) {
      assert t.debtor in Holders(w.ptrs, o);
    }
  }

  lemma DecrementKeeps(w: World, o: nat, t: Transit)
    requires Accounts(w, t, Some(o)) && o in w.counts && w.counts[o] > 1
    ensures Accounts(w.(counts := w.counts[o := w.counts[o] - 1]), t, None)
  {
    forall x ensures Balanced(w.(counts := w.counts[o := w.counts[o] - 1]), x, Net(t, x) + One(None, x)) {
      assert Balanced(w, x, Net(t, x) + One(Some(o), x));
    }
  }

  lemma DeleteKeeps(w: World, o: nat, t: Transit)
    requires Accounts(w, t, Some(o)) && o in w.counts && w.counts[o] == 1
    ensures Accounts(Deleted(w, o), t, None)
  {
    forall x ensures Balanced(Deleted(w, o), x, Net(t, x) + One(None, x)) {
      assert Balanced(w, x, Net(t, x) + One(Some(o), x));
    }
  }

  lemma RemoveKeeps(w: World, p: nat, t: Transit)
    requires Accounts(w, t, None) && p in w.ptrs
    ensures Accounts(w.(ptrs := w.ptrs - {p}), t, w.ptrs[p])
  {
    forall x ensures Balanced(w.(ptrs := w.ptrs - {p}), x, Net(t, x) + One(w.ptrs[p], x)) {
      assert Balanced(w, x, Net(t, x) + One(None, x));
      HoldersRemove(w.ptrs, p, x);
    }
  }

  /** A cascade keeps every account, touches nothing that is gone and leaves live objects whole, unless it
      destroys a pointer that owes a reference. */
  lemma {:induction false} ReleasedKeeps(w: World, o: nat, t: Transit)
    requires Sound(w) && Accounts(w, t, Some(o)) && DebtHeld(w, t)
    requires t.owed.Some? ==> t.debtor in Released(w, o).ptrs
    ensures Sound(Released(w, o)) && Accounts(Released(w, o), t, None) && DebtHeld(Released(w, o), t)
    decreases |w.counts|, 0, 0
  {
    IsCounted(w, o, t);
    ReleasedTrims(w, o);
    if w.counts[o] > 1 {
      DecrementKeeps(w, o, t);
    } else {
      SmallerWithout(w.counts, o);
      DeleteKeeps(w, o, t);
      EmptiedKeeps(Deleted(w, o), FieldsOf(w, o), t);
    }
  }

  lemma {:induction false} DestroyedKeeps(w: World, p: nat, t: Transit)
    requires Sound(w) && Accounts(w, t, None) && DebtHeld(w, t) && p in w.ptrs
    requires p in w.owner ==> w.owner[p] !in w.counts
    requires t.owed.Some? ==> t.debtor in Destroyed(w, p).ptrs
    ensures Sound(Destroyed(w, p)) && Accounts(Destroyed(w, p), t, None) && DebtHeld(Destroyed(w, p), t)
    decreases |w.counts|, 2, 0
  {
    var gone := w.(ptrs := w.ptrs - {p});
    DestroyedTrims(w, p);
    RemoveKeeps(w, p, t);
    OthersPresent(w, p);
    if w.ptrs[p].Some? {
      ReleasedTrims(gone, w.ptrs[p].value);
      ReleasedKeeps(gone, w.ptrs[p].value, t);
    }
  }

  lemma OthersPresent(w: World, p: nat)
    requires Sound(w) && (p in w.owner ==> w.owner[p] !in w.counts)
    ensures Sound(w.(ptrs := w.ptrs - {p}))
  {
    forall o, f | o in w.counts && f in w.fields[o] ensures f != p {
      assert OwnedBy(w.owner, w.fields[o], o);
    }
  }

  lemma {:induction false} EmptiedKeeps(w: World, fs: seq<nat>, t: Transit)
    requires Sound(w) && Accounts(w, t, None) && DebtHeld(w, t) && Orphans(w, fs)
    requires t.owed.Some? ==> t.debtor in Emptied(w, fs).ptrs
    ensures Sound(Emptied(w, fs)) && Accounts(Emptied(w, fs), t, None) && DebtHeld(Emptied(w, fs), t)
    decreases |w.counts|, 3, |fs|
  {
    if fs != [] {
      var next := Destroyed(w, fs[0]);
      DestroyedTrims(w, fs[0]);
      EmptiedTrims(next, fs[1..]);
      DestroyedKeeps(w, fs[0], t);
      StillOrphans(w, next, fs);
      EmptiedKeeps(next, fs[1..], t);
    }
  }

  lemma StillOrphans(w: World, next: World, fs: seq<nat>)
    requires fs != [] && Orphans(w, fs) && Trimmed(w, next, [fs[0]])
    ensures Orphans(next, fs[1..])
  {
    forall f | f in fs[1..] ensures f in next.ptrs {
      assert f in fs && f != fs[0];
    }
  }

  // ----- Which objects a cascade deletes

  /** `x` has never been referenced, or some reference to it cannot go while the objects `kept` live: one
      handed out, one on its way, or one held by a pointer that is no field or a field of one of them. */
  ghost predicate Supported(w: World, kept: set<nat>, added: Option<nat>, x: nat)
    requires x in w.counts
  {
    || w.counts[x] == 0 || Loose(w.loose, x) > 0 || added == Some(x)
    || exists q :: q in w.ptrs && w.ptrs[q] == Some(x) && Lasting(w, kept, q)
  }

  ghost predicate Lasting(w: World, kept: set<nat>, q: nat) {
    q !in w.owner || w.owner[q] in kept
  }

  ghost predicate Upholds(w: World, kept: set<nat>, added: Option<nat>) {
    forall x :: x in kept ==> x in w.counts && Supported(w, kept, added, x)
  }

  /** Releasing one reference to a supported object does not delete it. */
  lemma SupportedSurvives(w: World, o: nat, t: Transit, kept: set<nat>)
    requires Accounts(w, t, Some(o)) && t.owed.None? && Upholds(w, kept, t.added) && o in kept
    ensures w.counts[o] > 1
  {
    Account(w, t, Some(o), o);
    assert Supported(w, kept, t.added, o);
    if q :| q in w.ptrs && w.ptrs[q] == Some(o) && Lasting(w, kept, q) {
      assert q in Holders(w.ptrs, o);
    }
  }

  lemma DecrementUpholds(w: World, o: nat, kept: set<nat>, added: Option<nat>)
    requires Upholds(w, kept, added) && o in w.counts && w.counts[o] > 1
    ensures Upholds(w.(counts := w.counts[o := w.counts[o] - 1]), kept, added)
  {
    forall x | x in kept ensures Supported(w.(counts := w.counts[o := w.counts[o] - 1]), kept, added, x) {
      assert Supported(w, kept, added, x);
    }
  }

  lemma DeleteUpholds(w: World, o: nat, kept: set<nat>, added: Option<nat>)
    requires Upholds(w, kept, added) && o !in kept
    ensures Upholds(Deleted(w, o), kept, added)
  {
    forall x | x in kept ensures Supported(Deleted(w, o), kept, added, x) {
      assert Supported(w, kept, added, x);
    }
  }

  lemma RemoveUpholds(w: World, p: nat, kept: set<nat>, added: Option<nat>)
    requires Upholds(w, kept, added) && !Lasting(w, kept, p)
    ensures Upholds(w.(ptrs := w.ptrs - {p}), kept, added)
  {
    var gone := w.(ptrs := w.ptrs - {p});
    forall x | x in kept ensures Supported(gone, kept, added, x) {
      assert Supported(w, kept, added, x);
      if q :| q in w.ptrs && w.ptrs[q] == Some(x) && Lasting(w, kept, q) {
        assert q in gone.ptrs && Lasting(gone, kept, q);
      }
    }
  }

  lemma {:induction false} ReleasedUpholds(w: World, o: nat, t: Transit, kept: set<nat>)
    requires Sound(w) && Accounts(w, t, Some(o)) && t.owed.None? && Upholds(w, kept, t.added)
    ensures Upholds(Released(w, o), kept, t.added)
    decreases |w.counts|, 0, 0
  {
    IsCounted(w, o, t);
    if w.counts[o] > 1 {
      DecrementUpholds(w, o, kept, t.added);
    } else {
      if o in kept {
        SupportedSurvives(w, o, t, kept);
      }
      SmallerWithout(w.counts, o);
      DeleteKeeps(w, o, t);
      DeleteUpholds(w, o, kept, t.added);
      EmptiedUpholds(Deleted(w, o), FieldsOf(w, o), t, kept);
    }
  }

  lemma {:induction false} DestroyedUpholds(w: World, p: nat, t: Transit, kept: set<nat>)
    requires Sound(w) && Accounts(w, t, None) && t.owed.None? && Upholds(w, kept, t.added)
    requires p in w.ptrs && p in w.owner && w.owner[p] !in w.counts
    ensures Upholds(Destroyed(w, p), kept, t.added)
    decreases |w.counts|, 2, 0
  {
    var gone := w.(ptrs := w.ptrs - {p});
    RemoveKeeps(w, p, t);
    OthersPresent(w, p);
    RemoveUpholds(w, p, kept, t.added);
    assert Destroyed(w, p) == ReleasedIf(gone, w.ptrs[p]);
    if w.ptrs[p].Some? {
      ReleasedUpholds(gone, w.ptrs[p].value, t, kept);
    }
  }

  lemma {:induction false} EmptiedUpholds(w: World, fs: seq<nat>, t: Transit, kept: set<nat>)
    requires Sound(w) && Accounts(w, t, None) && t.owed.None? && Upholds(w, kept, t.added) && Orphans(w, fs)
    ensures Upholds(Emptied(w, fs), kept, t.added)
    decreases |w.counts|, 3, |fs|
  {
    if fs != [] {
      var next := Destroyed(w, fs[0]);
      DestroyedTrims(w, fs[0]);
      DestroyedKeeps(w, fs[0], t);
      DestroyedUpholds(w, fs[0], t, kept);
      StillOrphans(w, next, fs);
      EmptiedUpholds(next, fs[1..], t, kept);
    }
  }

  /** What is left after a release upholds itself. */
  lemma SurvivorSupported(w: World, v: World, t: Transit, r: Option<nat>, x: nat)
    requires Accounts(w, t, r) && Accounts(v, t, None) && t.owed.None?
    requires Trimmed(w, v, []) && OrphansOnly(v, {}) && x in v.counts
    ensures Supported(w, v.counts.Keys, t.added, x)
  {
    Account(w, t, r, x);
    Account(v, t, None, x);
    if q :| q in Holders(v.ptrs, x) {
      assert q in w.ptrs && w.ptrs[q] == Some(x) && Lasting(w, v.counts.Keys, q);
    } else {
      assert Holders(v.ptrs, x) == {};
    }
  }

  /** A release, with its whole cascade, leaves exactly the objects of the sets that uphold themselves in
      the world before it; it deletes all the others. */
  lemma CascadeLeavesExactlyTheUpheld(w: World, o: nat, t: Transit, x: nat)
    requires Sound(w) && Accounts(w, t, Some(o)) && t.owed.None? && FieldsListed(w) && OrphansOnly(w, {})
    ensures x in Released(w, o).counts <==> exists kept: set<nat> :: x in kept && Upholds(w, kept, t.added)
  {
    var v := Released(w, o);
    ReleasedKeeps(w, o, t);
    ReleasedTrims(w, o);
    ReleasedOrphans(w, o, {});
    if x in v.counts {
      forall y | y in v.counts ensures Supported(w, v.counts.Keys, t.added, y) {
        SurvivorSupported(w, v, t, Some(o), y);
      }
      assert Upholds(w, v.counts.Keys, t.added);
    }
    if kept: set<nat> :| x in kept && Upholds(w, kept, t.added) {
      ReleasedUpholds(w, o, t, kept);
    }
  }

  // ----- Every operation

  /** The count of every object is the number of references to it, and nothing that is gone was used. */
  ghost predicate Conserved(w: World) {
    Sound(w) && Accounts(w, NOTHING, None) && FieldsListed(w) && OrphansOnly(w, {})
  }

  /** Giving a pointer a new value moves one reference from the old object to the new one. */
  lemma HoldersUpdate(ptrs: map<nat, Option<nat>>, p: nat, r: Option<nat>, o: nat)
    ensures |Holders(ptrs[p := r], o)|
            == |Holders(ptrs, o)| - (if p in ptrs then One(ptrs[p], o) else 0) + One(r, o)
  {
    var others := Holders(ptrs, o) - {p};
    if p in Holders(ptrs, o) {
      assert Holders(ptrs, o) == others + {p};
    } else {
      assert Holders(ptrs, o) == others;
    }
    if r == Some(o) {
      assert Holders(ptrs[p := r], o) == others + {p};
    } else {
      assert Holders(ptrs[p := r], o) == others;
    }
  }

  lemma Account(w: World, t: Transit, r: Option<nat>, o: nat)
    requires Accounts(w, t, r)
    ensures Balanced(w, o, Net(t, o) + One(r, o))
  {}

  lemma Held(w: World, o: nat)
    requires Accounts(w, NOTHING, None)
    ensures Balanced(w, o, 0)
  {
    Account(w, NOTHING, None, o);
  }

  lemma AllHeld(w: World)
    requires forall o :: Balanced(w, o, 0)
    ensures Accounts(w, NOTHING, None)
  {
    forall o ensures Balanced(w, o, Net(NOTHING, o) + One(None, o)) {
      assert Balanced(w, o, 0);
    }
  }

  lemma IncreasedBalanced(w: World, r: Option<nat>, o: nat, k: int)
    requires (r.Some? ==> r.value in w.counts) && Balanced(w, o, k)
    ensures Balanced(Increased(w, r), o, k + One(r, o))
  {}

  lemma LooseBalanced(w: World, r: nat, n: nat, o: nat, k: int)
    requires Balanced(w, o, k)
    ensures Balanced(w.(loose := w.loose[r := n]), o, k - (if o == r then n - Loose(w.loose, r) else 0))
  {}

  lemma StoredBalanced(w: World, p: nat, r: Option<nat>, o: nat, k: int)
    requires Balanced(w, o, k)
    ensures Balanced(Stored(w, p, r), o, k + (if p in w.ptrs then One(w.ptrs[p], o) else 0) - One(r, o))
  {
    HoldersUpdate(w.ptrs, p, r, o);
  }

  /** A pointer's object is live and counts it. */
  lemma HeldIsCounted(w: World, p: nat)
    requires Accounts(w, NOTHING, None) && p in w.ptrs
    ensures w.ptrs[p].Some? ==> w.ptrs[p].value in w.counts && w.counts[w.ptrs[p].value] > 0
  {
    if w.ptrs[p].Some? {
      Held(w, w.ptrs[p].value);
      assert p in Holders(w.ptrs, w.ptrs[p].value);
    }
  }

  lemma NewObjectConserved(w: World, o: nat, fs: seq<nat>)
    requires Conserved(w) && Allowed(w, NewObject(o, fs))
    ensures Conserved(Apply(w, NewObject(o, fs)))
  {
    NewObjectAccounts(w, o, fs);
    NewObjectFields(w, o, fs);
  }

  lemma NewObjectAccounts(w: World, o: nat, fs: seq<nat>)
    requires Accounts(w, NOTHING, None) && Allowed(w, NewObject(o, fs))
    ensures Accounts(Apply(w, NewObject(o, fs)), NOTHING, None)
  {
    var v := Apply(w, NewObject(o, fs));
    forall x ensures Balanced(v, x, 0) {
      Held(w, x);
      assert Holders(v.ptrs, x) == Holders(w.ptrs, x);
    }
    AllHeld(v);
  }

  lemma NewObjectFields(w: World, o: nat, fs: seq<nat>)
    requires Sound(w) && FieldsListed(w) && OrphansOnly(w, {}) && Allowed(w, NewObject(o, fs))
    ensures var v := Apply(w, NewObject(o, fs)); Sound(v) && FieldsListed(v) && OrphansOnly(v, {})
  {
    var v := Apply(w, NewObject(o, fs));
    forall x | x in v.fields ensures NoRepeats(v.fields[x]) && OwnedBy(v.owner, v.fields[x], x) {
      NewFieldsOwned(w, o, fs, x);
    }
    forall x | x in v.counts ensures x in v.fields && forall f :: f in v.fields[x] ==> f in v.ptrs {}
  }

  lemma NewFieldsOwned(w: World, o: nat, fs: seq<nat>, x: nat)
    requires FieldsOwned(w) && Allowed(w, NewObject(o, fs)) && (x in w.fields || x == o)
    ensures var v := Apply(w, NewObject(o, fs)); NoRepeats(v.fields[x]) && OwnedBy(v.owner, v.fields[x], x)
  {
    if x != o {
      assert OwnedBy(w.owner, w.fields[x], x);
      forall f | f in w.fields[x] ensures f !in fs {}
    }
  }

  lemma ConstructConserved(w: World, p: nat, r: Option<nat>)
    requires Conserved(w) && Allowed(w, Construct(p, r))
    ensures Conserved(Apply(w, Construct(p, r)))
  {
    forall x ensures Balanced(Apply(w, Construct(p, r)), x, 0) {
      Held(w, x);
      StoredBalanced(w, p, r, x, 0);
      IncreasedBalanced(Stored(w, p, r), r, x, 0 - One(r, x));
    }
    AllHeld(Apply(w, Construct(p, r)));
  }

  lemma MoveConstructConserved(w: World, p: nat, q: nat)
    requires Conserved(w) && Allowed(w, MoveConstruct(p, q))
    ensures Conserved(Apply(w, MoveConstruct(p, q)))
  {
    forall x ensures Balanced(Apply(w, MoveConstruct(p, q)), x, 0) {
      Held(w, x);
      StoredBalanced(w, q, None, x, 0);
      StoredBalanced(Stored(w, q, None), p, w.ptrs[q], x, One(w.ptrs[q], x));
    }
    AllHeld(Apply(w, MoveConstruct(p, q)));
  }

  lemma SwapConserved(w: World, p: nat, q: nat)
    requires Conserved(w) && Allowed(w, Swap(p, q))
    ensures Conserved(Apply(w, Swap(p, q)))
  {
    forall x ensures Balanced(Apply(w, Swap(p, q)), x, 0) {
      Held(w, x);
      StoredBalanced(w, p, w.ptrs[q], x, 0);
      StoredBalanced(Stored(w, p, w.ptrs[q]), q, w.ptrs[p], x, One(w.ptrs[p], x) - One(w.ptrs[q], x));
    }
    AllHeld(Apply(w, Swap(p, q)));
  }

  lemma ReleaseConserved(w: World, p: nat)
    requires Conserved(w) && Allowed(w, Release(p))
    ensures Conserved(Apply(w, Release(p)))
  {
    var v := Stored(w, p, None);
    forall x ensures Balanced(Apply(w, Release(p)), x, 0) {
      Held(w, x);
      StoredBalanced(w, p, None, x, 0);
      if w.ptrs[p].Some? {
        LooseBalanced(v, w.ptrs[p].value, Loose(v.loose, w.ptrs[p].value) + 1, x, One(w.ptrs[p], x));
      }
    }
    AllHeld(Apply(w, Release(p)));
  }

  lemma ReleasedConserved(v: World, o: nat)
    requires Sound(v) && Accounts(v, NOTHING, Some(o)) && FieldsListed(v) && OrphansOnly(v, {})
    ensures Conserved(Released(v, o))
  {
    ReleasedKeeps(v, o, NOTHING);
    ReleasedTrims(v, o);
    ReleasedOrphans(v, o, {});
  }

  lemma DropConserved(w: World, o: nat)
    requires Conserved(w) && Allowed(w, DropRaw(o))
    ensures Conserved(Apply(w, DropRaw(o)))
  {
    DroppingAccounts(w, o);
    SameStructure(w, Dropping(w, o));
    ReleasedConserved(Dropping(w, o), o);
  }

  /** What is known of objects and fields does not depend on counts, values or references handed out. */
  lemma SameStructure(w: World, v: World)
    requires Sound(w) && FieldsListed(w) && OrphansOnly(w, {})
    requires v.fields == w.fields && v.owner == w.owner && v.broken == w.broken
    requires v.counts.Keys == w.counts.Keys && v.ptrs.Keys == w.ptrs.Keys
    ensures Sound(v) && FieldsListed(v) && OrphansOnly(v, {})
  {
    assert forall o :: o in v.counts <==> o in v.counts.Keys;
    assert forall o :: o in w.counts <==> o in w.counts.Keys;
    assert forall q :: q in v.ptrs <==> q in v.ptrs.Keys;
    assert forall q :: q in w.ptrs <==> q in w.ptrs.Keys;
  }

  lemma DroppingAccounts(w: World, o: nat)
    requires Accounts(w, NOTHING, None) && Loose(w.loose, o) > 0
    ensures Accounts(Dropping(w, o), NOTHING, Some(o))
  {
    forall x ensures Balanced(Dropping(w, o), x, Net(NOTHING, x) + One(Some(o), x)) {
      Held(w, x);
      LooseBalanced(w, o, Loose(w.loose, o) - 1, x, 0);
    }
  }

  /** After the swap in a move assignment the temporary holds what `p` held. */
  lemma MovingAccounts(w: World, p: nat, q: nat)
    requires Accounts(w, NOTHING, None) && p in w.ptrs && q in w.ptrs
    ensures var v := Stored(w, q, None); Accounts(Stored(v, p, w.ptrs[q]), NOTHING, v.ptrs[p])
  {
    var v := Stored(w, q, None);
    forall x ensures Balanced(Stored(v, p, w.ptrs[q]), x, Net(NOTHING, x) + One(v.ptrs[p], x)) {
      Held(w, x);
      StoredBalanced(w, q, None, x, 0);
      StoredBalanced(v, p, w.ptrs[q], x, One(w.ptrs[q], x));
    }
  }

  lemma AssignMoveConserved(w: World, p: nat, q: nat)
    requires Conserved(w) && Allowed(w, AssignMove(p, q))
    ensures Conserved(Apply(w, AssignMove(p, q)))
  {
    var v := Stored(w, q, None);
    var u := Stored(v, p, w.ptrs[q]);
    MovingAccounts(w, p, q);
    SameStructure(w, u);
    assert Apply(w, AssignMove(p, q)) == ReleasedIf(u, v.ptrs[p]);
    if v.ptrs[p].Some? {
      ReleasedConserved(u, v.ptrs[p].value);
    }
  }

  lemma DestructConserved(w: World, p: nat)
    requires Conserved(w) && Allowed(w, Destruct(p))
    ensures Conserved(Apply(w, Destruct(p)))
  {
    DestroyedKeeps(w, p, NOTHING);
    DestroyedTrims(w, p);
    DestroyedOrphans(w, p, {});
  }

  /** The release in an assignment of `r` to `p` does not destroy `p` itself. */
  ghost predicate Outlives(w: World, p: nat, r: Option<nat>)
    requires p in w.ptrs
  {
    p in ReleasedIf(Increased(w, r), w.ptrs[p]).ptrs
  }

  /** While the old object of `p` is released, `p` still holds it and the new one is counted already. */
  lemma AssigningAccounts(w: World, p: nat, r: Option<nat>)
    requires Conserved(w) && p in w.ptrs && (r.Some? ==> r.value in w.counts)
    ensures Accounts(Increased(w, r), Transit(r, w.ptrs[p], p), w.ptrs[p])
  {
    var t := Transit(r, w.ptrs[p], p);
    forall x ensures Balanced(Increased(w, r), x, Net(t, x) + One(w.ptrs[p], x)) {
      Held(w, x);
      IncreasedBalanced(w, r, x, 0);
    }
  }

  lemma StoredAccounts(u: World, p: nat, r: Option<nat>, t: Transit)
    requires p in u.ptrs && t == Transit(r, u.ptrs[p], p) && Accounts(u, t, None)
    ensures Accounts(Stored(u, p, r), NOTHING, None)
  {
    forall x ensures Balanced(Stored(u, p, r), x, 0) {
      Account(u, t, None, x);
      StoredBalanced(u, p, r, x, Net(t, x));
    }
    AllHeld(Stored(u, p, r));
  }

  lemma AssignedConserved(w: World, p: nat, r: Option<nat>)
    requires Conserved(w) && p in w.ptrs && (r.Some? ==> r.value in w.counts) && Outlives(w, p, r)
    ensures Conserved(Assigned(w, p, r))
  {
    var v, was := Increased(w, r), w.ptrs[p];
    var t := Transit(r, was, p);
    AssigningAccounts(w, p, r);
    if was.Some? {
      assert ReleasedIf(v, was) == Released(v, was.value);
      ReleasedKeeps(v, was.value, t);
      ReleasedTrims(v, was.value);
      ReleasedOrphans(v, was.value, {});
    }
    StoredAccounts(ReleasedIf(v, was), p, r, t);
  }

  // ----- When an assignment destroys the pointer it assigns to

  /** `w` and `v` differ only in pointer `p`, which holds the deleted object `was` in `w` and null in `v`. */
  ghost predicate Mirrors(w: World, v: World, p: nat, was: nat) {
    p in w.ptrs && w.ptrs[p] == Some(was) && was !in w.counts && v == Stored(w, p, None)
  }

  /** Either `p` survives and the worlds still mirror each other, or destroying it broke `w`. */
  ghost predicate SameFate(w: World, v: World, p: nat, was: nat) {
    if p in v.ptrs then Mirrors(w, v, p, was) else w.broken && p !in w.ptrs
  }

  lemma {:induction false} ReleasedMirrors(w: World, v: World, o: nat, p: nat, was: nat)
    requires Mirrors(w, v, p, was) && FieldsOwned(w)
    ensures SameFate(Released(w, o), Released(v, o), p, was)
    decreases |w.counts|, 0, 0
  {
    if o in w.counts && w.counts[o] == 1 {
      SmallerWithout(w.counts, o);
      EmptiedMirrors(Deleted(w, o), Deleted(v, o), FieldsOf(w, o), p, was);
    }
  }

  lemma {:induction false} DestroyedMirrors(w: World, v: World, f: nat, p: nat, was: nat)
    requires Mirrors(w, v, p, was) && FieldsOwned(w) && f in w.ptrs
    ensures SameFate(Destroyed(w, f), Destroyed(v, f), p, was)
    decreases |w.counts|, 2, 0
  {
    var w1, v1 := w.(ptrs := w.ptrs - {f}), v.(ptrs := v.ptrs - {f});
    if f == p {
      assert v.ptrs[f] == None && Destroyed(v, f) == ReleasedIf(v1, None) == v1;
      assert Destroyed(w, f) == ReleasedIf(w1, Some(was)) == Released(w1, was);
    } else {
      assert v1.ptrs == w1.ptrs[p := None];
      assert Destroyed(w, f) == ReleasedIf(w1, w.ptrs[f]) && Destroyed(v, f) == ReleasedIf(v1, w.ptrs[f]);
      if w.ptrs[f].Some? {
        ReleasedMirrors(w1, v1, w.ptrs[f].value, p, was);
      }
    }
  }

  lemma {:induction false} EmptiedMirrors(w: World, v: World, fs: seq<nat>, p: nat, was: nat)
    requires Mirrors(w, v, p, was) && FieldsOwned(w)
    ensures SameFate(Emptied(w, fs), Emptied(v, fs), p, was)
    decreases |w.counts|, 3, |fs|
  {
    if fs != [] && fs[0] in w.ptrs {
      var w1, v1 := Destroyed(w, fs[0]), Destroyed(v, fs[0]);
      DestroyedMirrors(w, v, fs[0], p, was);
      DestroyedTrims(w, fs[0]);
      DestroyedTrims(v, fs[0]);
      if p in v1.ptrs {
        EmptiedMirrors(w1, v1, fs[1..], p, was);
      } else {
        EmptiedTrims(w1, fs[1..]);
        EmptiedTrims(v1, fs[1..]);
      }
    }
  }

  /** If `p` were cleared before its old object is released, as move assignment does, `p` would still exist
      after the release. */
  ghost predicate OutlivesClearing(w: World, p: nat, r: Option<nat>)
    requires p in w.ptrs
  {
    p in ReleasedIf(Stored(Increased(w, r), p, None), w.ptrs[p]).ptrs
  }

  lemma OutlivesExactly(w: World, p: nat, r: Option<nat>)
    requires Conserved(w) && p in w.ptrs && (r.Some? ==> r.value in w.counts)
    ensures Outlives(w, p, r) <==> OutlivesClearing(w, p, r)
  {
    HeldIsCounted(w, p);
    var v := Increased(w, r);
    var u := Stored(v, p, None);
    if w.ptrs[p].Some? {
      var o := w.ptrs[p].value;
      assert ReleasedIf(v, w.ptrs[p]) == Released(v, o) && ReleasedIf(u, w.ptrs[p]) == Released(u, o);
      if v.counts[o] == 1 {
        assert Released(v, o) == Emptied(Deleted(v, o), FieldsOf(v, o));
        assert Released(u, o) == Emptied(Deleted(u, o), FieldsOf(u, o));
        EmptiedMirrors(Deleted(v, o), Deleted(u, o), FieldsOf(v, o), p, o);
      }
    }
  }

  /** A pointer that is not a field outlives every assignment to it. */
  lemma FreePointerOutlives(w: World, p: nat, r: Option<nat>)
    requires Conserved(w) && p in w.ptrs && p !in w.owner && (r.Some? ==> r.value in w.counts)
    ensures OutlivesClearing(w, p, r)
  {
    var u := Stored(Increased(w, r), p, None);
    if w.ptrs[p].Some? {
      ReleasedTrims(u, w.ptrs[p].value);
    }
  }

  /** Every object of `kept` is live and, when `r` is assigned to `p`, keeps a reference: it was never
      referenced, a reference to it was handed out, it is `r`, or a pointer other than `p` holds it
      that is no field or a field of one of `kept`. */
  ghost predicate Kept(w: World, kept: set<nat>, p: nat, r: Option<nat>) {
    forall x :: x in kept ==>
      && x in w.counts
      && (|| w.counts[x] == 0 || Loose(w.loose, x) > 0 || r == Some(x)
          || exists q :: q in w.ptrs && q != p && w.ptrs[q] == Some(x) && Lasting(w, kept, q))
  }

  /** `p` is no field, or its object keeps a reference when `r` is assigned to `p`. */
  ghost predicate OwnerKept(w: World, p: nat, r: Option<nat>) {
    p in w.owner ==> exists kept: set<nat> :: w.owner[p] in kept && Kept(w, kept, p, r)
  }

  lemma KeptIsUpheld(w: World, kept: set<nat>, p: nat, r: Option<nat>)
    requires p in w.ptrs && (r.Some? ==> r.value in w.counts)
    ensures Kept(w, kept, p, r) <==> Upholds(Stored(Increased(w, r), p, None), kept, r)
  {
    var u := Stored(Increased(w, r), p, None);
    assert forall q :: Lasting(u, kept, q) <==> Lasting(w, kept, q);
    if Kept(w, kept, p, r) {
      forall x | x in kept ensures Supported(u, kept, r, x) {
        if q :| q in w.ptrs && q != p && w.ptrs[q] == Some(x) && Lasting(w, kept, q) {
          assert q in u.ptrs && u.ptrs[q] == Some(x);
        }
      }
    }
    if Upholds(u, kept, r) {
      forall x | x in kept
        ensures || w.counts[x] == 0 || Loose(w.loose, x) > 0 || r == Some(x)
                || exists q :: q in w.ptrs && q != p && w.ptrs[q] == Some(x) && Lasting(w, kept, q)
      {
        assert Supported(u, kept, r, x);
        if q :| q in u.ptrs && u.ptrs[q] == Some(x) && Lasting(u, kept, q) {
          assert q in w.ptrs && q != p && w.ptrs[q] == Some(x);
        }
      }
    }
  }

  lemma ClearedAccounts(w: World, p: nat, r: Option<nat>)
    requires Conserved(w) && p in w.ptrs && (r.Some? ==> r.value in w.counts)
    ensures Accounts(Stored(Increased(w, r), p, None), Transit(r, None, 0), w.ptrs[p])
  {
    var t := Transit(r, None, 0);
    forall x ensures Balanced(Stored(Increased(w, r), p, None), x, Net(t, x) + One(w.ptrs[p], x)) {
      Held(w, x);
      IncreasedBalanced(w, r, x, 0);
      StoredBalanced(Increased(w, r), p, None, x, One(r, x));
    }
  }

  /** Whether the pointer outlives the release can be read off the world before the assignment. */
  lemma OutlivesExactlyWhenOwnerKept(w: World, p: nat, r: Option<nat>)
    requires Conserved(w) && p in w.ptrs && (r.Some? ==> r.value in w.counts)
    ensures OutlivesClearing(w, p, r) <==> OwnerKept(w, p, r)
  {
    var u := Stored(Increased(w, r), p, None);
    forall kept: set<nat> ensures Kept(w, kept, p, r) <==> Upholds(u, kept, r) {
      KeptIsUpheld(w, kept, p, r);
    }
    if w.ptrs[p].None? {
      NothingReleased(w, p, r);
    } else if p !in w.owner {
      FreePointerOutlives(w, p, r);
    } else {
      ClearedAccounts(w, p, r);
      FieldOutlivesExactly(u, w.ptrs[p].value, Transit(r, None, 0), p);
      assert ReleasedIf(u, w.ptrs[p]) == Released(u, w.ptrs[p].value);
    }
  }

  /** A field survives a cascade exactly if its object does. */
  lemma FieldOutlivesExactly(u: World, o: nat, t: Transit, p: nat)
    requires Sound(u) && Accounts(u, t, Some(o)) && t.owed.None? && FieldsListed(u) && OrphansOnly(u, {})
    requires p in u.ptrs && p in u.owner
    ensures p in Released(u, o).ptrs <==> exists kept: set<nat> :: u.owner[p] in kept && Upholds(u, kept, t.added)
  {
    ReleasedKeeps(u, o, t);
    ReleasedTrims(u, o);
    ReleasedOrphans(u, o, {});
    CascadeLeavesExactlyTheUpheld(u, o, t, u.owner[p]);
  }

  lemma NothingReleased(w: World, p: nat, r: Option<nat>)
    requires Conserved(w) && p in w.ptrs && w.ptrs[p].None? && (r.Some? ==> r.value in w.counts)
    ensures OutlivesClearing(w, p, r) && OwnerKept(w, p, r)
  {
    if p in w.owner {
      var kept := w.counts.Keys;
      forall x | x in kept && w.counts[x] != 0 && Loose(w.loose, x) == 0
        ensures exists q :: q in w.ptrs && q != p && w.ptrs[q] == Some(x) && Lasting(w, kept, q)
      {
        Held(w, x);
        var q :| q in Holders(w.ptrs, x);
        assert q in w.ptrs && q != p && w.ptrs[q] == Some(x) && Lasting(w, kept, q);
      }
      assert w.owner[p] in kept && Kept(w, kept, p, r);
    }
  }

  /** Assignments from a raw pointer or by copying are safe if the object of the pointer assigned to keeps
      a reference; all other operations always are. */
  ghost predicate Safe(w: World, op: RefOp)
    requires Allowed(w, op)
  {
    match op
    case AssignRaw(p, r) => OwnerKept(w, p, r)
    case AssignCopy(p, q) => OwnerKept(w, p, w.ptrs[q])
    case _ => true
  }

  lemma AssignSafeExactly(w: World, p: nat, r: Option<nat>)
    requires Conserved(w) && p in w.ptrs && (r.Some? ==> r.value in w.counts)
    ensures OwnerKept(w, p, r) ==> Conserved(Assigned(w, p, r))
    ensures !OwnerKept(w, p, r) ==> Assigned(w, p, r).broken
  {
    OutlivesExactly(w, p, r);
    OutlivesExactlyWhenOwnerKept(w, p, r);
    if Outlives(w, p, r) {
      AssignedConserved(w, p, r);
    }
  }

  /** Every operation, self-assignment and self-move included, keeps the accounts of all objects through
      all the deletions it causes, if and only if it is safe; otherwise it uses what is gone. */
  lemma KeepsAccountsExactlyWhenSafe(w: World, op: RefOp)
    requires Conserved(w) && Allowed(w, op)
    ensures Safe(w, op) ==> Conserved(Apply(w, op))
    ensures !Safe(w, op) ==> Apply(w, op).broken
  {
    match op
    case NewObject(o, fs) => NewObjectConserved(w, o, fs);
    case Construct(p, r) => ConstructConserved(w, p, r);
    case CopyConstruct(p, q) =>
      HeldIsCounted(w, q);
      ConstructConserved(w, p, w.ptrs[q]);
    case MoveConstruct(p, q) => MoveConstructConserved(w, p, q);
    case Destruct(p) => DestructConserved(w, p);
    case AssignRaw(p, r) => AssignSafeExactly(w, p, r);
    case AssignCopy(p, q) =>
      HeldIsCounted(w, q);
      AssignSafeExactly(w, p, w.ptrs[q]);
    case AssignMove(p, q) => AssignMoveConserved(w, p, q);
    case Swap(p, q) => SwapConserved(w, p, q);
    case Release(p) => ReleaseConserved(w, p);
    case DropRaw(o) => DropConserved(w, o);
  }

  // ----- What each operation does to the pointers it names

  /** The pointers an operation names. */
  ghost function Named(op: RefOp): set<nat> {
    match op
    case NewObject(_, fs) => Members(fs)
    case Construct(p, _) => {p}
    case CopyConstruct(p, _) => {p}
    case MoveConstruct(p, q) => {p, q}
    case Destruct(p) => {p}
    case AssignRaw(p, _) => {p}
    case AssignCopy(p, _) => {p}
    case AssignMove(p, q) => {p, q}
    case Swap(p, q) => {p, q}
    case Release(p) => {p}
    case DropRaw(_) => {}
  }

  /** Every pointer that is not named holds what it held and stays, unless it is a field of an object that
      is gone. */
  ghost predicate OthersKeep(w: World, v: World, named: set<nat>) {
    && (forall q :: q in v.ptrs && q !in named ==> q in w.ptrs && v.ptrs[q] == w.ptrs[q])
    && (forall q :: q in w.ptrs && q !in named && (q in w.owner ==> w.owner[q] in v.counts) ==> q in v.ptrs)
  }

  ghost predicate Has(v: World, p: nat, r: Option<nat>) {
    p in v.ptrs && v.ptrs[p] == r
  }

  /** The pointer holds `r`, unless it is a field of an object that is gone. */
  ghost predicate HasIfThere(v: World, p: nat, r: Option<nat>) {
    (p in v.ptrs ==> v.ptrs[p] == r) && (p !in v.ptrs ==> p in v.owner && v.owner[p] !in v.counts)
  }

  ghost predicate SameLoose(w: World, v: World) {
    forall o :: Loose(v.loose, o) == Loose(w.loose, o)
  }

  /** Which object each named pointer holds afterwards, and which references have been handed out. */
  ghost predicate Gives(w: World, op: RefOp, v: World) {
    match op
    case NewObject(o, fs) =>
      SameLoose(w, v) && o in v.counts && v.counts[o] == 0 && forall f :: f in fs ==> Has(v, f, None)
    case Construct(p, r) => SameLoose(w, v) && Has(v, p, r)
    case CopyConstruct(p, q) => SameLoose(w, v) && q in w.ptrs && Has(v, p, w.ptrs[q])
    case MoveConstruct(p, q) => SameLoose(w, v) && q in w.ptrs && Has(v, p, w.ptrs[q]) && Has(v, q, None)
    case Destruct(p) => SameLoose(w, v) && p !in v.ptrs
    case AssignRaw(p, r) => SameLoose(w, v) && Has(v, p, r)
    case AssignCopy(p, q) => SameLoose(w, v) && q in w.ptrs && Has(v, p, w.ptrs[q])
    case AssignMove(p, q) =>
      SameLoose(w, v) && q in w.ptrs && HasIfThere(v, p, w.ptrs[q]) && (p != q ==> HasIfThere(v, q, None))
    case Swap(p, q) =>
      SameLoose(w, v) && p in w.ptrs && q in w.ptrs && Has(v, p, w.ptrs[q]) && Has(v, q, w.ptrs[p])
    case Release(p) =>
      && p in w.ptrs && Has(v, p, None)
      && forall o :: Loose(v.loose, o) == Loose(w.loose, o) + One(w.ptrs[p], o)
    case DropRaw(x) => forall o :: Loose(v.loose, o) == Loose(w.loose, o) - One(Some(x), o)
  }

  /** After a release every pointer holds what it held, and is gone only with its object. */
  lemma ReleaseKeepsOthers(u: World, r: Option<nat>, named: set<nat>)
    requires FieldsOwned(u)
    ensures OthersKeep(u, ReleasedIf(u, r), named) && SameLoose(u, ReleasedIf(u, r))
    ensures forall q :: q in u.ptrs ==> HasIfThere(ReleasedIf(u, r), q, u.ptrs[q])
    ensures ReleasedIf(u, r).owner == u.owner
  {
    if r.Some? {
      ReleasedTrims(u, r.value);
    }
  }

  lemma OthersKeepThrough(w: World, u: World, v: World, named: set<nat>)
    requires OthersKeep(u, v, named) && u.owner == w.owner
    requires forall q :: q !in named ==> (q in u.ptrs <==> q in w.ptrs) && (q in w.ptrs ==> u.ptrs[q] == w.ptrs[q])
    ensures OthersKeep(w, v, named)
  {}

  lemma AssignMoveGives(w: World, p: nat, q: nat)
    requires Conserved(w) && Allowed(w, AssignMove(p, q))
    ensures Gives(w, AssignMove(p, q), Apply(w, AssignMove(p, q)))
    ensures OthersKeep(w, Apply(w, AssignMove(p, q)), {p, q})
  {
    var v := Stored(w, q, None);
    var u := Stored(v, p, w.ptrs[q]);
    SameStructure(w, u);
    MovedGives(w, u, p, q, v.ptrs[p]);
    assert Apply(w, AssignMove(p, q)) == ReleasedIf(u, v.ptrs[p]);
  }

  lemma MovedGives(w: World, u: World, p: nat, q: nat, was: Option<nat>)
    requires p in w.ptrs && q in w.ptrs && FieldsOwned(u) && u == Stored(Stored(w, q, None), p, w.ptrs[q])
    ensures Gives(w, AssignMove(p, q), ReleasedIf(u, was)) && OthersKeep(w, ReleasedIf(u, was), {p, q})
  {
    ReleaseKeepsOthers(u, was, {p, q});
    OthersKeepThrough(w, u, ReleasedIf(u, was), {p, q});
    assert HasIfThere(ReleasedIf(u, was), p, u.ptrs[p]) && HasIfThere(ReleasedIf(u, was), q, u.ptrs[q]);
  }

  lemma AssignedGives(w: World, p: nat, r: Option<nat>)
    requires Conserved(w) && p in w.ptrs && (r.Some? ==> r.value in w.counts) && OwnerKept(w, p, r)
    ensures SameLoose(w, Assigned(w, p, r)) && Has(Assigned(w, p, r), p, r) && OthersKeep(w, Assigned(w, p, r), {p})
  {
    OutlivesExactly(w, p, r);
    OutlivesExactlyWhenOwnerKept(w, p, r);
    var u := Increased(w, r);
    ReleaseKeepsOthers(u, w.ptrs[p], {p});
    OthersKeepThrough(w, u, ReleasedIf(u, w.ptrs[p]), {p});
  }

  lemma DestructGives(w: World, p: nat)
    requires Conserved(w) && Allowed(w, Destruct(p))
    ensures Gives(w, Destruct(p), Apply(w, Destruct(p))) && OthersKeep(w, Apply(w, Destruct(p)), {p})
  {
    DestroyedTrims(w, p);
  }

  lemma DropGives(w: World, o: nat)
    requires Conserved(w) && Allowed(w, DropRaw(o))
    ensures Gives(w, DropRaw(o), Apply(w, DropRaw(o))) && OthersKeep(w, Apply(w, DropRaw(o)), {})
  {
    SameStructure(w, Dropping(w, o));
    ReleasedTrims(Dropping(w, o), o);
    assert Apply(w, DropRaw(o)) == Released(Dropping(w, o), o);
  }

  lemma NewObjectGives(w: World, o: nat, fs: seq<nat>)
    requires Allowed(w, NewObject(o, fs))
    ensures var v := Apply(w, NewObject(o, fs)); Gives(w, NewObject(o, fs), v) && OthersKeep(w, v, Members(fs))
  {}

  /** Every operation that is allowed and safe leaves the pointers it names with the objects it says, hands
      out the references it says, and changes no other pointer but by deleting its object. */
  lemma OperationGives(w: World, op: RefOp)
    requires Conserved(w) && Allowed(w, op) && Safe(w, op)
    ensures Gives(w, op, Apply(w, op)) && OthersKeep(w, Apply(w, op), Named(op))
  {
    match op
    case NewObject(o, fs) => NewObjectGives(w, o, fs);
    case Destruct(p) => DestructGives(w, p);
    case AssignRaw(p, r) => AssignedGives(w, p, r);
    case AssignCopy(p, q) =>
      HeldIsCounted(w, q);
      AssignedGives(w, p, w.ptrs[q]);
    case AssignMove(p, q) => AssignMoveGives(w, p, q);
    case DropRaw(o) => DropGives(w, o);
    case _ => StoringGives(w, op);
  }

  predicate IsStoring(op: RefOp) {
    op.Construct? || op.CopyConstruct? || op.MoveConstruct? || op.Swap? || op.Release?
  }

  lemma StoringGives(w: World, op: RefOp)
    requires Conserved(w) && Allowed(w, op) && IsStoring(op)
    ensures Gives(w, op, Apply(w, op)) && OthersKeep(w, Apply(w, op), Named(op))
  {
    if op.CopyConstruct? {
      HeldIsCounted(w, op.q);
    }
  }

  // ----- Every run

  lemma {:induction false} RunsConserved(ops: seq<RefOp>)
    ensures !Exec(ops).broken ==> Conserved(Exec(ops))
  {
    if ops == [] {
      forall o ensures Balanced(EMPTY, o, 0) {}
      AllHeld(EMPTY);
    } else {
      RunsConserved(ops[..|ops| - 1]);
      var w, op := Exec(ops[..|ops| - 1]), ops[|ops| - 1];
      if Performed(w, op) {
        KeepsAccountsExactlyWhenSafe(w, op);
      }
    }
  }

  /** After any sequence of operations that has not broken the world, the count of a live object is the
      number of smart pointers holding it plus the references handed out, and an object that was ever
      referenced has been deleted if and only if no reference to it remains. */
  lemma CountsAreReferences(ops: seq<RefOp>, o: nat)
    requires !Exec(ops).broken
    ensures var w := Exec(ops);
            && (o in w.counts ==> w.counts[o] == |Holders(w.ptrs, o)| + Loose(w.loose, o))
            && (o in w.referenced ==> (o in w.deleted <==> |Holders(w.ptrs, o)| + Loose(w.loose, o) == 0))
            && !(o in w.counts && o in w.deleted)
  {
    RunsConserved(ops);
    Held(Exec(ops), o);
  }

  ghost predicate IsUnsafe(w: World, op: RefOp) {
    Performed(w, op) && !Safe(w, op)
  }

  ghost predicate UnsafeAt(ops: seq<RefOp>, i: nat)
    requires i < |ops|
  {
    IsUnsafe(Exec(ops[..i]), ops[i])
  }

  ghost predicate PerformsUnsafe(ops: seq<RefOp>) {
    exists i :: 0 <= i < |ops| && UnsafeAt(ops, i)
  }

  lemma UnsafeAtFront(front: seq<RefOp>, op: RefOp, i: nat)
    requires i <= |front|
    ensures UnsafeAt(front + [op], i) <==> if i < |front| then UnsafeAt(front, i) else IsUnsafe(Exec(front), op)
  {
    assert (front + [op])[..i] == front[..i];
    assert i == |front| ==> front[..i] == front;
  }

  lemma UnsafeSnoc(front: seq<RefOp>, op: RefOp)
    ensures PerformsUnsafe(front + [op]) <==> PerformsUnsafe(front) || IsUnsafe(Exec(front), op)
  {
    if PerformsUnsafe(front) {
      var i :| 0 <= i < |front| && UnsafeAt(front, i);
      UnsafeAtFront(front, op, i);
    }
    if PerformsUnsafe(front + [op]) {
      var i :| 0 <= i < |front + [op]| && UnsafeAt(front + [op], i);
      UnsafeAtFront(front, op, i);
    }
    UnsafeAtFront(front, op, |front|);
  }

  /** A run uses what is gone if and only if it performs an assignment that is not safe. */
  lemma {:induction false} BrokenExactlyByUnsafeAssignment(ops: seq<RefOp>)
    ensures Exec(ops).broken <==> PerformsUnsafe(ops)
  {
    if ops != [] {
      var front, op := ops[..|ops| - 1], ops[|ops| - 1];
      BrokenExactlyByUnsafeAssignment(front);
      UnsafeSnoc(front, op);
      assert ops == front + [op];
      RunsConserved(front);
      if Performed(Exec(front), op) {
        KeepsAccountsExactlyWhenSafe(Exec(front), op);
      }
    }
  }

  /** Assigning or moving a pointer to itself changes nothing. */
  lemma SelfAssignmentChangesNothing(w: World, p: nat)
    requires Conserved(w) && p in w.ptrs
    ensures Apply(w, AssignCopy(p, p)) == w && Apply(w, AssignMove(p, p)) == w
  {
    HeldIsCounted(w, p);
    if w.ptrs[p].Some? {
      var o := w.ptrs[p].value;
      Held(w, o);
      assert ReleasedIf(Increased(w, w.ptrs[p]), w.ptrs[p]) == Released(Increased(w, w.ptrs[p]), o);
      assert Released(Increased(w, w.ptrs[p]), o).counts == w.counts && w.referenced + {o} == w.referenced;
    }
    assert w.ptrs[p := w.ptrs[p]] == w.ptrs && w.ptrs[p := None][p := w.ptrs[p]] == w.ptrs;
  }

  // ----- A run that breaks

  lemma ExecSnoc(ops: seq<RefOp>, op: RefOp)
    ensures Exec(ops + [op]) == Next(Exec(ops), op)
  {
    assert (ops + [op])[..|ops|] == ops;
  }

  // Object 1 is held by its own field 10; pointer 30 held it meanwhile.
  const MADE := World(map[1 := 0], map[10 := None], map[1 := [10]], map[10 := 1], {}, map[], {}, false)
  const POINTED := MADE.(counts := map[1 := 1], ptrs := map[10 := None, 30 := Some(1)], referenced := {1})
  const LOOPED := POINTED.(counts := map[1 := 2], ptrs := map[10 := Some(1), 30 := Some(1)])
  const SELF_HELD := POINTED.(counts := map[1 := 1], ptrs := map[10 := Some(1)])
  const MAKE_SELF_HELD: seq<RefOp> :=
    [NewObject(1, [10])] + [Construct(30, Some(1))] + [AssignRaw(10, Some(1))] + [Destruct(30)]

  lemma MakesObject()
    ensures Next(EMPTY, NewObject(1, [10])) == MADE
  {
    var w := Apply(EMPTY, NewObject(1, [10]));
    assert w.counts == MADE.counts && w.ptrs == MADE.ptrs && w.fields == MADE.fields && w.owner == MADE.owner;
  }

  lemma PointsToObject()
    ensures Next(MADE, Construct(30, Some(1))) == POINTED
  {
    var w := Apply(MADE, Construct(30, Some(1)));
    assert w.counts == POINTED.counts && w.ptrs == POINTED.ptrs && w.referenced == POINTED.referenced;
  }

  lemma LoopsObject()
    ensures Next(POINTED, AssignRaw(10, Some(1))) == LOOPED
  {
    var v := Increased(POINTED, Some(1));
    assert ReleasedIf(v, POINTED.ptrs[10]) == v;
    assert v.counts == LOOPED.counts && Stored(v, 10, Some(1)).ptrs == LOOPED.ptrs && v.referenced == LOOPED.referenced;
  }

  lemma DropsPointer()
    ensures Next(LOOPED, Destruct(30)) == SELF_HELD
  {
    var gone := LOOPED.(ptrs := LOOPED.ptrs - {30});
    assert Destroyed(LOOPED, 30) == ReleasedIf(gone, Some(1)) == Released(gone, 1);
    assert Released(gone, 1) == gone.(counts := gone.counts[1 := 1]);
    assert gone.ptrs == SELF_HELD.ptrs && gone.counts[1 := 1] == SELF_HELD.counts;
  }

  lemma SelfHeldIsMade()
    ensures Exec(MAKE_SELF_HELD) == SELF_HELD
  {
    MakesObject();
    PointsToObject();
    LoopsObject();
    DropsPointer();
    assert Exec([]) == EMPTY && [NewObject(1, [10])] == [] + [NewObject(1, [10])];
    ExecSnoc([], NewObject(1, [10]));
    ExecSnoc([NewObject(1, [10])], Construct(30, Some(1)));
    ExecSnoc([NewObject(1, [10])] + [Construct(30, Some(1))], AssignRaw(10, Some(1)));
    ExecSnoc([NewObject(1, [10])] + [Construct(30, Some(1))] + [AssignRaw(10, Some(1))], Destruct(30));
  }

  lemma ReleaseDestroysItself()
    ensures Released(SELF_HELD, 1).broken
  {
    var d := Deleted(SELF_HELD, 1);
    var gone := d.(ptrs := d.ptrs - {10});
    assert Released(SELF_HELD, 1) == Emptied(d, [10]);
    assert Destroyed(d, 10) == ReleasedIf(gone, Some(1)) == Released(gone, 1);
    assert Released(gone, 1) == gone.(broken := true);
    assert Emptied(d, [10]) == Emptied(gone.(broken := true), [10][1..]);
  }

  /** Assigning null to a field that holds the only reference to its own object deletes that object, which
      destroys the field while it is being assigned. */
  lemma AssignToOwnFieldBreaks()
    ensures Exec(MAKE_SELF_HELD + [AssignRaw(10, None)]).broken
  {
    SelfHeldIsMade();
    ExecSnoc(MAKE_SELF_HELD, AssignRaw(10, None));
    ReleaseDestroysItself();
    assert ReleasedIf(SELF_HELD, SELF_HELD.ptrs[10]) == Released(SELF_HELD, 1);
  }

  // ----- The operations in place

  class Program {
    var counts: map<nat, nat>
    var ptrs: map<nat, Option<nat>>
    var fields: map<nat, seq<nat>>
    ghost var owner: map<nat, nat>
    ghost var deleted: set<nat>
    ghost var loose: map<nat, nat>
    ghost var referenced: set<nat>

    ghost function W(): World
      reads this
    {
      World(counts, ptrs, fields, owner, deleted, loose, referenced, false)
    }

    ghost predicate Valid()
      reads this
    {
      Conserved(W())
    }

    constructor ()
      ensures Valid() && W() == EMPTY
    {
      counts, ptrs, fields := map[], map[], map[];
      owner, deleted, loose, referenced := map[], {}, map[], {};
      new;
      RunsConserved([]);
    }

    method AddRef(o: nat)
      requires o in counts
      modifies this`counts, this`referenced
      ensures W() == Increased(old(W()), Some(o))
    {
      counts, referenced := counts[o := counts[o] + 1], referenced + {o};
    }

    /** `Release`, with the whole cascade of deletions that a last reference sets off. */
    method ReleaseRef(o: nat)
      requires FieldsOwned(W()) && !Released(W(), o).broken
      modifies this`counts, this`deleted, this`ptrs
      ensures W() == Released(old(W()), o)
      decreases |counts|, 0, 0
    {
      ghost var w := W();
      ReleasedUnrolls(w, o);
      counts := counts[o := counts[o] - 1];
      if counts[o] == 0 {
        DeletedAnyway(w, o, 0);
        DeleteObject(o);
      }
    }

    /** `delete this`: the object goes, and then its fields. */
    method DeleteObject(o: nat)
      requires FieldsOwned(W()) && o in counts && !Emptied(Deleted(W(), o), FieldsOf(W(), o)).broken
      modifies this`counts, this`deleted, this`ptrs
      ensures W() == Emptied(Deleted(old(W()), o), FieldsOf(old(W()), o))
      decreases |counts - {o}|, 3, 0
    {
      counts, deleted := counts - {o}, deleted + {o};
      DestroyFields(if o in fields then fields[o] else []);
    }

    /** `~scoped_refptr` of one pointer. */
    method DestroyPtr(p: nat)
      requires FieldsOwned(W()) && p in ptrs && !Destroyed(W(), p).broken
      modifies this`counts, this`deleted, this`ptrs
      ensures W() == Destroyed(old(W()), p)
      decreases |counts|, 1, 0
    {
      ghost var w := W();
      var r := ptrs[p];
      ptrs := ptrs - {p};
      assert Destroyed(w, p) == ReleasedIf(W(), r);
      if r.Some? {
        ReleaseRef(r.value);
      }
    }

    /** The destructors of the fields of a deleted object, one after the other. */
    method DestroyFields(fs: seq<nat>)
      requires FieldsOwned(W()) && !Emptied(W(), fs).broken
      modifies this`counts, this`deleted, this`ptrs
      ensures W() == Emptied(old(W()), fs)
      decreases |counts|, 2, 0
    {
      ghost var w := W();
      var i := 0;
      while i < |fs|
        invariant i <= |fs| && FieldsOwned(W()) && Emptied(W(), fs[i..]) == Emptied(w, fs)
        invariant |counts| <= |w.counts|
      {
        EmptiedUnrolls(W(), fs[i..]);
        assert fs[i..][1..] == fs[i + 1..];
        DestroyedTrims(W(), fs[i]);
        DestroyPtr(fs[i]);
        i := i + 1;
      }
    }

    /** `scoped_refptr(T*)`; the copy constructor does the same with the pointer of another one. */
    method ConstructFrom(p: nat, r: Option<nat>)
      requires Valid() && Allowed(W(), Construct(p, r))
      modifies this
      ensures Valid() && W() == Apply(old(W()), Construct(p, r))
      ensures Gives(old(W()), Construct(p, r), W()) && OthersKeep(old(W()), W(), Named(Construct(p, r)))
    {
      OperationGives(W(), Construct(p, r));
      ConstructConserved(W(), p, r);
      ptrs := ptrs[p := r];
      if r.Some? {
        AddRef(r.value);
      }
    }

    /** `scoped_refptr(scoped_refptr&&)`: takes over the reference of `q`. */
    method MoveConstructFrom(p: nat, q: nat)
      requires Valid() && Allowed(W(), MoveConstruct(p, q))
      modifies this
      ensures Valid() && W() == Apply(old(W()), MoveConstruct(p, q))
      ensures Gives(old(W()), MoveConstruct(p, q), W()) && OthersKeep(old(W()), W(), Named(MoveConstruct(p, q)))
    {
      OperationGives(W(), MoveConstruct(p, q));
      MoveConstructConserved(W(), p, q);
      var value := ptrs[q];
      ptrs := ptrs[q := None];
      ptrs := ptrs[p := value];
    }

    /** `operator=(T*)`: the new object is referenced before the old one is released, so that assigning
        a pointer to itself never deletes its object. */
    method AssignRawTo(p: nat, r: Option<nat>)
      requires Valid() && Allowed(W(), AssignRaw(p, r)) && Safe(W(), AssignRaw(p, r))
      modifies this
      ensures Valid() && W() == Apply(old(W()), AssignRaw(p, r))
      ensures Gives(old(W()), AssignRaw(p, r), W()) && OthersKeep(old(W()), W(), Named(AssignRaw(p, r)))
    {
      OperationGives(W(), AssignRaw(p, r));
      ghost var w := W();
      AssignSafeExactly(w, p, r);
      var was := ptrs[p];
      if r.Some? {
        AddRef(r.value);
      }
      assert W() == Increased(w, r);
      if was.Some? {
        assert ReleasedIf(W(), was) == Released(W(), was.value);
        ReleaseRef(was.value);
      }
      ptrs := ptrs[p := r];
    }

    /** `operator=(scoped_refptr&&)`: a temporary takes the reference of `q`, is swapped with `p`, and is
        destroyed with what `p` held. */
    method AssignMoveTo(p: nat, q: nat)
      requires Valid() && Allowed(W(), AssignMove(p, q))
      modifies this
      ensures Valid() && W() == Apply(old(W()), AssignMove(p, q))
      ensures Gives(old(W()), AssignMove(p, q), W()) && OthersKeep(old(W()), W(), Named(AssignMove(p, q)))
    {
      OperationGives(W(), AssignMove(p, q));
      AssignMoveConserved(W(), p, q);
      var temp := ptrs[q];
      ptrs := ptrs[q := None];
      ptrs, temp := ptrs[p := temp], ptrs[p];
      if temp.Some? {
        assert ReleasedIf(W(), temp) == Released(W(), temp.value);
        ReleaseRef(temp.value);
      }
    }

    method DestructPtr(p: nat)
      requires Valid() && Allowed(W(), Destruct(p))
      modifies this
      ensures Valid() && W() == Apply(old(W()), Destruct(p))
      ensures Gives(old(W()), Destruct(p), W()) && OthersKeep(old(W()), W(), Named(Destruct(p)))
    {
      OperationGives(W(), Destruct(p));
      DestructConserved(W(), p);
      DestroyPtr(p);
    }

    /** `swap(T** pp)` applied to another smart pointer. */
    method SwapPtrs(p: nat, q: nat)
      requires Valid() && Allowed(W(), Swap(p, q))
      modifies this
      ensures Valid() && W() == Apply(old(W()), Swap(p, q))
      ensures Gives(old(W()), Swap(p, q), W()) && OthersKeep(old(W()), W(), Named(Swap(p, q)))
    {
      OperationGives(W(), Swap(p, q));
      SwapConserved(W(), p, q);
      var value := ptrs[p];
      ptrs := ptrs[p := ptrs[q]];
      ptrs := ptrs[q := value];
    }

    method ReleasePtr(p: nat) returns (r: Option<nat>)
      requires Valid() && Allowed(W(), Release(p))
      modifies this
      ensures Valid() && r == old(ptrs)[p] && W() == Apply(old(W()), Release(p))
      ensures Gives(old(W()), Release(p), W()) && OthersKeep(old(W()), W(), Named(Release(p)))
    {
      OperationGives(W(), Release(p));
      ReleaseConserved(W(), p);
      r := ptrs[p];
      ptrs := ptrs[p := None];
      if r.Some? {
        loose := loose[r.value := Loose(loose, r.value) + 1];
      }
      assert W() == Apply(old(W()), Release(p));
    }
  }

  lemma ReleasedUnrolls(w: World, o: nat)
    requires !Released(w, o).broken
    ensures o in w.counts && w.counts[o] > 0
    ensures w.counts[o] > 1 ==> Released(w, o) == w.(counts := w.counts[o := w.counts[o] - 1])
    ensures w.counts[o] == 1 ==>
              Released(w, o) == Emptied(Deleted(w, o), FieldsOf(w, o)) && |w.counts - {o}| < |w.counts|
  {
    if o in w.counts {
      SmallerWithout(w.counts, o);
    }
  }

  lemma DeletedAnyway(w: World, o: nat, n: nat)
    ensures Deleted(w.(counts := w.counts[o := n]), o) == Deleted(w, o)
    ensures w.counts[o := n] - {o} == w.counts - {o}
  {
    assert w.counts[o := n] - {o} == w.counts - {o};
  }

  lemma EmptiedUnrolls(w: World, fs: seq<nat>)
    requires fs != [] && FieldsOwned(w) && !Emptied(w, fs).broken
    ensures fs[0] in w.ptrs && !Destroyed(w, fs[0]).broken && Emptied(w, fs) == Emptied(Destroyed(w, fs[0]), fs[1..])
  {
    if fs[0] in w.ptrs {
      DestroyedTrims(w, fs[0]);
      EmptiedTrims(Destroyed(w, fs[0]), fs[1..]);
    }
  }
}
