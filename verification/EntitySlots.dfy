/** The allocator of entity handles: a slot per index, a generation per slot, and a list of
    free slots threaded through the slots themselves. */
module EntitySlotsModule {
  import opened Entities
  import opened Sequences

  datatype Slot<L> = Slot(generation: nat, nextFree: nat, location: L, occupied: bool, retired: bool)

  /** What an observer can tell about the allocator: the handles that resolve, and those ever issued. */
  datatype History = History(live: set<Entity>, issued: set<Entity>)

  ghost predicate CreateStep(before: History, after: History, e: Entity) {
    && e.Valid() && e !in before.issued
    && after == History(before.live + {e}, before.issued + {e})
  }

  /** One operation of the allocator, as seen from outside. */
  ghost predicate Step(before: History, after: History) {
    || (exists e :: CreateStep(before, after, e))
    || (after.live <= before.live && after.issued == before.issued)
  }

  ghost predicate Run(states: seq<History>) {
    && (forall i :: 0 <= i < |states| ==> states[i].live <= states[i].issued)
    && (forall i :: 0 <= i < |states| - 1 ==> Step(states[i], states[i + 1]))
  }

  /** Over any run, a handle that was issued and no longer resolves never resolves again. */
  lemma {:induction false} DeadStaysDead(states: seq<History>, i: nat, j: nat, e: Entity)
    requires Run(states) && i <= j < |states|
    requires e in states[i].issued && e !in states[i].live
    ensures e in states[j].issued && e !in states[j].live
    decreases j
  {
    if i < j {
      DeadStaysDead(states, i, j - 1, e);
      assert Step(states[j - 1], states[j - 1 + 1]);
    }
  }

  /** Over any run, no handle is issued by two different creations. */
  lemma NeverIssuedTwice(states: seq<History>, i: nat, j: nat, e: Entity)
    requires Run(states) && i < j < |states| - 1
    requires CreateStep(states[i], states[i + 1], e)
    ensures !CreateStep(states[j], states[j + 1], e)
  {
    IssuedGrows(states, i + 1, j);
  }

  lemma {:induction false} IssuedGrows(states: seq<History>, i: nat, j: nat)
    requires Run(states) && i <= j < |states|
    ensures states[i].issued <= states[j].issued
    decreases j
  {
    if i < j {
      IssuedGrows(states, i, j - 1);
      assert Step(states[j - 1], states[j - 1 + 1]);
    }
  }

  /** `free` is the list of slots reached from `head` along the nextFree links. */
  ghost predicate FreeList<L>(slots: seq<Slot<L>>, head: nat, free: seq<nat>) {
    && Distinct(free)
    && (forall k :: 0 <= k < |free| ==> free[k] < |slots|)
    && head == (if free == [] then NULL_INDEX else free[0])
    && (forall k {:trigger free[k]} :: 0 <= k < |free| ==>
          slots[free[k]].nextFree == if k + 1 < |free| then free[k + 1] else NULL_INDEX)
  }

  lemma FreeListPush<L>(slots: seq<Slot<L>>, head: nat, free: seq<nat>, i: nat, s: Slot<L>)
    requires FreeList(slots, head, free) && i < |slots| && i !in free && s.nextFree == head
    ensures FreeList(slots[i := s], i, [i] + free)
  {
    var t := [i] + free;
    forall k | 0 <= k < |t|
      ensures slots[i := s][t[k]].nextFree == if k + 1 < |t| then t[k + 1] else NULL_INDEX
    {
      if k > 0 {
        assert t[k] == free[k - 1];
      }
    }
  }

  lemma FreeListPop<L>(slots: seq<Slot<L>>, head: nat, free: seq<nat>, s: Slot<L>)
    requires FreeList(slots, head, free) && free != []
    ensures FreeList(slots[head := s], slots[head].nextFree, free[1..])
  {
    var t := free[1..];
    forall k | 0 <= k < |t|
      ensures slots[head := s][t[k]].nextFree == if k + 1 < |t| then t[k + 1] else NULL_INDEX
    {
      assert t[k] == free[k + 1];
    }
  }

  lemma FreeListElsewhere<L>(slots: seq<Slot<L>>, head: nat, free: seq<nat>, i: nat, s: Slot<L>)
    requires FreeList(slots, head, free) && i < |slots| && i !in free
    ensures FreeList(slots[i := s], head, free)
  {
  }

  predicate Resolves<L>(slots: seq<Slot<L>>, e: Entity) {
    e.index < |slots| && slots[e.index].occupied && slots[e.index].generation == e.generation
  }

  ghost function LiveIn<L>(slots: seq<Slot<L>>, issued: set<Entity>): set<Entity> {
    set e | e in issued && Resolves(slots, e)
  }

  ghost predicate SlotOk<L>(slots: seq<Slot<L>>, i: nat, free: seq<nat>, issued: set<Entity>, generationLimit: nat)
    requires i < |slots|
  {
    var s := slots[i];
    && s.generation <= generationLimit
    && (s.retired ==> !s.occupied && s.generation == generationLimit)
    && (s.occupied || s.retired ==> Entity(i, s.generation) in issued)
    && (forall n: nat :: n < s.generation ==> Entity(i, n) in issued)
    && (i in free <==> !s.occupied && !s.retired)
  }

  /** An issued handle is behind its slot's generation, or level with it while the slot is taken or retired. */
  ghost predicate IssuedOk<L>(slots: seq<Slot<L>>, e: Entity) {
    && e.index < |slots|
    && e.generation <= slots[e.index].generation
    && (e.generation == slots[e.index].generation ==> slots[e.index].occupied || slots[e.index].retired)
  }

  ghost predicate Consistent<L>(slots: seq<Slot<L>>, free: seq<nat>, issued: set<Entity>, generationLimit: nat) {
    && (forall i :: 0 <= i < |slots| ==> SlotOk(slots, i, free, issued, generationLimit))
    && (forall e :: e in issued ==> IssuedOk(slots, e))
  }

  /** Rewriting one slot, or appending one, keeps the table consistent when the new slot is. */
  lemma RewriteConsistent<L>(slots: seq<Slot<L>>, slots': seq<Slot<L>>, i: nat, free: seq<nat>, free': seq<nat>,
                             issued: set<Entity>, issued': set<Entity>, generationLimit: nat)
    requires Consistent(slots, free, issued, generationLimit)
    requires i <= |slots| <= |slots'| && i < |slots'| <= i + |slots| + 1 && |slots'| <= |slots| + 1
    requires |slots'| == |slots| + 1 ==> i == |slots|
    requires forall j :: 0 <= j < |slots| && j != i ==> slots'[j] == slots[j] && (j in free' <==> j in free)
    requires issued <= issued' <= issued + {Entity(i, slots'[i].generation)}
    requires issued' != issued ==> slots'[i].occupied
    requires SlotOk(slots', i, free', issued', generationLimit)
    requires i < |slots| ==> slots'[i].generation >= slots[i].generation
    requires i < |slots| && slots[i].occupied && !slots'[i].occupied && !slots'[i].retired ==>
               slots'[i].generation > slots[i].generation
    requires i < |slots| && slots[i].retired ==> slots'[i].retired
    ensures Consistent(slots', free', issued', generationLimit)
  {
    forall j | 0 <= j < |slots'| ensures SlotOk(slots', j, free', issued', generationLimit) {
      if j != i {
        assert SlotOk(slots, j, free, issued, generationLimit);
      }
    }
    forall e | e in issued' ensures IssuedOk(slots', e) {
      if e in issued {
        assert IssuedOk(slots, e);
      }
    }
  }

  /** The handle of a free or a new slot has never been issued, and taking it adds it alone. */
  lemma TakeSlot<L>(slots: seq<Slot<L>>, slots': seq<Slot<L>>, e: Entity, free: seq<nat>, free': seq<nat>,
                    issued: set<Entity>, generationLimit: nat)
    requires Consistent(slots, free, issued, generationLimit)
    requires if e.index < |slots|
             then free != [] && free[0] < |slots| && Distinct(free) && free' == free[1..] && e == Entity(free[0], slots[free[0]].generation)
                  && |slots'| == |slots| && slots' == slots[e.index := slots'[e.index]]
             else free' == free && |slots| !in free && e == Entity(|slots|, 0)
                  && |slots'| == |slots| + 1 && slots == slots'[..|slots|]
    requires slots'[e.index].occupied && slots'[e.index].generation == e.generation && !slots'[e.index].retired
    ensures e !in issued
    ensures LiveIn(slots', issued + {e}) == LiveIn(slots, issued) + {e}
    ensures Consistent(slots', free', issued + {e}, generationLimit)
  {
    assert e.index < |slots| ==> SlotOk(slots, e.index, free, issued, generationLimit);
    assert e in issued ==> IssuedOk(slots, e);
    RewriteConsistent(slots, slots', e.index, free, free', issued, issued + {e}, generationLimit);
  }

  /** The head of the list, if any, is a free slot whose index can be handed out. */
  lemma FreeListHead<L>(slots: seq<Slot<L>>, head: nat, free: seq<nat>, issued: set<Entity>, generationLimit: nat)
    requires FreeList(slots, head, free) && Consistent(slots, free, issued, generationLimit) && |slots| <= NULL_INDEX
    ensures Distinct(free)
    ensures head != NULL_INDEX <==> free != []
    ensures |slots| !in free
    ensures free != [] ==> head == free[0] < |slots| && !slots[head].retired
  {
    if free != [] {
      assert SlotOk(slots, free[0], free, issued, generationLimit);
    }
  }

  lemma FreeListGrow<L>(slots: seq<Slot<L>>, head: nat, free: seq<nat>, s: Slot<L>)
    requires FreeList(slots, head, free)
    ensures FreeList(slots + [s], head, free)
  {
  }

  lemma GenerationBound<L>(slots: seq<Slot<L>>, e: Entity, free: seq<nat>, issued: set<Entity>, generationLimit: nat)
    requires Consistent(slots, free, issued, generationLimit) && Resolves(slots, e)
    ensures slots[e.index].generation <= generationLimit && !slots[e.index].retired
  {
    assert SlotOk(slots, e.index, free, issued, generationLimit);
  }

  /** Freeing or retiring the slot of a live handle. */
  lemma LeaveSlot<L>(slots: seq<Slot<L>>, e: Entity, s: Slot<L>, free: seq<nat>, free': seq<nat>,
                     issued: set<Entity>, generationLimit: nat)
    requires Consistent(slots, free, issued, generationLimit) && Resolves(slots, e)
    requires !s.occupied
    requires if s.retired then s.generation == generationLimit == e.generation && free' == free
             else s.generation == e.generation + 1 <= generationLimit && free' == [e.index] + free
    ensures e.index !in free && e in issued
    ensures LiveIn(slots[e.index := s], issued) == LiveIn(slots, issued) - {e}
    ensures Consistent(slots[e.index := s], free', issued, generationLimit)
  {
    assert SlotOk(slots, e.index, free, issued, generationLimit);
    RewriteConsistent(slots, slots[e.index := s], e.index, free, free', issued, issued, generationLimit);
    forall x | x in issued ensures Resolves(slots[e.index := s], x) <==> Resolves(slots, x) && x != e {
      assert IssuedOk(slots, x);
    }
  }

  /** What Clear leaves in a slot, its place in the free list aside. */
  function Vacated<L>(slot: Slot<L>, generationLimit: nat, nowhere: L): Slot<L> {
    if !slot.occupied then slot
    else if slot.generation == generationLimit then slot.(occupied := false, location := nowhere, retired := true)
    else slot.(occupied := false, location := nowhere, generation := slot.generation + 1)
  }

  /** The first `n` slots are vacated, and of them exactly the unretired ones are free. */
  ghost predicate Cleared<L>(before: seq<Slot<L>>, slots: seq<Slot<L>>, n: nat, free: seq<nat>, generationLimit: nat, nowhere: L)
  {
    && n <= |slots| == |before|
    && (forall i :: 0 <= i < n ==>
          slots[i] == Vacated(before[i], generationLimit, nowhere).(nextFree := slots[i].nextFree))
    && (forall i :: n <= i < |slots| ==> slots[i] == before[i])
    && (forall i :: 0 <= i < n ==> (i in free <==> !slots[i].retired))
    && (forall k :: 0 <= k < |free| ==> free[k] < n)
  }

  lemma ClearedNothing<L>(slots: seq<Slot<L>>, generationLimit: nat, nowhere: L)
    ensures FreeList(slots, NULL_INDEX, []) && Cleared(slots, slots, 0, [], generationLimit, nowhere)
  {
  }

  /** One more slot vacated and linked in front of the free ones. */
  lemma ClearedFree<L>(before: seq<Slot<L>>, slots: seq<Slot<L>>, n: nat, head: nat, free: seq<nat>,
                       generationLimit: nat, nowhere: L, slot: Slot<L>)
    requires Cleared(before, slots, n, free, generationLimit, nowhere) && FreeList(slots, head, free) && n < |slots|
    requires slot == Vacated(before[n], generationLimit, nowhere).(nextFree := head) && !slot.retired
    ensures Cleared(before, slots[n := slot], n + 1, [n] + free, generationLimit, nowhere)
    ensures FreeList(slots[n := slot], n, [n] + free)
  {
    hide FreeList;
    var slots' := slots[n := slot];
    NotYetFree(before, slots, n, free, generationLimit, nowhere);
    FreeListPush(slots, head, free, n, slot);
    forall i | 0 <= i < n + 1 ensures i in [n] + free <==> !slots'[i].retired {
      assert i in [n] + free <==> i == n || i in free;
    }
  }

  lemma NotYetFree<L>(before: seq<Slot<L>>, slots: seq<Slot<L>>, n: nat, free: seq<nat>, generationLimit: nat, nowhere: L)
    requires Cleared(before, slots, n, free, generationLimit, nowhere)
    ensures n !in free
  {
  }

  /** One more slot retired. */
  lemma ClearedRetired<L>(before: seq<Slot<L>>, slots: seq<Slot<L>>, n: nat, head: nat, free: seq<nat>,
                          generationLimit: nat, nowhere: L, slot: Slot<L>)
    requires Cleared(before, slots, n, free, generationLimit, nowhere) && FreeList(slots, head, free) && n < |slots|
    requires slot == Vacated(before[n], generationLimit, nowhere).(nextFree := NULL_INDEX) && slot.retired
    ensures Cleared(before, slots[n := slot], n + 1, free, generationLimit, nowhere)
    ensures FreeList(slots[n := slot], head, free)
  {
    hide FreeList;
    NotYetFree(before, slots, n, free, generationLimit, nowhere);
    FreeListElsewhere(slots, head, free, n, slot);
  }

  lemma NotYetCleared<L>(before: seq<Slot<L>>, slots: seq<Slot<L>>, n: nat, free: seq<nat>, generationLimit: nat, nowhere: L)
    requires Cleared(before, slots, n, free, generationLimit, nowhere)
    ensures |slots| == |before| && (n < |slots| ==> slots[n] == before[n])
  {
  }

  lemma ClearedConsistent<L>(before: seq<Slot<L>>, slots: seq<Slot<L>>, free0: seq<nat>, free: seq<nat>, issued: set<Entity>,
                             generationLimit: nat, nowhere: L)
    requires Consistent(before, free0, issued, generationLimit)
    requires Cleared(before, slots, |slots|, free, generationLimit, nowhere)
    ensures Consistent(slots, free, issued, generationLimit)
    ensures LiveIn(slots, issued) == {}
  {
    forall i | 0 <= i < |slots| ensures SlotOk(slots, i, free, issued, generationLimit) && !slots[i].occupied {
      assert SlotOk(before, i, free0, issued, generationLimit);
    }
    forall e | e in issued ensures IssuedOk(slots, e) {
      assert IssuedOk(before, e);
    }
  }

  /** The slots that will never be used again. */
  ghost function RetiredIn<L>(slots: seq<Slot<L>>): set<nat> {
    set i: nat | i < |slots| && slots[i].retired
  }

  lemma NoneRetired<L>(slots: seq<Slot<L>>, slots': seq<Slot<L>>, i: nat)
    requires i < |slots'| && |slots| <= |slots'| <= i + |slots| + 1 && |slots'| <= |slots| + 1
    requires i < |slots| ==> slots' == slots[i := slots'[i]] && !slots[i].retired
    requires i >= |slots| ==> slots' == slots + [slots'[i]] && i == |slots|
    requires !slots'[i].retired
    ensures RetiredIn(slots') == RetiredIn(slots)
  {
    forall k: nat | k < |slots'| && k != i ensures k < |slots| && slots'[k] == slots[k] {
    }
  }

  ghost function HandlesOfSlot(i: nat, n: nat): (handles: set<Entity>)
    ensures |handles| == n && forall e :: e in handles <==> e.index == i && e.generation < n
  {
    if n == 0 then {} else HandlesOfSlot(i, n - 1) + {Entity(i, n - 1)}
  }

  /** The first `n` handles of each of some slots are that many times `n` handles. */
  lemma {:induction false} HandlesOf(indices: set<nat>, n: nat) returns (handles: set<Entity>)
    ensures |handles| == |indices| * n
    ensures forall e :: e in handles <==> e.index in indices && e.generation < n
  {
    if indices == {} {
      handles := {};
    } else {
      var i :| i in indices;
      var rest := indices - {i};
      var others := HandlesOf(rest, n);
      var these := HandlesOfSlot(i, n);
      handles := others + these;
      assert others !! these;
      OneMoreTimes(|rest|, n);
    }
  }

  lemma OneMoreTimes(m: nat, n: nat)
    ensures (m + 1) * n == m * n + n
  {
  }

  ghost function IndexSet(handles: set<Entity>): set<nat> {
    set e | e in handles :: e.index
  }

  lemma {:induction false} FewerIndices(handles: set<Entity>)
    ensures |IndexSet(handles)| <= |handles|
  {
    if handles != {} {
      var e :| e in handles;
      FewerIndices(handles - {e});
      FewerTogether(IndexSet(handles), IndexSet(handles - {e}), {e.index});
      assert handles == (handles - {e}) + {e};
    }
  }

  /** A retired slot has had every handle it can have. */
  lemma RetiredUsedUp<L>(slots: seq<Slot<L>>, free: seq<nat>, issued: set<Entity>, generationLimit: nat)
    requires Consistent(slots, free, issued, generationLimit)
    ensures |RetiredIn(slots)| * (generationLimit + 1) <= |issued|
  {
    var handles := HandlesOf(RetiredIn(slots), generationLimit + 1);
    forall e | e in handles ensures e in issued {
      assert SlotOk(slots, e.index, free, issued, generationLimit);
    }
    Fewer(handles, issued);
  }

  /** With no slot free, every slot is taken or retired. */
  lemma NoneFree<L>(slots: seq<Slot<L>>, issued: set<Entity>, generationLimit: nat)
    requires Consistent(slots, [], issued, generationLimit)
    ensures |slots| <= |LiveIn(slots, issued)| + |RetiredIn(slots)|
  {
    var live := LiveIn(slots, issued);
    forall i | i in Below(|slots|) ensures i in IndexSet(live) + RetiredIn(slots) {
      assert SlotOk(slots, i, [], issued, generationLimit);
      if !slots[i].retired {
        var e := Entity(i, slots[i].generation);
        assert e in live && e.index == i;
      }
    }
    FewerTogether(Below(|slots|), IndexSet(live), RetiredIn(slots));
    FewerIndices(live);
  }

  class EntitySlots<L> {
    var slots: seq<Slot<L>>
    var freeHead: nat
    var size: nat
    const slotLimit: nat
    const generationLimit: nat
    const nowhere: L

    ghost var free: seq<nat>          // the free list, head first
    ghost var issued: set<Entity>     // every handle ever returned by Create

    ghost predicate Valid()
      reads this
    {
      && |slots| <= slotLimit <= NULL_INDEX
      && FreeList(slots, freeHead, free)
      && Consistent(slots, free, issued, generationLimit)
      && size == |Live()|
    }

    predicate Contains(e: Entity)
      reads this
    {
      Resolves(slots, e)
    }

    /** The handles that resolve. */
    ghost function Live(): set<Entity>
      reads this
    {
      LiveIn(slots, issued)
    }

    ghost function Observed(): History
      reads this
    {
      History(Live(), issued)
    }

    /** Every handle that resolves was issued. */
    lemma ContainsIsLive(e: Entity)
      requires Valid()
      ensures Contains(e) <==> e in Live()
    {
      if Contains(e) {
        assert SlotOk(slots, e.index, free, issued, generationLimit);
      }
    }

    ghost function Retired(): set<nat>
      reads this
    {
      RetiredIn(slots)
    }

    /** As long as taken and retired slots leave room, another handle can be issued. */
    lemma CanCreateMore()
      requires Valid() && |Live()| + |Retired()| < slotLimit
      ensures CanCreate()
    {
      if free == [] {
        NoneFree(slots, issued, generationLimit);
      }
    }

    /** A slot retires only after all its handles were issued. */
    lemma RetiringTakesLong()
      requires Valid()
      ensures |Retired()| * (generationLimit + 1) <= |issued|
    {
      RetiredUsedUp(slots, free, issued, generationLimit);
    }

    constructor (slotLimit: nat, generationLimit: nat, nowhere: L)
      requires slotLimit <= NULL_INDEX
      ensures Valid() && Live() == {} && issued == {}
      ensures this.slotLimit == slotLimit && this.generationLimit == generationLimit && this.nowhere == nowhere
    {
      slots, freeHead, size := [], NULL_INDEX, 0;
      this.slotLimit, this.generationLimit, this.nowhere := slotLimit, generationLimit, nowhere;
      free, issued := [], {};
    }

    ghost predicate CanCreate()
      reads this
    {
      freeHead != NULL_INDEX || |slots| < slotLimit
    }

    method Create() returns (e: Entity)
      requires Valid() && CanCreate()
      modifies this
      ensures Valid()
      ensures CreateStep(old(Observed()), Observed(), e)
      ensures e.Valid() && e !in old(issued) && e !in old(Live())
      ensures Live() == old(Live()) + {e} && issued == old(issued) + {e}
      ensures Retired() == old(Retired())
      ensures Contains(e)
      ensures forall x :: x in old(Live()) ==> Contains(x) && slots[x.index] == old(slots[x.index])
    {
      hide Consistent;
      hide FreeList;
      hide RetiredIn;
      FreeListHead(slots, freeHead, free, issued, generationLimit);
      ghost var slots0, free0 := slots, free;
      if freeHead != NULL_INDEX {
        var slot := slots[freeHead];
        e := Entity(freeHead, slot.generation);
        FreeListPop(slots, freeHead, free, slot.(occupied := true, nextFree := NULL_INDEX));
        slots := slots[freeHead := slot.(occupied := true, nextFree := NULL_INDEX)];
        freeHead := slot.nextFree;
        free := free[1..];
      } else {
        e := Entity(|slots|, 0);
        FreeListGrow(slots, freeHead, free, Slot(0, NULL_INDEX, nowhere, true, false));
        slots := slots + [Slot(0, NULL_INDEX, nowhere, true, false)];
      }
      size := size + 1;
      TakeSlot(slots0, slots, e, free0, free, issued, generationLimit);
      NoneRetired(slots0, slots, e.index);
      issued := issued + {e};
    }

    method Destroy(e: Entity) returns (ok: bool)
      requires Valid()
      modifies this
      ensures Valid() && issued == old(issued)
      ensures ok <==> e in old(Live())
      ensures Live() == old(Live()) - {e}
      ensures forall x :: x in Live() ==> slots[x.index] == old(slots[x.index])
      ensures !ok ==> slots == old(slots) && freeHead == old(freeHead)
    {
      hide Consistent;
      hide FreeList;
      ContainsIsLive(e);
      if Contains(e) {
        GenerationBound(slots, e, free, issued, generationLimit);
        ghost var slots0, free0 := slots, free;
        var slot := slots[e.index].(occupied := false, location := nowhere);
        if slot.generation == generationLimit {
          slot := slot.(retired := true, nextFree := NULL_INDEX);
        } else {
          slot := slot.(generation := slot.generation + 1, nextFree := freeHead);
          free := [e.index] + free;
        }
        LeaveSlot(slots, e, slot, free0, free, issued, generationLimit);
        if slot.retired {
          FreeListElsewhere(slots, freeHead, free0, e.index, slot);
        } else {
          FreeListPush(slots, freeHead, free0, e.index, slot);
          freeHead := e.index;
        }
        slots := slots[e.index := slot];
        size := size - 1;
        return true;
      }
      return false;
    }

    method SetLocation(e: Entity, location: L)
      requires Valid() && Contains(e)
      modifies this
      ensures Valid() && Live() == old(Live()) && issued == old(issued)
      ensures CanCreate() == old(CanCreate())
      ensures slots == old(slots[e.index := slots[e.index].(location := location)])
    {
      ghost var slots0 := slots;
      assert SlotOk(slots, e.index, free, issued, generationLimit);
      FreeListElsewhere(slots, freeHead, free, e.index, slots[e.index].(location := location));
      slots := slots[e.index := slots[e.index].(location := location)];
      RewriteConsistent(slots0, slots, e.index, free, free, issued, issued, generationLimit);
      assert LiveIn(slots, issued) == LiveIn(slots0, issued);
    }

    method Clear()
      requires Valid()
      modifies this
      ensures Valid() && Live() == {} && issued == old(issued)
    {
      hide Consistent;
      hide FreeList;
      hide Cleared;
      hide Vacated;
      hide LiveIn;
      ClearedNothing(slots, generationLimit, nowhere);
      ghost var slots0, free0 := slots, free;
      freeHead := NULL_INDEX;
      free := [];
      var index := 0;
      while index < |slots|
        invariant 0 <= index <= |slots| == |slots0|
        invariant Cleared(slots0, slots, index, free, generationLimit, nowhere)
        invariant FreeList(slots, freeHead, free)
        invariant issued == old(issued)
      {
        NotYetCleared(slots0, slots, index, free, generationLimit, nowhere);
        ClearSlot(index, slots0);
        index := index + 1;
      }
      size := 0;
      ClearedConsistent(slots0, slots, free0, free, issued, generationLimit, nowhere);
    }

    /** Ends the handle of one slot and links the slot in, unless it is retired. */
    method ClearSlot(index: nat, ghost slots0: seq<Slot<L>>)
      requires index < |slots| == |slots0| && slots[index] == slots0[index]
      requires Cleared(slots0, slots, index, free, generationLimit, nowhere) && FreeList(slots, freeHead, free)
      modifies this`slots, this`freeHead, this`free
      ensures |slots| == |slots0|
      ensures Cleared(slots0, slots, index + 1, free, generationLimit, nowhere) && FreeList(slots, freeHead, free)
    {
      hide FreeList;
      hide Cleared;
      var slot := slots[index];
      if slot.occupied {
        slot := slot.(occupied := false, location := nowhere);
        if slot.generation == generationLimit {
          slot := slot.(retired := true);
        } else {
          slot := slot.(generation := slot.generation + 1);
        }
      }
      slot := slot.(nextFree := NULL_INDEX);
      if slot.retired {
        ClearedRetired(slots0, slots, index, freeHead, free, generationLimit, nowhere, slot);
        slots := slots[index := slot];
      } else {
        slot := slot.(nextFree := freeHead);
        ClearedFree(slots0, slots, index, freeHead, free, generationLimit, nowhere, slot);
        freeHead := index;
        free := [index] + free;
        slots := slots[index := slot];
      }
    }
  }
}
