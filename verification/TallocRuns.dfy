/** Every run of talloc calls, whatever malloc answers, keeps the links as they should be
    (lib/talloc/talloc.c). */
module TallocRuns {
  import opened TallocHeap
  import opened TallocLinks
  import opened TallocSteps
  import opened TallocWalks
  import opened TallocAlloc
  import opened TallocSweep
  import opened TallocSweepSteps
  import opened TallocEffects
  import opened TallocZones
  import opened TallocFreeTheorems
  import opened TallocFreeCases
  import opened TallocForest
  import opened TallocUnlink
  import opened TallocRealloc

  /** A call, with what malloc answers when it is asked. */
  datatype Call =
    | CallTalloc(context: Ptr, size: nat, block: Ptr)
    | CallReference(context: Ptr, ptr: Ptr, block: Ptr)
    | CallSetDestructor(ptr: Ptr, refuses: bool)
    | CallSteal(context: Ptr, ptr: Ptr)
    | CallUnlink(context: Ptr, ptr: Ptr)
    | CallFree(ptr: Ptr)
    | CallFreeChildren(ptr: Ptr)
    | CallRealloc(context: Ptr, ptr: Ptr, size: nat, block: Ptr)

  /** A pointer that the allocator has handed out: not that of a reference handle. */
  ghost predicate Given(s: Heap, p: Ptr)
    requires Domains(s)
  {
    p in s.live && !IsHandle(s, p)
  }

  /** What the caller has to see to: arguments are NULL or have been handed out; a
      reference has a holder; the new owner is not owned by what it is to own; and the left
      neighbour of what is freed stays or will not be asked for. */
  ghost predicate Allowed(s: Heap, call: Call)
    requires Wf(s)
  {
    match call
    case CallTalloc(context, _, block) => (context == NULL || Given(s, context)) && block !in s.live
    case CallReference(context, ptr, block) =>
      Given(s, context) && (ptr == NULL || (Given(s, ptr) && !Reaches(s, ptr, context))) && block !in s.live
    case CallSetDestructor(ptr, _) => Given(s, ptr)
    case CallSteal(context, ptr) =>
      Given(s, ptr) && (context == NULL || (Given(s, context) && (context == ptr || !Reaches(s, ptr, context))))
    case CallUnlink(context, ptr) => ptr == NULL || (Given(s, ptr) && UnlinkOk(s, context, ptr))
    case CallFree(ptr) => ptr == NULL || (Given(s, ptr) && LeftOk(s, ptr))
    case CallFreeChildren(ptr) => ptr == NULL || Given(s, ptr)
    case CallRealloc(context, ptr, size, block) =>
      && (ptr == NULL ==> context == NULL || Given(s, context))
      && (ptr != NULL ==> Given(s, ptr) && (size == 0 ==> LeftOk(s, ptr)))
      && (block == ptr || block !in s.live)
  }

  /** What talloc_free(c) does to the heap. */
  ghost predicate FreeEffect(s: Heap, t: Heap, c: Ptr)
    requires Wf(s) && Wf(t) && c in s.live
  {
    if OwnRefsOnly(s, c) && !Refusing(s, c) then FreedExactly(s, t, c) else t == Dereferenced(s, c)
  }

  /** What a call does to the heap. */
  ghost predicate Effect(s: Heap, t: Heap, call: Call)
    requires Wf(s) && Wf(t) && Allowed(s, call)
  {
    match call
    case CallTalloc(context, size, block) =>
      t == if size >= MAX_TALLOC_SIZE || block == NULL then s else Allocated(s, block, context, size)
    case CallReference(context, ptr, block) => t == if ptr == NULL || block == NULL then s else Referenced(s, block, context, ptr)
    case CallSetDestructor(ptr, refuses) => t == s.(dtor := s.dtor[ptr := if refuses then Refuses else Accepts])
    case CallSteal(context, ptr) => t == Stolen(s, ptr, context)
    case CallUnlink(context, ptr) => if ptr == NULL then t == s else exists res :: UnlinkSpec(s, t, context, ptr, res)
    case CallFree(ptr) => if ptr == NULL then t == s else FreeEffect(s, t, ptr)
    case CallFreeChildren(ptr) => if ptr == NULL then t == s else EmptiedExactly(s, t, ptr)
    case CallRealloc(context, ptr, size, block) =>
      if size == 0 then if ptr == NULL then t == s else FreeEffect(s, t, ptr)
      else if size >= MAX_TALLOC_SIZE || block == NULL || (ptr != NULL && s.refs[ptr] != []) then t == s
      else if ptr == NULL then t == Allocated(s, block, context, size) else t == Renamed(s, ptr, block, size)
  }

  /** _talloc_set_destructor. */
  method SetDestructor(m: Memory, tc: Ptr, d: Destructor)
    requires m.Linked() && Good(m.heap) && Given(m.heap, tc) && d != ReleasesReference
    modifies m
    ensures m.Linked() && Good(m.heap) && m.heap == old(m.heap).(dtor := old(m.heap).dtor[tc := d])
  {
    ghost var s := m.heap;
    ghost var r: Ptr -> nat :| OwnersRanked(s, r, NULL);
    m.f, m.heap := m.f.(destructor := m.f.destructor[tc := d]), m.heap.(dtor := m.heap.dtor[tc := d]);
    DestructorSet(s, m.heap, tc, d, r);
  }

  lemma DestructorSet(s: Heap, t: Heap, c: Ptr, d: Destructor, r: Ptr -> nat)
    requires AtRest(s) && Held(s) && OwnersRanked(s, r, NULL) && Given(s, c) && d != ReleasesReference
    requires t == s.(dtor := s.dtor[c := d])
    ensures AtRest(t) && Held(t) && OwnersRanked(t, r, NULL)
  {
    assert forall x :: x in s.live ==> s.place[x] == InList && !s.loop[x];
    assert forall x :: x in s.live ==> Anchored(s, x);
  }

  /** What talloc_free leaves of a good heap when it answers -1. */
  lemma DereferencedGood(s: Heap, c: Ptr)
    requires Good(s) && Given(s, c)
    ensures Good(Dereferenced(s, c))
  {
    var r: Ptr -> nat :| OwnersRanked(s, r, NULL);
    if s.refs[c] != [] { DereferencedOnce(s, c, r); }
  }

  lemma GoodBut(s: Heap, c: Ptr)
    requires Good(s)
    ensures exists r: Ptr -> nat :: OwnersRanked(s, r, c)
  {
    var r: Ptr -> nat :| OwnersRanked(s, r, NULL);
    RankedBut(s, r, c);
  }

  // ---------- each call keeps a good heap good ----------

  method PerformTalloc(m: Memory, context: Ptr, size: nat, block: Ptr) returns (res: Ptr)
    requires m.Linked() && Good(m.heap) && Allowed(m.heap, CallTalloc(context, size, block))
    modifies m
    ensures m.Linked() && Good(m.heap)
    ensures m.heap == if size >= MAX_TALLOC_SIZE || block == NULL then old(m.heap) else Allocated(old(m.heap), block, context, size)
  {
    ghost var s := m.heap;
    res := Talloc(m, context, size, block);
    if res != NULL { AllocatedGood(s, res, context, size); }
  }

  method PerformReference(m: Memory, context: Ptr, ptr: Ptr, block: Ptr) returns (res: Ptr)
    requires m.Linked() && Good(m.heap) && Allowed(m.heap, CallReference(context, ptr, block))
    modifies m
    ensures m.Linked() && Good(m.heap)
    ensures m.heap == if ptr == NULL || block == NULL then old(m.heap) else Referenced(old(m.heap), block, context, ptr)
  {
    ghost var s := m.heap;
    res := Reference(m, context, ptr, block);
    if res != NULL { ReferenceKeeps(s, block, context, ptr); }
  }

  method PerformSteal(m: Memory, context: Ptr, ptr: Ptr)
    requires m.Linked() && Good(m.heap) && Allowed(m.heap, CallSteal(context, ptr))
    modifies m
    ensures m.Linked() && Good(m.heap) && m.heap == Stolen(old(m.heap), ptr, context)
  {
    assert m.heap.place[ptr] == InList;
    StealGoodIff(m.heap, ptr, context);
    Steal(m, context, ptr);
  }

  method PerformFree(m: Memory, ptr: Ptr) returns (res: int)
    requires m.Linked() && Good(m.heap) && Allowed(m.heap, CallFree(ptr))
    modifies m
    ensures m.Linked() && Good(m.heap)
    ensures if ptr == NULL then m.heap == old(m.heap) else FreeEffect(old(m.heap), m.heap, ptr)
  {
    if ptr != NULL { GoodBut(m.heap, ptr); DereferencedGood(m.heap, ptr); }
    res := FreePtr(m, ptr);
  }

  method PerformRealloc(m: Memory, context: Ptr, ptr: Ptr, size: nat, block: Ptr) returns (res: Ptr)
    requires m.Linked() && Good(m.heap) && Allowed(m.heap, CallRealloc(context, ptr, size, block))
    modifies m
    ensures m.Linked() && Good(m.heap) && Effect(old(m.heap), m.heap, CallRealloc(context, ptr, size, block))
  {
    ghost var s := m.heap;
    if ptr != NULL { GoodBut(s, ptr); DereferencedGood(s, ptr); }
    res := Realloc(m, context, ptr, size, block);
    if res != NULL {
      if ptr == NULL { AllocatedGood(s, res, context, size); } else { RenamedGood(s, ptr, res, size); }
    }
  }

  // ---------- what each call changes, field by field ----------

  /** What talloc_free leaves when it answers -1: some of the newest handles are gone, one at
      least if there is one, and nothing else has changed. */
  lemma {:induction false} DereferencedCuts(s: Heap, c: Ptr) returns (n: nat)
    requires Wf(s) && c in s.live && s.target[c] == NULL
    ensures HandlesGone(s, Dereferenced(s, c), c, n) && (s.refs[c] != [] ==> n > 0)
    decreases s.live
  {
    if s.refs[c] == [] {
      n := 0;
      NothingGone(s, c);
    } else {
      RefRowFacts(s, c, 0);
      var h := s.refs[c][0];
      var u := DropHandle(s, h);
      DropHandleIs(s, h);
      DropHandleGone(s, h);
      assert c in u.live && u.live < s.live by { assert h in s.live && h !in u.live; }
      var k := 0;
      if Contains(s, c, h) { k := DereferencedCuts(u, c); } else { NothingGone(u, c); }
      OneMoreGone(s, u, Dereferenced(s, c), c, h, k);
      n := k + 1;
    }
  }

  ghost predicate FreeChanges(s: Heap, t: Heap, c: Ptr)
    requires Domains(s) && Domains(t) && c in s.live
  {
    FreedExactly(s, t, c) || exists n: nat :: HandlesGone(s, t, c, n)
  }

  /** Nothing but the destructor of c has changed. */
  ghost predicate NewDestructor(s: Heap, t: Heap, c: Ptr, d: Destructor)
    requires Domains(s) && Domains(t)
  {
    && c in s.live && t.live == s.live && t.up == s.up && t.kids == s.kids && t.refs == s.refs && t.target == s.target
    && t.size == s.size && t.loop == s.loop && t.place == s.place && t.dtor[c] == d
    && forall x {:trigger t.dtor[x]} :: x in s.live && x != c ==> t.dtor[x] == s.dtor[x]
  }

  ghost predicate Changes(s: Heap, t: Heap, call: Call)
    requires Wf(s) && Wf(t) && Allowed(s, call)
  {
    match call
    case CallTalloc(context, size, block) =>
      if size >= 0x1000_0000 || block == NULL then t == s else NewChunk(s, t, block, context, size)
    case CallReference(context, ptr, block) =>
      if ptr == NULL || block == NULL then t == s else NewReference(s, t, block, context, ptr)
    case CallSetDestructor(ptr, refuses) => NewDestructor(s, t, ptr, if refuses then Refuses else Accepts)
    case CallSteal(context, ptr) => if context == ptr then t == s else MovedTo(s, t, ptr, context)
    case CallUnlink(context, ptr) => if ptr == NULL then t == s else exists res :: Unlinks(s, t, context, ptr, res)
    case CallFree(ptr) => if ptr == NULL then t == s else FreeChanges(s, t, ptr)
    case CallFreeChildren(ptr) => if ptr == NULL then t == s else EmptiedExactly(s, t, ptr)
    case CallRealloc(context, ptr, size, block) =>
      if size == 0 then if ptr == NULL then t == s else FreeChanges(s, t, ptr)
      else if size >= 0x1000_0000 || block == NULL || (ptr != NULL && s.refs[ptr] != []) then t == s
      else if ptr == NULL then NewChunk(s, t, block, context, size) else Relocated(s, t, ptr, block, size)
  }

  lemma FreeEffectChanges(s: Heap, t: Heap, c: Ptr)
    requires Wf(s) && Wf(t) && Given(s, c) && FreeEffect(s, t, c)
    ensures FreeChanges(s, t, c)
  {
    if t == Dereferenced(s, c) { var n := DereferencedCuts(s, c); }
  }

  /** Every call changes just these fields. */
  lemma EffectChanges(s: Heap, t: Heap, call: Call)
    requires Good(s) && Wf(t) && Allowed(s, call) && Effect(s, t, call)
    ensures Changes(s, t, call)
  {
    match call
    case CallTalloc(_, _, _) => NewChanges(s, t, call);
    case CallReference(_, _, _) => NewChanges(s, t, call);
    case CallSetDestructor(_, _) => NewChanges(s, t, call);
    case CallSteal(context, ptr) => StealChanges(s, t, context, ptr);
    case CallUnlink(context, ptr) => UnlinkChanges(s, t, context, ptr);
    case CallFree(ptr) => if ptr != NULL { FreeEffectChanges(s, t, ptr); }
    case CallFreeChildren(ptr) =>
    case CallRealloc(context, ptr, size, block) => ReallocChanges(s, t, context, ptr, size, block);
  }

  lemma NewChanges(s: Heap, t: Heap, call: Call)
    requires Wf(s) && Wf(t) && Allowed(s, call) && Effect(s, t, call)
    requires call.CallTalloc? || call.CallReference? || call.CallSetDestructor?
    ensures Changes(s, t, call)
  {
    match call
    case CallTalloc(context, size, block) =>
      if size < MAX_TALLOC_SIZE && block != NULL { AllocatedIsNew(s, block, context, size); }
    case CallReference(context, ptr, block) =>
      if ptr != NULL && block != NULL { ReferringIsNew(s, block, context, ptr); }
    case CallSetDestructor(ptr, refuses) =>
  }

  lemma StealChanges(s: Heap, t: Heap, context: Ptr, ptr: Ptr)
    requires Good(s) && Wf(t) && Allowed(s, CallSteal(context, ptr)) && Effect(s, t, CallSteal(context, ptr))
    ensures Changes(s, t, CallSteal(context, ptr))
  {
    assert s.place[ptr] == InList;
    if context != ptr { StolenMoves(s, ptr, context); }
  }

  lemma UnlinkChanges(s: Heap, t: Heap, context: Ptr, ptr: Ptr)
    requires Good(s) && Wf(t) && Allowed(s, CallUnlink(context, ptr)) && Effect(s, t, CallUnlink(context, ptr))
    ensures Changes(s, t, CallUnlink(context, ptr))
  {
    if ptr != NULL {
      var res :| UnlinkSpec(s, t, context, ptr, res);
      UnlinkFields(s, t, context, ptr, res);
    }
  }

  lemma ReallocChanges(s: Heap, t: Heap, context: Ptr, ptr: Ptr, size: nat, block: Ptr)
    requires Good(s) && Wf(t) && Allowed(s, CallRealloc(context, ptr, size, block))
    requires Effect(s, t, CallRealloc(context, ptr, size, block))
    ensures Changes(s, t, CallRealloc(context, ptr, size, block))
  {
    if size == 0 {
      if ptr != NULL { FreeEffectChanges(s, t, ptr); }
    } else if size < MAX_TALLOC_SIZE && block != NULL {
      if ptr == NULL {
        AllocatedIsNew(s, block, context, size);
      } else if s.refs[ptr] == [] {
        RenamedRelocates(s, ptr, block, size);
      }
    }
  }

  // ---------- runs ----------

  method Start() returns (m: Memory)
    ensures fresh(m) && m.Linked() && Good(m.heap) && m.heap.live == {}
  {
    m := new Memory();
    assert OwnersRanked(m.heap, x => 0, NULL);
  }

  /** One call, whichever it is, leaves a good heap good. */
  method Perform(m: Memory, call: Call) returns (res: int)
    requires m.Linked() && Good(m.heap) && Allowed(m.heap, call)
    modifies m
    ensures m.Linked() && Good(m.heap) && Effect(old(m.heap), m.heap, call)
    ensures Changes(old(m.heap), m.heap, call)
  {
    res := MakeCall(m, call);
    EffectChanges(old(m.heap), m.heap, call);
  }

  method MakeCall(m: Memory, call: Call) returns (res: int)
    requires m.Linked() && Good(m.heap) && Allowed(m.heap, call)
    modifies m
    ensures m.Linked() && Good(m.heap) && Effect(old(m.heap), m.heap, call)
  {
    res := 0;
    match call
    case CallTalloc(context, size, block) => res := PerformTalloc(m, context, size, block);
    case CallReference(context, ptr, block) => res := PerformReference(m, context, ptr, block);
    case CallSetDestructor(ptr, refuses) => SetDestructor(m, ptr, if refuses then Refuses else Accepts);
    case CallSteal(context, ptr) => PerformSteal(m, context, ptr);
    case CallUnlink(context, ptr) => res := Unlink(m, context, ptr);
    case CallFree(ptr) => res := PerformFree(m, ptr);
    case CallFreeChildren(ptr) => FreeChildrenPtr(m, ptr);
    case CallRealloc(context, ptr, size, block) => res := PerformRealloc(m, context, ptr, size, block);
  }

  /** Each of the calls is allowed in every heap to which those before it can lead. */
  ghost predicate AllowedAll(s: Heap, calls: seq<Call>)
    requires Good(s)
    decreases |calls|
  {
    calls != [] ==>
      && Allowed(s, calls[0])
      && forall t {:trigger Effect(s, t, calls[0])} :: Good(t) && Effect(s, t, calls[0]) ==> AllowedAll(t, calls[1..])
  }

  /** t is a heap to which the calls can lead from s, one after the other. */
  ghost predicate Leads(s: Heap, t: Heap, calls: seq<Call>)
    requires Good(s) && Good(t)
    decreases |calls|
  {
    if calls == [] then t == s
    else Allowed(s, calls[0]) && exists u :: Good(u) && Effect(s, u, calls[0]) && Leads(u, t, calls[1..])
  }

  /** Every run of allowed calls, of any length: after each call the links are as the forest
      and the references demand, and the owner graph has no cycle. */
  method PerformAll(m: Memory, calls: seq<Call>)
    requires m.Linked() && Good(m.heap) && AllowedAll(m.heap, calls)
    modifies m
    ensures m.Linked() && Good(m.heap) && Leads(old(m.heap), m.heap, calls)
    decreases |calls|
  {
    if calls != [] {
      ghost var s := m.heap;
      var res := Perform(m, calls[0]);
      ghost var u := m.heap;
      assert Effect(s, u, calls[0]);
      PerformAll(m, calls[1..]);
    }
  }
}
