/** Three readings of the theorem about talloc_free: heaps without references, referenced
    chunks, and talloc_free_children. */
module TallocFreeCases {
  import opened TallocHeap
  import opened TallocLinks
  import opened TallocWalks
  import opened TallocAlloc
  import opened TallocSweep
  import opened TallocSweepSteps
  import opened TallocZones
  import opened TallocFree
  import opened TallocFreeTheorems

  // ---------- without references ----------

  ghost predicate NoReferences(s: Heap)
    requires Domains(s)
  {
    forall c {:trigger s.refs[c]} {:trigger s.target[c]} :: c in s.live ==> s.refs[c] == [] && s.target[c] == NULL
  }

  /** x lies n > 0 levels below c, and neither x nor anything between refuses. */
  ghost predicate DoomedAt(s: Heap, c: Ptr, x: Ptr, n: nat)
    requires Domains(s)
  {
    n > 0 && AboveBy(s, x, n) == c
        && forall i: nat {:trigger AboveBy(s, x, i)} :: i < n ==> !Refusing(s, AboveBy(s, x, i))
  }

  ghost predicate Doomed(s: Heap, c: Ptr, x: Ptr)
    requires Domains(s)
  {
    exists n: nat :: DoomedAt(s, c, x, n)
  }

  lemma DoomedStep(s: Heap, c: Ptr, x: Ptr)
    requires AtRest(s) && c != NULL && x in s.live
    ensures Doomed(s, c, x) <==> !Refusing(s, x) && s.up[x] != NULL && (s.up[x] == c || Doomed(s, c, s.up[x]))
  {
    var o := s.up[x];
    assert s.place[x] == InList && Above(s, x) == o && AboveBy(s, x, 0) == x;
    if Doomed(s, c, x) {
      var n: nat :| DoomedAt(s, c, x, n);
      assert AboveBy(s, x, n) == AboveBy(s, o, n - 1);
      assert !Refusing(s, AboveBy(s, x, 0));
      if o == NULL { NothingAboveNull(s, c); }
      if n > 1 {
        forall i: nat | i < n - 1 ensures !Refusing(s, AboveBy(s, o, i)) {
          assert AboveBy(s, x, i + 1) == AboveBy(s, o, i);
        }
        assert DoomedAt(s, c, o, n - 1);
      }
    }
    if !Refusing(s, x) && o != NULL {
      if o == c {
        assert AboveBy(s, x, 1) == AboveBy(s, o, 0);
        assert DoomedAt(s, c, x, 1);
      } else if Doomed(s, c, o) {
        var n: nat :| DoomedAt(s, c, o, n);
        forall i: nat | i < n + 1 ensures !Refusing(s, AboveBy(s, x, i)) {
          if i > 0 { assert AboveBy(s, x, i) == AboveBy(s, o, i - 1); }
        }
        assert AboveBy(s, x, n + 1) == AboveBy(s, o, n);
        assert DoomedAt(s, c, x, n + 1);
      }
    }
  }

  /** Without references a free of c removes, besides c, exactly the chunks below c with no
      refusing chunk at or above them below c. */
  lemma {:induction false} SurvivesWithoutReferences(s: Heap, c: Ptr, r: Ptr -> nat, x: Ptr)
    requires AtRest(s) && NoReferences(s) && Climbs(s, r) && c in s.live && x in s.live
    ensures Survives(s, c, x) <==> x != c && !Doomed(s, c, x)
    decreases r(x)
  {
    var o := s.up[x];
    assert s.target[x] == NULL && s.refs[x] == [];
    assert Anchored(s, x) && s.place[x] == InList && Above(s, x) == o;
    DoomedStep(s, c, x);
    if o != NULL { SurvivesWithoutReferences(s, c, r, o); }
    if x != c && !Doomed(s, c, x) {
      if Refusing(s, x) || o == NULL { StandingSurvives(s, c, x); } else { OwnedSurvives(s, c, o, x); }
    }
    if Survives(s, c, x) {
      SurvivorOwner(s, c, x);
      if !Stands(s, c, x) {
        var b :| Survives(s, c, b) && Owns(s, b, x);
        SurvivorOwner(s, c, b);
      }
    }
  }

  /** Without references, after c has been freed: every surviving chunk whose parent survives
      keeps that parent, and if it is not the former parent of c also its children; every
      refusing chunk whose parent is gone is now a child of the former parent of c. */
  lemma WhereSurvivorsAre(s: Heap, t: Heap, c: Ptr, r: Ptr -> nat, x: Ptr)
    requires AtRest(s) && NoReferences(s) && Climbs(s, r) && c in s.live && Wf(t) && FreedExactly(s, t, c)
    requires x in s.live && x != c && !Doomed(s, c, x)
    ensures x in t.live && t.dtor[x] == s.dtor[x]
    ensures s.up[x] == NULL || (s.up[x] != c && !Doomed(s, c, s.up[x])) ==> t.up[x] == s.up[x]
    ensures s.up[x] != NULL && (s.up[x] == c || Doomed(s, c, s.up[x])) ==> Refusing(s, x) && t.up[x] == s.up[c]
    ensures x != s.up[c] ==> t.kids[x] == s.kids[x]
  {
    var keep, o := Survivors(s, c), s.up[x];
    SurvivesWithoutReferences(s, c, r, x);
    DoomedStep(s, c, x);
    assert s.target[x] == NULL && s.refs[x] == [];
    assert x in keep && Conserves(s, t, x, keep, s.up[c]);
    if o != NULL {
      SurvivesWithoutReferences(s, c, r, o);
      if t.up[x] != NULL && t.up[x] !in keep {
        ParentSurvives(s, t, c, r, x);
      }
    }
    assert !HoldsReference(s, x);
    assert t.dtor[x] == s.dtor[x];
  }

  lemma ParentSurvives(s: Heap, t: Heap, c: Ptr, r: Ptr -> nat, x: Ptr)
    requires AtRest(s) && NoReferences(s) && Wf(t) && c in s.live && FreedExactly(s, t, c) && x in t.live
             && t.up[x] != NULL
    ensures t.up[x] in Survivors(s, c)
  {
    var o := t.up[x];
    assert o in t.live && s.target[o] == NULL;
  }

  // ---------- counting down references ----------

  /** When the whole owner graph has no cycle, each free of a referenced chunk answers -1 and
      takes away the newest reference and nothing else. */
  lemma CountDown(s: Heap, t: Heap, c: Ptr, r: Ptr -> nat, res: int)
    requires AtRest(s) && Held(s) && OwnersRanked(s, r, NULL) && c in s.live && s.target[c] == NULL && s.refs[c] != []
    requires if OwnRefsOnly(s, c) && !Refusing(s, c) then res == 0 && Wf(t) && FreedExactly(s, t, c) else res == -1 && t == Dereferenced(s, c)
    ensures res == -1 && Wf(t) && c in t.live && t.refs[c] == s.refs[c][1..] && t.live == s.live - {s.refs[c][0]}
    ensures t.up[c] == s.up[c] && t.dtor[c] == s.dtor[c]
    ensures forall x :: x in t.live && x != c ==> t.refs[x] == s.refs[x] && t.up[x] == s.up[x]
    ensures forall x :: x in t.live && x != s.up[s.refs[c][0]] ==> t.kids[x] == s.kids[x]
    ensures AtRest(t) && Held(t) && OwnersRanked(t, r, NULL)
  {
    RefRowFacts(s, c, 0);
    var h := s.refs[c][0];
    RestSound(s, NULL, r);
    NotInside(s, r, c, h);
    DropHandleIs(s, h);
    WithoutHead(s.refs[c]);
    DropSound(s, h, r, NULL);
    forall x | x in t.live ensures t.place[x] == InList && !t.loop[x] {
      assert s.place[x] == InList && !s.loop[x];
    }
  }

  /** The heap after n calls talloc_free(c) that were answered -1 for c's references. */
  ghost function AfterFrees(s: Heap, c: Ptr, n: nat): Heap
    requires Wf(s) && c in s.live
    decreases n
  {
    if n == 0 then s else AfterFrees(Dereferenced(s, c), c, n - 1)
  }

  ghost function Elements(q: seq<Ptr>): set<Ptr> {
    set h | h in q
  }

  lemma ElementsStep(q: seq<Ptr>, n: nat)
    requires 0 < n <= |q|
    ensures q[1..][n - 1..] == q[n..] && Elements(q[..n]) == {q[0]} + Elements(q[1..][..n - 1])
  {
    assert q[..n] == [q[0]] + q[1..][..n - 1];
  }

  /** A chunk with k references answers -1 to the first k calls, which remove its references
      from the newest to the oldest, and only the next call can free it. */
  lemma {:induction false} CountDownAll(s: Heap, c: Ptr, r: Ptr -> nat, n: nat)
    requires AtRest(s) && Held(s) && OwnersRanked(s, r, NULL) && c in s.live && s.target[c] == NULL && n <= |s.refs[c]|
    ensures var t := AfterFrees(s, c, n);
            && AtRest(t) && Held(t) && OwnersRanked(t, r, NULL) && c in t.live && t.target[c] == NULL
            && t.refs[c] == s.refs[c][n..] && t.live == s.live - Elements(s.refs[c][..n])
            && t.up[c] == s.up[c] && t.dtor[c] == s.dtor[c]
            && (OwnRefsOnly(t, c) <==> n == |s.refs[c]|)
    decreases n
  {
    if n == 0 {
      OutsideRefs(s, c, r);
    } else {
      var t := Dereferenced(s, c);
      DereferencedOnce(s, c, r);
      CountDownAll(t, c, r, n - 1);
      ElementsStep(s.refs[c], n);
    }
  }

  /** Without a cycle of owners no reference to c is held by c or from below. */
  lemma OutsideRefs(s: Heap, c: Ptr, r: Ptr -> nat)
    requires AtRest(s) && Held(s) && OwnersRanked(s, r, NULL) && c in s.live && s.target[c] == NULL
    ensures OwnRefsOnly(s, c) <==> s.refs[c] == []
  {
    if s.refs[c] != [] {
      RefRowFacts(s, c, 0);
      RestSound(s, NULL, r);
      NotInside(s, r, c, s.refs[c][0]);
    }
  }

  lemma DereferencedOnce(s: Heap, c: Ptr, r: Ptr -> nat)
    requires AtRest(s) && Held(s) && OwnersRanked(s, r, NULL) && c in s.live && s.target[c] == NULL && s.refs[c] != []
    ensures var t := Dereferenced(s, c);
            && AtRest(t) && Held(t) && OwnersRanked(t, r, NULL) && c in t.live && t.target[c] == NULL
            && t.refs[c] == s.refs[c][1..] && t.live == s.live - {s.refs[c][0]} && t.up[c] == s.up[c]
            && t.dtor[c] == s.dtor[c]
  {
    RefRowFacts(s, c, 0);
    RestSound(s, NULL, r);
    NotInside(s, r, c, s.refs[c][0]);
    CountDown(s, Dereferenced(s, c), c, r, -1);
    DropHandleIs(s, s.refs[c][0]);
  }

  // ---------- talloc_free_children ----------

  /** The children of c are gone or have been moved away, c stays where it is, and of the
      other ordinary chunks exactly the survivors are left. */
  ghost predicate EmptiedExactly(s: Heap, t: Heap, c: Ptr)
    requires Domains(s) && Domains(t) && c in s.live
  {
    && c in t.live && t.kids[c] == [] && t.up[c] == s.up[c]
    && Shrunk(s, t)
    && (forall x :: x in s.live && x != c && s.target[x] == NULL ==> (x in t.live <==> Survives(s, c, x)))
    && Conserved(s, t, Survivors(s, c), s.up[c])
  }

  lemma EmptiedIsExact(s: Heap, t: Heap, c: Ptr, r: Ptr -> nat)
    requires AtRest(s) && Held(s) && OwnersRanked(s, r, NULL) && c in s.live && s.target[c] == NULL && Wf(t)
    requires Emptied(s, t, c, r, Survivors(s, c)) || (s.kids[c] == [] && t == s)
    ensures EmptiedExactly(s, t, c) && AtRest(t) && Held(t) && OwnersRanked(t, r, NULL)
  {
    var via := {s.up[c]};
    SurvivorsSupported(s, c);
    assert s.place[c] == InList && Anchored(s, c) && Above(s, c) == s.up[c];
    if s.kids[c] == [] && t == s { SweptSelf(s, r, r(c), Survivors(s, c), s.up[c], via); }
    forall x | x in s.live && x != c && s.target[x] == NULL ensures x in t.live <==> Survives(s, c, x) {
      if x in t.live { LeftSurvives(s, t, c, r, via, x); }
      if Survives(s, c, x) { assert x in Survivors(s, c); }
    }
    RestAfter(s, t, c, r, via);
  }

  method FreeChildrenPtr(m: Memory, ptr: Ptr)
    requires m.Linked() && AtRest(m.heap) && Held(m.heap)
    requires ptr != NULL ==> ptr in m.heap.live && !IsHandle(m.heap, ptr)
    requires exists r: Ptr -> nat :: OwnersRanked(m.heap, r, NULL)
    modifies m
    ensures m.Linked() && AtRest(m.heap) && Held(m.heap)
    ensures exists r: Ptr -> nat :: OwnersRanked(m.heap, r, NULL)
    ensures if ptr == NULL then m.heap == old(m.heap) else EmptiedExactly(old(m.heap), m.heap, ptr)
  {
    ghost var s := m.heap;
    ghost var r: Ptr -> nat :| OwnersRanked(s, r, NULL);
    if ptr == NULL {
      return;
    }
    RestSound(s, NULL, r);
    SurvivorsSupported(s, ptr);
    ZoneStart(s, ptr);
    FreeChildren(m, ptr, r, Survivors(s, ptr), Below(s, ptr));
    EmptiedIsExact(s, m.heap, ptr, r);
  }
}
