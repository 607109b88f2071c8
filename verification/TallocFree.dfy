/** talloc_free and talloc_free_children of lib/talloc/talloc.c. */
module TallocFree {
  import opened Hiding
  import opened TallocHeap
  import opened TallocLists
  import opened TallocLinks
  import opened TallocSteps
  import opened TallocWalks
  import opened TallocAlloc
  import opened TallocSweep
  import opened TallocSweepSteps
  import opened TallocFreeSteps
  import opened TallocZones

  // ---------- what a free does ----------

  /** t is s after the unreferenced chunk c has been freed: c is gone, and the rest of the
      heap has been swept, where only the former parent of c adopts refusing chunks. */
  ghost predicate Freed(s: Heap, t: Heap, c: Ptr, r: Ptr -> nat, keep: set<Ptr>)
    requires Domains(s) && Domains(t) && c in s.live
  {
    c !in t.live && Swept(s, t, r, r(c), c, keep, s.up[c], {s.up[c]})
  }

  /** t is s after the children of c have been freed. */
  ghost predicate Emptied(s: Heap, t: Heap, c: Ptr, r: Ptr -> nat, keep: set<Ptr>)
    requires Domains(s) && Domains(t) && c in s.live
  {
    c in t.live && t.kids[c] == [] && Swept(s, t, r, r(c), NULL, keep, Above(s, c), {Above(s, c)})
  }

  /** What talloc_free(c) answers and leaves.  A referenced chunk loses its newest
      reference; if that was held by c itself or below c the free starts again, and
      otherwise it answers -1. */
  ghost predicate FreeSpec(s: Heap, t: Heap, c: Ptr, r: Ptr -> nat, keep: set<Ptr>, res: int)
    requires Wf(s) && Wf(t) && c in s.live
    decreases s.live
  {
    if s.refs[c] != [] then
      RefRowFacts(s, c, 0);
      var h := s.refs[c][0];
      DropHandleIs(s, h);
      var u := DropHandle(s, h);
      assert u.live < s.live by { assert h in s.live && h !in u.live; }
      if Contains(s, c, h) then FreeSpec(u, t, c, r, keep, res) else res == -1 && t == u
    else if s.loop[c] then res == 0 && t == s
    else if Refusing(s, c) then res == -1 && t == s
    else res == 0 && if IsHandle(s, c) then t == DropHandle(s, c) else Freed(s, t, c, r, keep)
  }

  // ---------- conditions ----------

  /** No chunk that is being freed ranks above c or stood right behind c. */
  ghost predicate Inner(s: Heap, r: Ptr -> nat, c: Ptr)
    requires Domains(s)
  {
    forall d {:trigger s.place[d]} :: d in s.live && s.place[d].Unlinked? ==> r(d) < r(c) && s.place[d].prev != c
  }

  /** What holds between the steps of a free. */
  ghost predicate Sound(s: Heap, r: Ptr -> nat, but: Ptr) {
    Wf(s) && Settled(s) && Held(s) && OwnersRanked(s, r, but)
  }

  /** What talloc_free(c) needs.  A chunk that is to be kept must refuse, or be referenced
      in a heap whose whole owner graph is ranked. */
  ghost predicate CanFree(s: Heap, c: Ptr, r: Ptr -> nat, keep: set<Ptr>, zone: set<Ptr>) {
    && Wf(s) && Settled(s) && c in s.live
    && (IsHandle(s, c) ==> c in zone || s.target[c] in zone)
    && (!IsHandle(s, c) ==>
          && Sound(s, r, c) && Supported(s, keep) && c in zone && ZoneOk(s, zone)
          && (!s.loop[c] ==> Inner(s, r, c) && LeftIn(s, c, zone))
          && (c in keep ==> Refusing(s, c) || (s.refs[c] != [] && OwnersRanked(s, r, NULL))))
  }

  // ---------- before the loop ----------

  lemma OpenedRanked(s: Heap, c: Ptr, r: Ptr -> nat, x: Ptr)
    requires Sound(s, r, c) && c in s.live && !IsHandle(s, c) && s.place[c] == InList && Inner(s, r, c) && x in s.live
    ensures var t := Opened(s, c);
            && x in t.live && (Anchored(t, x) || Adrift(t, x))
            && (Above(t, x) != NULL ==> Above(t, x) in t.live && r(Above(t, x)) < r(x))
  {
    var t := Opened(s, c);
    OpenedIs(s, c);
    OpenedAbove(s, c);
    assert x in t.live;
    assert (Anchored(s, x) || Adrift(s, x)) && (Above(s, x) != NULL ==> r(Above(s, x)) < r(x));
    assert s.place[x] == s.place[x];
    if x == c {
      assert Above(s, c) == s.up[c];
    } else if s.place[x].Unlinked? && s.place[x].prev != NULL && s.place[x].prev in s.live {
      assert s.place[x].prev in t.live;
    } else {
      assert t.place[x] == s.place[x];
    }
  }

  lemma OpenedSound(s: Heap, c: Ptr, r: Ptr -> nat)
    requires Sound(s, r, c) && c in s.live && !IsHandle(s, c) && s.refs[c] == [] && !s.loop[c]
    requires Inner(s, r, c)
    ensures Sound(Opened(s, c), r, NULL) && DyingBelow(Opened(s, c), r, r(c))
  {
    var t := Opened(s, c);
    OpenedIs(s, c);
    assert s.place[c] == InList by { assert s.loop[c] == false; }
    OpenedAbove(s, c);
    forall x | x in t.live
      ensures (Anchored(t, x) || Adrift(t, x))
              && (Above(t, x) != NULL ==> Above(t, x) in t.live && r(Above(t, x)) < r(x))
    {
      OpenedRanked(s, c, r, x);
    }
    forall h | h in t.live && t.target[h] != NULL ensures t.up[h] != NULL && r(t.up[h]) < r(t.target[h]) {
      assert t.target[h] == s.target[h];
      assert h in s.refs[s.target[h]];
    }
    forall d | d in t.live ensures (t.place[d].Unlinked? <==> t.loop[d]) && (t.loop[d] ==> t.refs[d] == [] && t.target[d] == NULL) {
      assert s.place[d].Unlinked? <==> s.loop[d];
    }
    forall d | d in t.live && t.place[d].Unlinked? ensures r(d) <= r(c) {
      assert d == c || s.place[d].Unlinked?;
    }
  }

  lemma OpenedSupported(s: Heap, c: Ptr, keep: set<Ptr>)
    requires Wf(s) && c in s.live && !IsHandle(s, c) && c !in keep && Supported(s, keep)
    ensures Supported(Opened(s, c), keep)
  {
    var t := Opened(s, c);
    OpenedIs(s, c);
    forall k | k in keep
      ensures k in t.live && t.target[k] == NULL
              && (t.up[k] == NULL || t.up[k] in keep || Refusing(t, k) || Kept(t, t.refs[k], keep) != [])
    {
      KeptOpened(s, c, k, keep);
    }
  }

  lemma KeptOpened(s: Heap, c: Ptr, k: Ptr, keep: set<Ptr>)
    requires Wf(s) && c in s.live && !IsHandle(s, c) && k in s.live
    ensures Kept(Opened(s, c), s.refs[k], keep) == Kept(s, s.refs[k], keep)
  {
    var t := Opened(s, c);
    OpenedIs(s, c);
    forall h | h in s.refs[k] ensures h in s.live && h in t.live && t.up[h] == s.up[h] {
      assert s.target[h] == k;
      assert h in t.live;
    }
    KeptFrame(s, t, s.refs[k], keep);
  }

  // ---------- after the loop ----------

  lemma ClosedShrunk(s: Heap, a: Heap, c: Ptr)
    requires Wf(s) && c in s.live && !IsHandle(s, c) && Wf(a) && Domains(Opened(s, c)) && Shrunk(Opened(s, c), a)
    ensures var t := Removed(a, c); Domains(t) && Shrunk(s, t)
  {
    var o, t := Opened(s, c), Removed(a, c);
    OpenedIs(s, c);
    forall x | x in t.live
      ensures t.target[x] == s.target[x] && t.dtor[x] == s.dtor[x] && t.size[x] == s.size[x]
              && t.loop[x] == s.loop[x] && t.place[x] == s.place[x]
    {
      assert x in o.live && a.target[x] == o.target[x];
    }
  }

  lemma ClosedOwner(s: Heap, a: Heap, c: Ptr, r: Ptr -> nat, via: set<Ptr>, x: Ptr)
    requires Wf(s) && c in s.live && !IsHandle(s, c) && Wf(a) && Wf(Opened(s, c)) && x in a.live && x != c
    requires Shrunk(Opened(s, c), a) && OwnersFrom(Opened(s, c), a, r, via)
    ensures x in s.live && (a.up[x] == s.up[x] || Holds(s, a.up[x], x) || (Refusing(s, x) && a.up[x] in via && (a.up[x] != NULL ==> r(a.up[x]) < r(x))))
    ensures s.target[x] != NULL ==> a.up[x] == s.up[x]
  {
    var o := Opened(s, c);
    OpenedIs(s, c);
    var y := a.up[x];
    assert x in o.live && o.up[x] == s.up[x] && o.dtor[x] == s.dtor[x];
    if Holds(o, y, x) {
      var h :| h in o.refs[x] && h in o.live && o.up[h] == y;
      assert o.target[h] == x;
      assert h in s.refs[x] && s.up[h] == y;
    }
  }

  lemma ClosedOwners(s: Heap, a: Heap, c: Ptr, r: Ptr -> nat, via: set<Ptr>)
    requires Wf(s) && c in s.live && !IsHandle(s, c) && Wf(a) && Wf(Opened(s, c))
    requires Shrunk(Opened(s, c), a) && OwnersFrom(Opened(s, c), a, r, via)
    ensures var t := Removed(a, c); Domains(t) && Shrunk(s, t) && OwnersFrom(s, t, r, via)
  {
    var t := Removed(a, c);
    ClosedShrunk(s, a, c);
    forall x | x in t.live
      ensures x in s.live
              && (t.up[x] == s.up[x] || Holds(s, t.up[x], x) || (Refusing(s, x) && t.up[x] in via && (t.up[x] != NULL ==> r(t.up[x]) < r(x))))
              && (s.target[x] != NULL ==> t.up[x] == s.up[x])
    {
      assert x in a.live && t.up[x] == a.up[x];
      ClosedOwner(s, a, c, r, via, x);
    }
    forall x, h | x in t.live && h in t.refs[x] ensures x in s.live && h in s.refs[x] {
      assert h in a.refs[x];
      assert h in Opened(s, c).refs[x];
    }
  }

  /** The same owners in s and o, and in t and a. */
  lemma {:induction false} ConservesSame(s: Heap, o: Heap, a: Heap, t: Heap, k: Ptr, keep: set<Ptr>, sink: Ptr)
    requires Domains(s) && Domains(o) && Domains(a) && Domains(t) && k in s.live && k in o.live && k in a.live
             && k in t.live
    requires s.up[k] == o.up[k] && t.up[k] == a.up[k]
    requires Kept(s, s.refs[k], keep) == Kept(o, o.refs[k], keep)
             && Kept(t, t.refs[k], keep) == Kept(a, a.refs[k], keep)
    requires var A := Kept(s, s.refs[k], keep); A != [] ==> var h := A[0]; h in s.live && h in o.live && s.up[h] == o.up[h]
    requires Conserves(o, a, k, keep, sink)
    ensures Conserves(s, t, k, keep, sink)
  {
  }

  lemma ClosedKept(s: Heap, a: Heap, c: Ptr, k: Ptr, keep: set<Ptr>)
    requires Wf(s) && c in s.live && !IsHandle(s, c) && Wf(a) && c in a.live && a.target[c] == NULL && k != c
             && k in s.live && k in a.live
    ensures var o, t := Opened(s, c), Removed(a, c);
            && Domains(o) && Domains(t) && k in o.live && k in t.live && s.up[k] == o.up[k] && t.up[k] == a.up[k]
            && Kept(s, s.refs[k], keep) == Kept(o, o.refs[k], keep)
            && Kept(t, t.refs[k], keep) == Kept(a, a.refs[k], keep)
            && var A := Kept(s, s.refs[k], keep); A != [] ==> var h := A[0]; h in s.live && h in o.live && s.up[h] == o.up[h]
  {
    var o, t := Opened(s, c), Removed(a, c);
    OpenedIs(s, c);
    KeptOpened(s, c, k, keep);
    forall h | h in a.refs[k] ensures h in a.live && h in t.live && t.up[h] == a.up[h] {
      assert a.target[h] == k;
    }
    KeptFrame(a, t, a.refs[k], keep);
    var A := Kept(s, s.refs[k], keep);
    if A != [] { var h := A[0]; assert h in A; assert s.target[h] == k; assert o.up[h] == s.up[h]; }
  }

  lemma ClosedConserved(s: Heap, a: Heap, c: Ptr, keep: set<Ptr>, sink: Ptr)
    requires Wf(s) && c in s.live && !IsHandle(s, c) && Wf(a) && a.live <= s.live && c !in keep
    requires Supported(s, keep) && Domains(Opened(s, c)) && Conserved(Opened(s, c), a, keep, sink) && c in a.live
             && a.target[c] == NULL
    ensures var t := Removed(a, c); Domains(t) && Conserved(s, t, keep, sink)
  {
    forall k | k in keep ensures k in s.live && k in Removed(a, c).live && Conserves(s, Removed(a, c), k, keep, sink) {
      assert k in a.live && Conserves(Opened(s, c), a, k, keep, sink);
      ClosedKept(s, a, c, k, keep);
      ConservesSame(s, Opened(s, c), a, Removed(a, c), k, keep, sink);
    }
  }

  lemma ClosedUntouched(s: Heap, a: Heap, c: Ptr, r: Ptr -> nat)
    requires Wf(s) && c in s.live && !IsHandle(s, c) && Wf(a) && Wf(Opened(s, c))
             && Untouched(Opened(s, c), a, r, r(c), NULL)
    ensures Domains(Removed(a, c)) && Untouched(s, Removed(a, c), r, r(c), c)
  {
    var o, t := Opened(s, c), Removed(a, c);
    OpenedIs(s, c);
    forall x | x in s.live && x != c && s.target[x] == NULL && (s.up[x] == NULL || r(s.up[x]) < r(c))
      ensures x in t.live && t.up[x] == s.up[x]
    {
      assert x in o.live && o.up[x] == s.up[x] && o.target[x] == s.target[x];
    }
  }

  lemma ClosedKids(s: Heap, a: Heap, c: Ptr, keep: set<Ptr>)
    requires Wf(s) && c in s.live && !IsHandle(s, c) && Wf(a) && Wf(Opened(s, c)) && c !in keep
    requires KidsKept(Opened(s, c), a, keep, {s.up[c]})
    ensures Domains(Removed(a, c)) && KidsKept(s, Removed(a, c), keep, {s.up[c]})
  {
    var o, t := Opened(s, c), Removed(a, c);
    OpenedIs(s, c);
    forall k | k in keep && k !in {s.up[c]} && k in s.live && k in t.live && !HoldsReference(s, k)
        ensures t.kids[k] == s.kids[k] {
      assert o.kids[k] == s.kids[k];
      assert !HoldsReference(o, k);
      assert a.kids[k] == o.kids[k];
    }
  }

  lemma Closed(s: Heap, a: Heap, c: Ptr, r: Ptr -> nat, keep: set<Ptr>)
    requires Wf(s) && c in s.live && !IsHandle(s, c) && Supported(s, keep) && c !in keep
    requires Wf(a) && c in a.live && a.target[c] == NULL && Wf(Opened(s, c)) && Opened(s, c).live == s.live
    requires Swept(Opened(s, c), a, r, r(c), NULL, keep, s.up[c], {s.up[c]})
    ensures Domains(Removed(a, c)) && Freed(s, Removed(a, c), c, r, keep)
  {
    ClosedOwners(s, a, c, r, {s.up[c]});
    ClosedConserved(s, a, c, keep, s.up[c]);
    ClosedUntouched(s, a, c, r);
    ClosedKids(s, a, c, keep);
  }

  // ---------- the first step: references ----------

  /** Nothing below c holds a reference to c when the whole owner graph is ranked. */
  lemma NotInside(s: Heap, r: Ptr -> nat, c: Ptr, h: Ptr)
    requires Sound(s, r, NULL) && c in s.live && h in s.live && s.target[h] == c
    ensures !Contains(s, c, h)
  {
    assert s.place[h] == InList;
    assert h in s.refs[c] && c != h;
    forall n: nat ensures AboveBy(s, h, n) != c {
      if n > 0 { AboveRank(s, r, s.up[h], n - 1); }
    }
  }

  lemma {:induction false} AboveRank(s: Heap, r: Ptr -> nat, c: Ptr, n: nat)
    requires Wf(s) && Climbs(s, r) && c in s.live
    ensures AboveBy(s, c, n) in s.live ==> r(AboveBy(s, c, n)) <= r(c)
    decreases n
  {
    if n > 0 {
      var p := Above(s, c);
      if p in s.live { AboveRank(s, r, p, n - 1); }
    }
  }

  lemma KeptDrop(s: Heap, h: Ptr, k: Ptr, keep: set<Ptr>)
    requires Wf(s) && IsHandle(s, h) && k in s.live && k != h && s.target[h] != k
    ensures Kept(DropHandle(s, h), DropHandle(s, h).refs[k], keep) == Kept(s, s.refs[k], keep)
  {
    var u := DropHandle(s, h);
    DropHandleIs(s, h);
    assert k in u.live;
    forall g | g in s.refs[k] ensures g in s.live && g in u.live && u.up[g] == s.up[g] {
      assert s.target[g] == k;
      assert g in u.live;
    }
    KeptFrame(s, u, s.refs[k], keep);
  }

  /** Every chunk to be kept but c stays supported when a reference to c is gone. */
  lemma DropSupported(s: Heap, c: Ptr, h: Ptr, keep: set<Ptr>)
    requires Wf(s) && IsHandle(s, h) && s.target[h] == c && Supported(s, keep) && (c in keep ==> Refusing(s, c))
    ensures Wf(DropHandle(s, h)) && Supported(DropHandle(s, h), keep)
  {
    var u := DropHandle(s, h);
    DropHandleIs(s, h);
    forall k | k in keep
      ensures k in u.live && u.target[k] == NULL
              && (u.up[k] == NULL || u.up[k] in keep || Refusing(u, k) || Kept(u, u.refs[k], keep) != [])
    {
      assert k in u.live;
      if k != c { KeptDrop(s, h, k, keep); }
    }
  }

  lemma DropInner(s: Heap, c: Ptr, h: Ptr, r: Ptr -> nat)
    requires Wf(s) && IsHandle(s, h) && Inner(s, r, c)
    ensures Wf(DropHandle(s, h)) && Inner(DropHandle(s, h), r, c)
  {
    DropHandleIs(s, h);
    forall d | d in DropHandle(s, h).live ensures DropHandle(s, h).place[d] == s.place[d] {
    }
  }

  /** The loop between a chunk and a reference held below it can be cut and tried again. */
  lemma DropCanFree(s: Heap, c: Ptr, h: Ptr, r: Ptr -> nat, keep: set<Ptr>, zone: set<Ptr>)
    requires CanFree(s, c, r, keep, zone) && !IsHandle(s, c) && s.refs[c] != [] && h == s.refs[c][0]
             && Contains(s, c, h)
    ensures IsHandle(s, h) && CanFree(DropHandle(s, h), c, r, keep, zone)
  {
    RefRowFacts(s, c, 0);
    if OwnersRanked(s, r, NULL) { NotInside(s, r, c, h); }
    DropSound(s, h, r, c);
    DropSupported(s, c, h, keep);
    DropZone(s, h, zone);
    if !s.loop[c] {
      DropInner(s, c, h, r);
      DropLeftIn(s, c, h, r, zone);
    }
    DropHandleIs(s, h);
    assert c in DropHandle(s, h).live;
  }

  lemma DropAbove(s: Heap, h: Ptr, r: Ptr -> nat, but: Ptr, x: Ptr)
    requires Sound(s, r, but) && IsHandle(s, h) && x in DropHandle(s, h).live
    ensures var u := DropHandle(s, h);
            Wf(u) && (Anchored(u, x) || Adrift(u, x))
                && (Above(u, x) != NULL ==> Above(u, x) in u.live && r(Above(u, x)) < r(x))
  {
    var u := DropHandle(s, h);
    DropHandleIs(s, h);
    assert (Anchored(s, x) || Adrift(s, x)) && u.place[x] == s.place[x];
    assert Above(s, x) != NULL ==> r(Above(s, x)) < r(x);
    if s.place[x].Unlinked? && s.place[x].prev != NULL && s.place[x].prev in u.live {
      assert s.place[x].prev in s.live;
    }
  }

  lemma DropSettled(s: Heap, h: Ptr)
    requires Wf(s) && Settled(s) && Held(s) && IsHandle(s, h)
    ensures var u := DropHandle(s, h); Wf(u) && Settled(u) && Held(u)
  {
    var u := DropHandle(s, h);
    DropHandleIs(s, h);
    forall d | d in u.live ensures (u.place[d].Unlinked? <==> u.loop[d]) && (u.loop[d] ==> u.refs[d] == [] && u.target[d] == NULL) {
      assert s.place[d].Unlinked? <==> s.loop[d];
    }
    forall g | g in u.live && u.target[g] != NULL ensures u.up[g] != NULL {
      assert s.target[g] == u.target[g];
    }
  }

  lemma DropSound(s: Heap, h: Ptr, r: Ptr -> nat, but: Ptr)
    requires Sound(s, r, but) && IsHandle(s, h)
    ensures Sound(DropHandle(s, h), r, but)
  {
    var u := DropHandle(s, h);
    DropSettled(s, h);
    forall x | x in u.live
      ensures (Anchored(u, x) || Adrift(u, x))
              && (Above(u, x) != NULL ==> Above(u, x) in u.live && r(Above(u, x)) < r(x))
    {
      DropAbove(s, h, r, but, x);
    }
    forall g | g in u.live && u.target[g] != NULL && u.target[g] != but ensures r(u.up[g]) < r(u.target[g]) {
      DropHandleIs(s, h);
      assert s.target[g] == u.target[g];
    }
  }

  /** A sibling of c is not below c. */
  lemma SiblingNotInside(s: Heap, r: Ptr -> nat, c: Ptr, h: Ptr)
    requires Wf(s) && Climbs(s, r) && c in s.live && h in s.live && h != c && s.up[c] != NULL && s.up[h] == s.up[c]
    ensures !Contains(s, c, h)
  {
    var p := s.up[c];
    assert s.place[c] == InList && s.place[h] == InList && Above(s, c) == p && Above(s, h) == p;
    forall n: nat ensures AboveBy(s, h, n) != c {
      if n > 0 { AboveRank(s, r, p, n - 1); }
    }
  }

  /** In u the left neighbour of c, if there is one, is that in s. */
  ghost predicate SameLeft(s: Heap, u: Heap, c: Ptr)
    requires Domains(s) && Domains(u) && c in s.live
  {
    s.up[c] != NULL ==>
      var p := s.up[c];
      && p in s.live && p in u.live && c in s.kids[p] && c in u.kids[p]
      && var i, j := IndexOf(s.kids[p], c), IndexOf(u.kids[p], c);
         j > 0 ==> i > 0 && var b := u.kids[p][j - 1]; b == s.kids[p][i - 1] && b in s.live && b in u.live && u.target[b] == s.target[b]
  }

  lemma SameNeighbour(s: Heap, u: Heap, c: Ptr, zone: set<Ptr>)
    requires Wf(s) && Wf(u) && c in s.live && c in u.live && LeftIn(s, c, zone) && SameLeft(s, u, c)
    requires (Quiet(s, zone) ==> Quiet(u, zone)) && u.dtor[c] == s.dtor[c]
    requires u.up[c] == s.up[c] && (u.kids[c] != [] ==> s.kids[c] != []) && (Unhindered(u, c) ==> Unhindered(s, c))
    ensures LeftIn(u, c, zone)
  {
  }

  /** A reference to c from below that is gone was not the left neighbour of c. */
  lemma DropLeftIn(s: Heap, c: Ptr, h: Ptr, r: Ptr -> nat, zone: set<Ptr>)
    requires Wf(s) && Climbs(s, r) && c in s.live && s.refs[c] != [] && h == s.refs[c][0] && IsHandle(s, h) && c != h
    requires Contains(s, c, h) && LeftIn(s, c, zone)
    ensures Wf(DropHandle(s, h)) && c in DropHandle(s, h).live && LeftIn(DropHandle(s, h), c, zone)
  {
    DropKeeps(s, c, h, zone);
    UnhinderedStep(s, c);
    DropNeighbour(s, c, h, r);
    SameNeighbour(s, DropHandle(s, h), c, zone);
  }

  lemma DropKeeps(s: Heap, c: Ptr, h: Ptr, zone: set<Ptr>)
    requires Wf(s) && IsHandle(s, h) && c in s.live && c != h
    ensures var u := DropHandle(s, h);
            && Wf(u) && c in u.live && (Quiet(s, zone) ==> Quiet(u, zone))
            && u.up[c] == s.up[c] && u.dtor[c] == s.dtor[c] && (u.kids[c] != [] ==> s.kids[c] != [])
  {
    DropHandleIs(s, h);
    assert c in DropHandle(s, h).live;
    if Quiet(s, zone) { QuietAfter(s, DropHandle(s, h), zone); }
  }

  lemma UnhinderedStep(s: Heap, c: Ptr)
    requires Wf(s) && c in s.live && s.refs[c] != [] && IsHandle(s, s.refs[c][0]) && Contains(s, c, s.refs[c][0])
    requires Wf(DropHandle(s, s.refs[c][0])) && c in DropHandle(s, s.refs[c][0]).live
    ensures Unhindered(s, c) <==> Unhindered(DropHandle(s, s.refs[c][0]), c)
  {
    assert Look(0);
  }

  lemma DropNeighbour(s: Heap, c: Ptr, h: Ptr, r: Ptr -> nat)
    requires Wf(s) && Climbs(s, r) && c in s.live && IsHandle(s, h) && c != h && Contains(s, c, h)
    ensures Wf(DropHandle(s, h)) && SameLeft(s, DropHandle(s, h), c)
  {
    var u, p := DropHandle(s, h), s.up[c];
    DropHandleIs(s, h);
    if p != NULL {
      var q := s.kids[p];
      assert c in q && c in u.live && u.up[c] == p && p in u.live;
      var i := IndexOf(q, c);
      if p == s.up[h] { SiblingNotInside(s, r, c, h); }
      assert u.kids[p] == q;
      if i > 0 { assert q[i - 1] in u.kids[p]; }
    }
  }

  // ---------- one round of the loop ----------

  lemma SweptSelf(s: Heap, r: Ptr -> nat, lo: nat, keep: set<Ptr>, sink: Ptr, via: set<Ptr>)
    requires Wf(s) && Supported(s, keep)
    ensures Swept(s, s, r, lo, NULL, keep, sink, via)
  {
    forall k | k in keep ensures k in s.live && Conserves(s, s, k, keep, sink) {
      var A := Kept(s, s.refs[k], keep);
    }
  }

  /** What adopts the children of c that refuse, and that it can. */
  lemma SinkFacts(s: Heap, r: Ptr -> nat, c: Ptr)
    requires Sound(s, r, NULL) && c in s.live && Anchored(s, c) && s.kids[c] != []
    ensures var p := Above(s, c); p == NULL || (p in s.live && !IsHandle(s, p) && r(p) < r(c))
  {
    var p := Above(s, c);
    if p != NULL {
      match s.place[c]
      case InList => assert c in s.kids[p];
      case Unlinked(b, d) => if b != NULL { assert b in s.kids[p]; }
    }
  }

  /** The state of the loop of FreeChildren, from the state in which it started. */
  lemma LoopFacts(s: Heap, a: Heap, c: Ptr, r: Ptr -> nat, keep: set<Ptr>, sink: Ptr, via: set<Ptr>)
    requires Sound(s, r, NULL) && DyingBelow(s, r, r(c)) && Supported(s, keep) && c in s.live && s.target[c] == NULL
    requires sink == Above(s, c) && Wf(a) && Swept(s, a, r, r(c), NULL, keep, sink, via)
    ensures Sound(a, r, NULL) && DyingBelow(a, r, r(c)) && Supported(a, keep) && c in a.live && a.target[c] == NULL
    ensures Anchored(a, c) ==> Above(a, c) == sink
  {
    SettledAfter(s, a, r, via);
    RankedAfter(s, a, r, r(c), via);
    SupportedAfter(s, a, keep, sink);
    assert Anchored(s, c) || Adrift(s, c);
    if s.place[c].Unlinked? {
      assert s.up[c] == NULL;
      assert c in a.live;
      AboveAfter(s, a, r, r(c), via, c);
    } else {
      assert Above(s, c) == s.up[c];
      assert c in a.live && a.up[c] == s.up[c] && a.place[c] == s.place[c];
    }
  }

  lemma FirstKid(s: Heap, c: Ptr)
    requires Wf(s) && Settled(s) && c in s.live && s.kids[c] != []
    ensures var k := s.kids[c][0];
            && k in s.live && s.up[k] == c && k != c && s.place[k] == InList && !s.loop[k]
            && IndexOf(s.kids[c], k) == 0
  {
    RowFacts(s, c, 0);
    var k := s.kids[c][0];
    assert s.place[k] == InList;
    assert s.loop[k] == false;
  }

  lemma ChildCanFree(s: Heap, c: Ptr, r: Ptr -> nat, keep: set<Ptr>, zone: set<Ptr>)
    requires Sound(s, r, NULL) && DyingBelow(s, r, r(c)) && Supported(s, keep) && c in s.live && c !in keep
             && s.kids[c] != []
    requires c in zone && ZoneOk(s, zone)
    ensures s.kids[c][0] in zone && CanFree(s, s.kids[c][0], r, keep, zone)
  {
    FirstKid(s, c);
    var k := s.kids[c][0];
    assert Above(s, k) == c;
    forall d | d in s.live && s.place[d].Unlinked? ensures r(d) < r(k) && s.place[d].prev != k {
      var b := s.place[d].prev;
      assert b != NULL && b in s.live ==> Above(s, d) == s.up[b];
      assert Above(s, k) == c && Above(s, d) != NULL ==> r(Above(s, d)) < r(d);
    }
    if k in keep && !Refusing(s, k) {
      assert Kept(s, s.refs[k], keep) != [];
    }
  }

  /** An ordinary child that has been freed. */
  lemma FreedSweeps(s: Heap, t: Heap, c: Ptr, k: Ptr, r: Ptr -> nat, keep: set<Ptr>, sink: Ptr, via: set<Ptr>)
    requires Wf(s) && Wf(t) && k in s.live && s.up[k] == c && c in s.live && r(c) < r(k) && c !in keep && c in via
    requires Freed(s, t, k, r, keep)
    ensures Swept(s, t, r, r(c), NULL, keep, sink, via)
  {
    FreedUntouched(s, t, c, k, r);
    FreedConserved(s, t, c, keep, sink);
  }

  lemma FreedUntouched(s: Heap, t: Heap, c: Ptr, k: Ptr, r: Ptr -> nat)
    requires Wf(s) && Wf(t) && k in s.live && s.up[k] == c && c in s.live && r(c) < r(k) && Untouched(s, t, r, r(k), k)
    ensures Untouched(s, t, r, r(c), NULL)
  {
    forall x | x in s.live && s.target[x] == NULL && (s.up[x] == NULL || r(s.up[x]) < r(c)) ensures x in t.live
        && t.up[x] == s.up[x] {
      assert x != k;
    }
  }

  lemma FreedConserved(s: Heap, t: Heap, c: Ptr, keep: set<Ptr>, sink: Ptr)
    requires Wf(s) && Wf(t) && c in s.live && c !in keep && Conserved(s, t, keep, c)
    ensures Conserved(s, t, keep, sink)
  {
    forall j | j in keep ensures j in s.live && j in t.live && Conserves(s, t, j, keep, sink) {
      assert Conserves(s, t, j, keep, c);
    }
  }

  /** s is the heap at the start of a round for the child k of c, and t the heap after
      talloc_free(k) has answered res.  Either the round is over, or k has to be moved. */
  lemma ChildFreed(s: Heap, t: Heap, c: Ptr, r: Ptr -> nat, keep: set<Ptr>, res: int, sink: Ptr, via: set<Ptr>)
    requires Sound(s, r, NULL) && Supported(s, keep) && c in s.live && c !in keep && s.kids[c] != [] && c in via
    requires s.kids[c][0] in s.live && Wf(t) && FreeSpec(s, t, s.kids[c][0], r, keep, res)
    ensures var k := s.kids[c][0];
            && (res == -1 <==> s.refs[k] != [] || Refusing(s, k))
            && (res != -1 ==> Swept(s, t, r, r(c), NULL, keep, sink, via) && t.live < s.live)
            && (res == -1 ==> if s.refs[k] == [] then t == s else IsHandle(s, s.refs[k][0]) && t == DropHandle(s, s.refs[k][0]))
  {
    FirstKid(s, c);
    var k := s.kids[c][0];
    assert Above(s, k) == c && Anchored(s, k);
    if s.refs[k] != [] {
      RefRowFacts(s, k, 0);
      NotInside(s, r, k, s.refs[k][0]);
    } else if !Refusing(s, k) {
      if IsHandle(s, k) {
        DropSweeps(s, k, r, r(c), keep, sink, via);
        DropHandleIs(s, k);
        assert k in s.live && k !in t.live;
      } else {
        FreedSweeps(s, t, c, k, r, keep, sink, via);
        assert k in s.live && k !in t.live;
      }
    }
  }

  lemma RefusingOrdinary(s: Heap, c: Ptr)
    requires Wf(s) && Refusing(s, c)
    ensures s.target[c] == NULL
  {
  }

  /** The holder of the reference that a child has lost can adopt it. */
  lemma PromoteReady(s: Heap, k: Ptr, r: Ptr -> nat)
    requires Sound(s, r, NULL) && k in s.live && s.place[k] == InList && s.refs[k] != []
    ensures var h := s.refs[k][0];
            && IsHandle(s, h) && s.up[h] != NULL && Wf(DropHandle(s, h)) && k in DropHandle(s, h).live
            && DropHandle(s, h).place[k] == InList && s.up[h] in DropHandle(s, h).live
            && !IsHandle(DropHandle(s, h), s.up[h])
  {
    RefRowFacts(s, k, 0);
    var h := s.refs[k][0];
    DropHandleIs(s, h);
    var x := s.up[h];
    assert h in s.kids[x];
    assert k in DropHandle(s, h).live && x in DropHandle(s, h).live;
  }

  /** An unreferenced child that refuses goes to the sink. */
  lemma ChildRefused(s: Heap, c: Ptr, r: Ptr -> nat, keep: set<Ptr>, sink: Ptr, via: set<Ptr>)
    requires Sound(s, r, NULL) && Supported(s, keep) && c in s.live && c !in keep && s.kids[c] != []
    requires via == {sink, c} && sink == Above(s, c) && Anchored(s, c)
    requires var k := s.kids[c][0]; k in s.live && s.refs[k] == [] && Refusing(s, k)
    ensures sink == NULL || (sink in s.live && !IsHandle(s, sink))
    ensures var k := s.kids[c][0]; var t := Stolen(s, k, sink);
            Swept(s, t, r, r(c), NULL, keep, sink, via) && t.live == s.live && c in t.live && |t.kids[c]| < |s.kids[c]|
  {
    FirstKid(s, c);
    SinkFacts(s, r, c);
    var k := s.kids[c][0];
    assert Above(s, k) == c && Anchored(s, k);
    RefusingOrdinary(s, k);
    RefuseSweeps(s, k, sink, r, r(c), keep, via);
    StolenIs(s, k, sink);
    assert c in Stolen(s, k, sink).live;
  }

  lemma LoopDone(s: Heap, a: Heap, c: Ptr, r: Ptr -> nat, keep: set<Ptr>)
    requires Wf(s) && Wf(a) && c in s.live && c in a.live && a.kids[c] == [] && c !in keep && Above(s, c) != c
    requires Swept(s, a, r, r(c), NULL, keep, Above(s, c), {Above(s, c), c})
    ensures Emptied(s, a, c, r, keep)
  {
    forall x | x in a.live
      ensures x in s.live && (a.up[x] == s.up[x] || Holds(s, a.up[x], x)
              || (Refusing(s, x) && a.up[x] in {Above(s, c)} && (a.up[x] != NULL ==> r(a.up[x]) < r(x))))
              && (s.target[x] != NULL ==> a.up[x] == s.up[x])
    {
      var o := a.up[x];
      if o != NULL { assert x in a.kids[o]; }
    }
  }

  /** How many chunks are not being freed. */
  ghost function Active(s: Heap): nat
    requires Domains(s)
  {
    |set c | c in s.live && !s.loop[c]|
  }

  lemma ActiveShrinks(s: Heap, t: Heap)
    requires Domains(s) && Domains(t) && Shrunk(s, t)
    ensures Active(t) <= Active(s)
  {
    var S, T := set c | c in s.live && !s.loop[c], set c | c in t.live && !t.loop[c];
    forall c | c in T ensures c in S { assert t.loop[c] == s.loop[c]; }
    SetSize(T, S);
  }

  lemma SetSize(T: set<Ptr>, S: set<Ptr>)
    requires T <= S
    ensures |T| <= |S| && (T < S ==> |T| < |S|)
  {
    assert S == T + (S - T);
    if T < S { assert S - T != {}; }
  }

  // ---------- the code ----------

  /** What FreeChildren(c) needs, if there are children at all. */
  ghost predicate CanEmpty(s: Heap, c: Ptr, r: Ptr -> nat, keep: set<Ptr>, zone: set<Ptr>) {
    && Wf(s) && c in s.live
    && (s.kids[c] != [] ==>
          && Sound(s, r, NULL) && DyingBelow(s, r, r(c)) && Supported(s, keep) && c !in keep
          && c in zone && ZoneOk(s, zone) && Anchored(s, c))
  }

  /** talloc_free_children, which is also the loop of talloc_free. */
  method FreeChildren(m: Memory, tc: Ptr, ghost r: Ptr -> nat, ghost keep: set<Ptr>, ghost zone: set<Ptr>)
    requires m.Linked() && CanEmpty(m.heap, tc, r, keep, zone)
    modifies m
    ensures m.Linked() && Spared(old(m.heap), m.heap, zone)
    ensures if old(m.heap).kids[tc] == [] then m.heap == old(m.heap) else Emptied(old(m.heap), m.heap, tc, r, keep)
    decreases Active(m.heap), 3
  {
    ghost var s := m.heap;
    if s.kids[tc] != [] {
      FirstKid(s, tc);
      SweptSelf(s, r, r(tc), keep, Above(s, tc), {Above(s, tc), tc});
    }
    var child := Child(m, tc);
    while child != NULL
      invariant m.Linked() && tc in m.heap.live
      invariant if s.kids[tc] == [] then m.heap == s else InLoop(s, m.heap, tc, r, keep, zone)
      invariant child == At(m.heap.kids[tc], 0) && (child != NULL <==> m.heap.kids[tc] != [])
      decreases m.heap.live, |m.heap.kids[tc]|
    {
      Round(m, tc, child, r, keep, zone, s);
      child := Child(m, tc);
    }
    assert Look(0);
    if s.kids[tc] != [] {
      SinkFacts(s, r, tc);
      LoopDone(s, m.heap, tc, r, keep);
    }
  }

  /** The owner of a child k that could not be freed: the holder of its newest reference,
      or the sink. */
  ghost function NewOwner(a: Heap, k: Ptr, sink: Ptr): Ptr
    requires Wf(a) && k in a.live
  {
    if a.refs[k] == [] then sink else var h := a.refs[k][0]; if h in a.live then a.up[h] else NULL
  }

  /** The first choice for the owner of a child that cannot be freed: the holder of its
      newest reference. */
  method FirstChoice(m: Memory, child: Ptr, ghost r: Ptr -> nat) returns (newParent: Ptr)
    requires m.Linked() && Sound(m.heap, r, NULL) && child in m.heap.live
    ensures newParent == NewOwner(m.heap, child, NULL)
    ensures newParent != NULL <==> m.heap.refs[child] != []
  {
    newParent := NULL;
    if m.heap.refs[child] != [] {
      RefRowFacts(m.heap, child, 0);
      assert Anchored(m.heap, m.heap.refs[child][0]);
      assert m.heap.place[m.heap.refs[child][0]] == InList;
    }
    var refs := NewestRef(m, child);
    if refs != NULL {
      var p := ParentChunk(m, refs);
      if p != NULL { newParent := p; }
    }
  }

  /** The second choice is what lies above the chunk being emptied, and then the child moves. */
  method Adopt(m: Memory, tc: Ptr, child: Ptr, newParent: Ptr)
    requires m.Linked() && tc in m.heap.live && child in m.heap.live && m.heap.place[child] == InList
    requires newParent == NULL ==> Anchored(m.heap, tc)
    requires var p := if newParent == NULL then Above(m.heap, tc) else newParent;
             p == NULL || (p in m.heap.live && !IsHandle(m.heap, p))
    modifies m
    ensures m.Linked()
    ensures m.heap == Stolen(old(m.heap), child, if newParent == NULL then Above(old(m.heap), tc) else newParent)
  {
    var owner := newParent;
    if owner == NULL {
      var p := ParentChunk(m, tc);
      if p != NULL { owner := p; }
    }
    Steal(m, owner, child);
  }

  /** The state at the start of a round of the loop that began in s.  What has happened since
      is in scope only where `Look` is mentioned. */
  ghost predicate InLoop(s: Heap, a: Heap, c: Ptr, r: Ptr -> nat, keep: set<Ptr>, zone: set<Ptr>) {
    && CanEmpty(s, c, r, keep, zone) && s.kids[c] != []
    && Wf(a) && c in a.live
    && forall n: int {:trigger Look(n)} :: Look(n) ==> Swept(s, a, r, r(c), NULL, keep, Above(s, c), {Above(s, c), c}) && Spared(s, a, zone)
  }

  lemma InLoopFacts(s: Heap, a: Heap, c: Ptr, r: Ptr -> nat, keep: set<Ptr>, zone: set<Ptr>)
    requires InLoop(s, a, c, r, keep, zone)
    ensures Sound(a, r, NULL) && DyingBelow(a, r, r(c)) && Supported(a, keep) && a.target[c] == NULL && c !in keep
    ensures (Anchored(a, c) ==> Above(a, c) == Above(s, c)) && Active(a) <= Active(s)
    ensures c in zone && ZoneOk(a, zone)
  {
    assert Look(0);
    FirstKid(s, c);
    LoopFacts(s, a, c, r, keep, Above(s, c), {Above(s, c), c});
    ZoneAfter(s, a, r, r(c), zone);
    ActiveShrinks(s, a);
  }

  lemma RoundStart(s: Heap, a: Heap, c: Ptr, r: Ptr -> nat, keep: set<Ptr>, zone: set<Ptr>)
    requires InLoop(s, a, c, r, keep, zone) && a.kids[c] != []
    ensures a.kids[c][0] in a.live && CanFree(a, a.kids[c][0], r, keep, zone) && Sound(a, r, NULL)
            && Active(a) <= Active(s)
  {
    InLoopFacts(s, a, c, r, keep, zone);
    FirstKid(a, c);
    ChildCanFree(a, c, r, keep, zone);
  }

  /** The heap after a round is again one of the loop. */
  lemma RoundEnd(s: Heap, a: Heap, t: Heap, c: Ptr, r: Ptr -> nat, keep: set<Ptr>, zone: set<Ptr>)
    requires InLoop(s, a, c, r, keep, zone) && Wf(t)
    requires Swept(a, t, r, r(c), NULL, keep, Above(s, c), {Above(s, c), c}) && Spared(a, t, zone)
    ensures InLoop(s, t, c, r, keep, zone)
  {
    assert Look(0);
    FirstKid(s, c);
    SweptTrans(s, a, t, r, r(c), keep, Above(s, c), {Above(s, c), c});
    assert forall x :: x in a.live && x in s.live ==> a.target[x] == s.target[x];
    SparedTrans(s, a, t, zone);
    LoopFacts(s, t, c, r, keep, Above(s, c), {Above(s, c), c});
  }

  /** A child that has been freed ends the round. */
  lemma ChildGone(s: Heap, a: Heap, b: Heap, c: Ptr, r: Ptr -> nat, keep: set<Ptr>, zone: set<Ptr>, res: int)
    requires InLoop(s, a, c, r, keep, zone) && a.kids[c] != [] && a.kids[c][0] in a.live && Wf(b) && Spared(a, b, zone)
    requires FreeSpec(a, b, a.kids[c][0], r, keep, res) && res != -1
    ensures InLoop(s, b, c, r, keep, zone) && b.live < a.live
  {
    InLoopFacts(s, a, c, r, keep, zone);
    ChildFreed(a, b, c, r, keep, res, Above(s, c), {Above(s, c), c});
    RoundEnd(s, a, b, c, r, keep, zone);
  }

  /** k has been moved from the children of c to its new owner. */
  ghost predicate MovedOn(a: Heap, b: Heap, c: Ptr, k: Ptr, owner: Ptr)
    requires Wf(a) && c in a.live && k in a.live
  {
    && Wf(b) && k in b.live && b.place[k] == InList
    && (owner == NULL || (owner in b.live && !IsHandle(b, owner) && owner != k))
    && var t := Stolen(b, k, owner);
       && Wf(t)
       && (t.live < a.live || (t.live == a.live && c in t.live && |t.kids[c]| < |a.kids[c]|))
  }

  /** A referenced child goes to the holder of its newest reference, which it has lost. */
  lemma ChildPromoted(s: Heap, a: Heap, b: Heap, c: Ptr, r: Ptr -> nat, keep: set<Ptr>, zone: set<Ptr>)
    requires InLoop(s, a, c, r, keep, zone) && a.kids[c] != [] && Wf(b)
    requires var k := a.kids[c][0]; k in a.live && a.refs[k] != [] && FreeSpec(a, b, k, r, keep, -1)
    ensures var k := a.kids[c][0]; var owner := NewOwner(a, k, NULL);
            && c in b.live && owner != NULL && MovedOn(a, b, c, k, owner)
            && Swept(a, Stolen(b, k, owner), r, r(c), NULL, keep, Above(s, c), {Above(s, c), c})
  {
    var k := a.kids[c][0];
    var sink, via := Above(s, c), {Above(s, c), c};
    InLoopFacts(s, a, c, r, keep, zone);
    FirstKid(a, c);
    ChildFreed(a, b, c, r, keep, -1, sink, via);
    var h := a.refs[k][0];
    RefRowFacts(a, k, 0);
    PromoteReady(a, k, r);
    assert Above(a, k) == c && Anchored(a, k) && r(c) < r(k);
    PromoteSweeps(a, k, r, r(c), keep, sink, via);
    DropHandleIs(a, h);
    assert c in b.live;
    assert h in a.live && h !in Stolen(b, k, a.up[h]).live;
  }

  /** A child that is not referenced refuses, and then nothing is adrift: it goes to what
      lies above c. */
  lemma ChildMoved(s: Heap, a: Heap, b: Heap, c: Ptr, r: Ptr -> nat, keep: set<Ptr>, zone: set<Ptr>)
    requires InLoop(s, a, c, r, keep, zone) && a.kids[c] != [] && Wf(b)
    requires var k := a.kids[c][0]; k in a.live && a.refs[k] == [] && FreeSpec(a, b, k, r, keep, -1)
    ensures b == a && Anchored(a, c) && Above(a, c) == Above(s, c)
    ensures var k := a.kids[c][0];
            && MovedOn(a, b, c, k, Above(a, c))
            && Swept(a, Stolen(b, k, Above(a, c)), r, r(c), NULL, keep, Above(s, c), {Above(s, c), c})
  {
    var k := a.kids[c][0];
    InLoopFacts(s, a, c, r, keep, zone);
    FirstKid(a, c);
    ChildFreed(a, b, c, r, keep, -1, Above(s, c), {Above(s, c), c});
    assert a.up[k] in zone && Refusing(a, k);
    assert a.target[k] == a.target[k];
    NothingAdrift(a, r, zone, c);
    SinkFacts(a, r, c);
    assert Above(a, k) == c && Anchored(a, k) && r(c) < r(k);
    ChildRefused(a, c, r, keep, Above(s, c), {Above(s, c), c});
    StolenWf(b, k, Above(a, c));
  }

  lemma MoveEnds(s: Heap, a: Heap, b: Heap, c: Ptr, k: Ptr, owner: Ptr, r: Ptr -> nat, keep: set<Ptr>, zone: set<Ptr>)
    requires InLoop(s, a, c, r, keep, zone) && k in a.live && a.up[k] == c && MovedOn(a, b, c, k, owner)
             && Spared(a, b, zone)
    requires Swept(a, Stolen(b, k, owner), r, r(c), NULL, keep, Above(s, c), {Above(s, c), c})
    ensures InLoop(s, Stolen(b, k, owner), c, r, keep, zone)
  {
    var t := Stolen(b, k, owner);
    InLoopFacts(s, a, c, r, keep, zone);
    assert k in zone by { assert a.up[k] in zone; }
    StolenSpared(b, k, owner, zone);
    StolenIs(b, k, owner);
    forall x | x in b.live && x in a.live ensures b.target[x] == a.target[x] {
      assert x in t.live && t.target[x] == a.target[x];
    }
    SparedTrans(a, b, t, zone);
    RoundEnd(s, a, t, c, r, keep, zone);
  }

  /** A child that could not be freed can be adopted, and the round is then over. */
  lemma Adoptable(s: Heap, a: Heap, b: Heap, c: Ptr, r: Ptr -> nat, keep: set<Ptr>, zone: set<Ptr>)
    requires InLoop(s, a, c, r, keep, zone) && a.kids[c] != [] && a.kids[c][0] in a.live && Wf(b) && Spared(a, b, zone)
    requires FreeSpec(a, b, a.kids[c][0], r, keep, -1)
    ensures var k := a.kids[c][0]; var owner := NewOwner(a, k, Above(a, c));
            && c in b.live && (a.refs[k] == [] ==> b == a && Anchored(a, c)) && (a.refs[k] != [] ==> owner != NULL)
            && MovedOn(a, b, c, k, owner) && InLoop(s, Stolen(b, k, owner), c, r, keep, zone)
  {
    var k := a.kids[c][0];
    var owner := NewOwner(a, k, Above(a, c));
    assert k in a.kids[c];
    if a.refs[k] != [] { ChildPromoted(s, a, b, c, r, keep, zone); } else { ChildMoved(s, a, b, c, r, keep, zone); }
    MoveEnds(s, a, b, c, k, owner, r, keep, zone);
  }

  /** The end of a round in which talloc_free(child) has answered -1 in the heap a. */
  method MoveChild(m: Memory, tc: Ptr, child: Ptr, newParent: Ptr, ghost r: Ptr -> nat, ghost keep: set<Ptr>,
      ghost zone: set<Ptr>, ghost s: Heap, ghost a: Heap)
    requires m.Linked() && InLoop(s, a, tc, r, keep, zone) && a.kids[tc] != [] && child == a.kids[tc][0]
             && child in a.live
    requires Spared(a, m.heap, zone) && FreeSpec(a, m.heap, child, r, keep, -1) && newParent == NewOwner(a, child, NULL)
    requires newParent != NULL <==> a.refs[child] != []
    modifies m
    ensures m.Linked() && InLoop(s, m.heap, tc, r, keep, zone)
    ensures m.heap.live < a.live || (m.heap.live == a.live && |m.heap.kids[tc]| < |a.kids[tc]|)
  {
    Adoptable(s, a, m.heap, tc, r, keep, zone);
    Adopt(m, tc, child, newParent);
  }

  /** One round of the loop: free the first child, and move it if it cannot be freed. */
  method Round(m: Memory, tc: Ptr, child: Ptr, ghost r: Ptr -> nat, ghost keep: set<Ptr>, ghost zone: set<Ptr>,
      ghost s: Heap)
    requires m.Linked() && InLoop(s, m.heap, tc, r, keep, zone) && m.heap.kids[tc] != [] && child == m.heap.kids[tc][0]
    modifies m
    ensures m.Linked() && InLoop(s, m.heap, tc, r, keep, zone)
    ensures m.heap.live < old(m.heap.live)
            || (m.heap.live == old(m.heap.live) && |m.heap.kids[tc]| < |old(m.heap.kids[tc])|)
    decreases Active(s), 2
  {
    ghost var a := m.heap;
    RoundStart(s, a, tc, r, keep, zone);
    var newParent := FirstChoice(m, child, r);
    var rc := Free(m, child, r, keep, zone);
    if rc == -1 {
      MoveChild(m, tc, child, newParent, r, keep, zone, s, a);
    } else {
      ChildGone(s, a, m.heap, tc, r, keep, zone, rc);
    }
  }

  lemma OpenedActive(s: Heap, c: Ptr)
    requires Wf(s) && c in s.live && !s.loop[c]
    ensures Domains(Opened(s, c)) && Active(Opened(s, c)) < Active(s)
  {
    AcceptedWf(s, c);
    DetachedWf(Accepted(s, c), c);
    var S, T := set x | x in s.live && !s.loop[x], set x | x in Opened(s, c).live && !Opened(s, c).loop[x];
    assert c in S && c !in T && T <= S;
    SetSize(T, S);
  }

  lemma OpenedCanEmpty(s: Heap, c: Ptr, r: Ptr -> nat, keep: set<Ptr>, zone: set<Ptr>)
    requires CanFree(s, c, r, keep, zone) && s.refs[c] == [] && !s.loop[c] && !Refusing(s, c) && !IsHandle(s, c)
    requires s.place[c] == InList && s.kids[c] != []
    ensures CanEmpty(Opened(s, c), c, r, keep, zone)
  {
    OpenedSound(s, c, r);
    OpenedSupported(s, c, keep);
    OpenedZone(s, c, zone);
    OpenedAbove(s, c);
  }

  /** What the unlinking code leaves is what FreeChildren needs. */
  lemma OpenedReady(s: Heap, c: Ptr, r: Ptr -> nat, keep: set<Ptr>, zone: set<Ptr>)
    requires CanFree(s, c, r, keep, zone) && s.refs[c] == [] && !s.loop[c] && !Refusing(s, c)
    ensures s.place[c] == InList && CanEmpty(Opened(s, c), c, r, keep, zone)
  {
    assert s.place[c] == InList by { assert s.loop[c] == false; }
    OpenedFrom(s, c);
    if IsHandle(s, c) {
      HandleOpened(s, c);
    } else if s.kids[c] == [] {
      OpenedIs(s, c);
    } else {
      OpenedCanEmpty(s, c, r, keep, zone);
    }
  }

  /** What Detach and Flag do to the heap after the destructor has run. */
  lemma OpenedFrom(s: Heap, c: Ptr)
    requires Wf(s) && c in s.live && s.refs[c] == []
    ensures Wf(Accepted(s, c)) && Accepted(s, c).live == s.live && Accepted(s, c).place == s.place
    ensures s.dtor[c] == NoDestructor ==> Accepted(s, c) == s
    ensures Wf(Opened(s, c)) && c in Opened(s, c).live
    ensures Opened(s, c).up[c] == NULL && Opened(s, c).refs[c] == [] && Opened(s, c).target[c] == NULL
  {
    AcceptedWf(s, c);
    DetachedWf(Accepted(s, c), c);
    if s.dtor[c] == NoDestructor {
      assert s.target[c] == NULL;
      assert s.dtor == s.dtor[c := NoDestructor];
    }
  }

  /** What is left once the chunk's memory has been released. */
  lemma FreeDone(s: Heap, a: Heap, c: Ptr, r: Ptr -> nat, keep: set<Ptr>, zone: set<Ptr>)
    requires CanFree(s, c, r, keep, zone) && s.refs[c] == [] && !s.loop[c] && !Refusing(s, c)
    requires Wf(a) && Wf(Opened(s, c)) && c in Opened(s, c).live && Spared(Opened(s, c), a, zone)
    requires if Opened(s, c).kids[c] == [] then a == Opened(s, c) else Emptied(Opened(s, c), a, c, r, keep)
    ensures c in a.live && a.up[c] == NULL && a.kids[c] == [] && a.refs[c] == [] && a.target[c] == NULL
    ensures Wf(Removed(a, c)) && FreeSpec(s, Removed(a, c), c, r, keep, 0) && Spared(s, Removed(a, c), zone)
  {
    OpenedFrom(s, c);
    if IsHandle(s, c) {
      HandleOpened(s, c);
      RemovedWf(a, c);
      DropSpared(s, c, zone);
    } else {
      ChunkDone(s, a, c, r, keep, zone);
    }
  }

  lemma ChunkDone(s: Heap, a: Heap, c: Ptr, r: Ptr -> nat, keep: set<Ptr>, zone: set<Ptr>)
    requires CanFree(s, c, r, keep, zone) && s.refs[c] == [] && !s.loop[c] && !Refusing(s, c) && !IsHandle(s, c)
    requires Wf(a) && Wf(Opened(s, c)) && c in Opened(s, c).live && Spared(Opened(s, c), a, zone)
    requires if Opened(s, c).kids[c] == [] then a == Opened(s, c) else Emptied(Opened(s, c), a, c, r, keep)
    ensures c in a.live && a.up[c] == NULL && a.kids[c] == [] && a.refs[c] == [] && a.target[c] == NULL
    ensures Wf(Removed(a, c)) && Freed(s, Removed(a, c), c, r, keep) && Spared(s, Removed(a, c), zone)
  {
    var o := Opened(s, c);
    assert s.place[c] == InList by { assert s.loop[c] == false; }
    OpenedIs(s, c);
    OpenedAbove(s, c);
    OpenedSupported(s, c, keep);
    if o.kids[c] == [] { SweptSelf(o, r, r(c), keep, s.up[c], {s.up[c]}); }
    OpenedLeft(o, a, c, r, keep, s.up[c], {s.up[c]});
    RemovedWf(a, c);
    Closed(s, a, c, r, keep);
    ClosedSpared(s, a, c, zone);
  }

  lemma ClosedSpared(s: Heap, a: Heap, c: Ptr, zone: set<Ptr>)
    requires Wf(s) && c in s.live && !IsHandle(s, c) && c in zone && Wf(a) && Wf(Opened(s, c))
    requires Spared(Opened(s, c), a, zone) && a.live <= s.live
    ensures Domains(Removed(a, c)) && Spared(s, Removed(a, c), zone)
  {
    var o, t := Opened(s, c), Removed(a, c);
    OpenedIs(s, c);
    forall x | x in t.live && x !in zone ensures x in s.live && t.up[x] == s.up[x] {
      assert x in a.live && a.up[x] == o.up[x] && o.up[x] == s.up[x];
    }
    forall h | h in s.live && s.target[h] != NULL && h !in zone && s.target[h] !in zone ensures h in t.live {
      assert h in o.live && o.target[h] == s.target[h];
      assert h in a.live;
    }
  }

  lemma HandleOpened(s: Heap, h: Ptr)
    requires Wf(s) && IsHandle(s, h)
    ensures Opened(s, h).kids[h] == [] && Removed(Opened(s, h), h) == DropHandle(s, h)
  {
    ReleasedWf(s, h);
    var t := Detached(Released(s, h), h);
    assert t.loop[h := true] - {h} == t.loop - {h};
  }

  /** The emptied chunk itself is as it was when the loop began. */
  lemma OpenedLeft(o: Heap, a: Heap, c: Ptr, r: Ptr -> nat, keep: set<Ptr>, sink: Ptr, via: set<Ptr>)
    requires Wf(o) && Wf(a) && Swept(o, a, r, r(c), NULL, keep, sink, via)
    requires c in o.live && o.up[c] == NULL && o.target[c] == NULL && o.refs[c] == [] && c != NULL
    ensures c in a.live && a.up[c] == NULL && a.target[c] == NULL && a.refs[c] == []
  {
    assert c in a.live && a.up[c] == o.up[c];
    assert a.target[c] == o.target[c];
    RefsOnlyShrink(o, a, r, via);
  }

  /** _talloc_free. */
  method Free(m: Memory, tc: Ptr, ghost r: Ptr -> nat, ghost keep: set<Ptr>, ghost zone: set<Ptr>) returns (res: int)
    requires m.Linked() && CanFree(m.heap, tc, r, keep, zone)
    modifies m
    ensures m.Linked() && FreeSpec(old(m.heap), m.heap, tc, r, keep, res) && Spared(old(m.heap), m.heap, zone)
    decreases Active(m.heap), if IsHandle(m.heap, tc) then 0 else 1
  {
    var refs := NewestRef(m, tc);
    if refs != NULL {
      res := Dereference(m, tc, refs, r, keep, zone);
      return;
    }
    var loop := LoopFlag(m, tc);
    if loop {
      return 0;
    }
    ghost var s := m.heap;
    var d := DestructorOf(m, tc);
    if d == Running {
      return -1;
    }
    if d != NoDestructor {
      var rc := RunDestructor(m, tc, d);
      if rc == -1 {
        return -1;
      }
    }
    OpenedReady(s, tc, r, keep, zone);
    OpenedFrom(s, tc);
    OpenedActive(s, tc);
    Detach(m, tc);
    Flag(m, tc);
    FreeChildren(m, tc, r, keep, zone);
    FreeDone(s, m.heap, tc, r, keep, zone);
    Release(m, tc);
    return 0;
  }

  lemma DropResult(s: Heap, t: Heap, h: Ptr, r: Ptr -> nat, keep: set<Ptr>, res: int)
    requires Wf(s) && Settled(s) && IsHandle(s, h) && Wf(t) && FreeSpec(s, t, h, r, keep, res)
    ensures res == 0 && t == DropHandle(s, h) && Active(t) < Active(s)
  {
    assert s.refs[h] == [] && !s.loop[h] && s.dtor[h] == ReleasesReference by { assert s.target[h] != NULL; }
    DropHandleIs(s, h);
    var S, T := set x | x in s.live && !s.loop[x], set x | x in t.live && !t.loop[x];
    forall x | x in T ensures x in S { assert x in t.live; }
    assert h in S && h !in T;
    SetSize(T, S);
  }

  /** The branch of _talloc_free for a referenced chunk. */
  method Dereference(m: Memory, tc: Ptr, refs: Ptr, ghost r: Ptr -> nat, ghost keep: set<Ptr>, ghost zone: set<Ptr>)
      returns (res: int)
    requires m.Linked() && CanFree(m.heap, tc, r, keep, zone) && m.heap.refs[tc] != [] && refs == m.heap.refs[tc][0]
    modifies m
    ensures m.Linked() && FreeSpec(old(m.heap), m.heap, tc, r, keep, res) && Spared(old(m.heap), m.heap, zone)
    decreases Active(m.heap), if IsHandle(m.heap, tc) then 0 else 1, 0
  {
    ghost var s := m.heap;
    RefRowFacts(s, tc, 0);
    assert !IsHandle(s, tc);
    ReferenceRooted(s, r, zone, refs);
    var isChild := IsParent(m, refs, tc, r);
    var rc := Free(m, refs, r, keep, zone);
    DropResult(s, m.heap, refs, r, keep, rc);
    DropSpared(s, refs, zone);
    if isChild {
      DropCanFree(s, tc, refs, r, keep, zone);
      DropHandleIs(s, refs);
      ghost var u := m.heap;
      res := Free(m, tc, r, keep, zone);
      SparedTrans(s, u, m.heap, zone);
      return;
    }
    return -1;
  }
}
