/** Exactly what talloc_free removes: the chunks that no other root and no refusing chunk
    reaches over parents and references without passing the chunk that is freed. */
module TallocFreeTheorems {
  import opened TallocHeap
  import opened TallocLinks
  import opened TallocWalks
  import opened TallocAlloc
  import opened TallocSweep
  import opened TallocSweepSteps
  import opened TallocZones
  import opened TallocFree

  /** No free is under way. */
  ghost predicate AtRest(s: Heap) {
    Wf(s) && forall c {:trigger s.place[c]} {:trigger s.loop[c]} :: c in s.live ==> s.place[c] == InList && !s.loop[c]
  }

  // ---------- reachability ----------

  /** o owns the ordinary chunk x: it is x's parent, or holds a reference to x. */
  ghost predicate Owns(s: Heap, o: Ptr, x: Ptr)
    requires Domains(s)
  {
    o in s.live && x in s.live && s.target[x] == NULL && (s.up[x] == o || Holds(s, o, x))
  }

  /** x survives a free of c by itself: it is a root, or its destructor refuses. */
  ghost predicate Stands(s: Heap, c: Ptr, x: Ptr)
    requires Domains(s)
  {
    x in s.live && x != c && s.target[x] == NULL && (s.up[x] == NULL || Refusing(s, x))
  }

  /** A path of owners that starts at a chunk that stands by itself and does not pass c. */
  ghost predicate Path(s: Heap, c: Ptr, path: seq<Ptr>)
    requires Domains(s)
  {
    && path != [] && Stands(s, c, path[0])
    && forall i {:trigger path[i]} :: 0 < i < |path| ==> path[i] != c && Owns(s, path[i - 1], path[i])
  }

  ghost predicate Survives(s: Heap, c: Ptr, x: Ptr)
    requires Domains(s)
  {
    exists path :: Path(s, c, path) && path[|path| - 1] == x
  }

  ghost function Survivors(s: Heap, c: Ptr): set<Ptr>
    requires Domains(s)
  {
    set x | x in s.live && Survives(s, c, x)
  }

  lemma StandingSurvives(s: Heap, c: Ptr, x: Ptr)
    requires Domains(s) && Stands(s, c, x)
    ensures Survives(s, c, x)
  {
    assert Path(s, c, [x]);
  }

  lemma OwnedSurvives(s: Heap, c: Ptr, o: Ptr, x: Ptr)
    requires Domains(s) && Survives(s, c, o) && Owns(s, o, x) && x != c
    ensures Survives(s, c, x)
  {
    var path :| Path(s, c, path) && path[|path| - 1] == o;
    var longer := path + [x];
    forall i | 0 < i < |longer| ensures longer[i] != c && Owns(s, longer[i - 1], longer[i]) {
      if i < |path| { assert path[i] != c && Owns(s, path[i - 1], path[i]); }
    }
    assert Path(s, c, longer) && longer[|longer| - 1] == x;
  }

  /** A survivor stands by itself or has an owner that survives. */
  lemma SurvivorOwner(s: Heap, c: Ptr, x: Ptr)
    requires Domains(s) && Survives(s, c, x)
    ensures x in s.live && x != c && s.target[x] == NULL
    ensures Stands(s, c, x) || exists o :: Survives(s, c, o) && Owns(s, o, x)
  {
    var path :| Path(s, c, path) && path[|path| - 1] == x;
    var n := |path| - 1;
    if n > 0 {
      assert path[n] != c && Owns(s, path[n - 1], path[n]);
      var shorter := path[..n];
      forall i | 0 < i < |shorter| ensures shorter[i] != c && Owns(s, shorter[i - 1], shorter[i]) {
        assert path[i] != c && Owns(s, path[i - 1], path[i]);
      }
      assert Path(s, c, shorter) && shorter[|shorter| - 1] == path[n - 1];
    }
  }

  // ---------- the survivors support one another ----------

  lemma KeptHolds(s: Heap, q: seq<Ptr>, h: Ptr, keep: set<Ptr>)
    requires Domains(s) && h in q && h in s.live && s.up[h] in keep
    ensures Kept(s, q, keep) != []
  {
    var g := q[0];
    if g != h || !(g in s.live && s.up[g] in keep) { KeptHolds(s, q[1..], h, keep); }
  }

  lemma SurvivorsSupported(s: Heap, c: Ptr)
    requires Wf(s)
    ensures Supported(s, Survivors(s, c)) && c !in Survivors(s, c)
  {
    var keep := Survivors(s, c);
    if Survives(s, c, c) { SurvivorOwner(s, c, c); }
    forall k | k in keep
      ensures k in s.live && s.target[k] == NULL
              && (s.up[k] == NULL || s.up[k] in keep || Refusing(s, k) || Kept(s, s.refs[k], keep) != [])
    {
      SurvivorOwner(s, c, k);
      if !Stands(s, c, k) {
        var o :| Survives(s, c, o) && Owns(s, o, k);
        assert o in keep;
        if s.up[k] != o {
          var h :| h in s.refs[k] && h in s.live && s.up[h] == o;
          KeptHolds(s, s.refs[k], h, keep);
        }
      }
    }
  }

  // ---------- nothing else survives ----------

  /** Every ordinary chunk that is left had a surviving owner or stands by itself. */
  lemma {:induction false} LeftSurvives(s: Heap, t: Heap, c: Ptr, r: Ptr -> nat, via: set<Ptr>, x: Ptr)
    requires AtRest(s) && Held(s) && OwnersRanked(s, r, c) && Wf(t) && Shrunk(s, t) && OwnersFrom(s, t, r, via)
    requires x in t.live && x != c && s.target[x] == NULL && (c !in t.live || t.kids[c] == [])
    ensures Survives(s, c, x)
    decreases r(x)
  {
    var o := t.up[x];
    if Refusing(s, x) || s.up[x] == NULL {
      StandingSurvives(s, c, x);
      return;
    }
    assert Anchored(s, x) && s.place[x] == InList && Above(s, x) == s.up[x];
    assert o == s.up[x] || Holds(s, o, x);
    if o != s.up[x] {
      var h :| h in s.refs[x] && h in s.live && s.up[h] == o;
      assert s.target[h] == x;
    }
    assert o != NULL && x in t.kids[o];
    assert o in t.live && o != c && t.target[o] == s.target[o];
    LeftSurvives(s, t, c, r, via, o);
    OwnedSurvives(s, c, o, x);
  }

  // ---------- the theorem about one free ----------

  /** t is s after c has been freed: of the ordinary chunks exactly the survivors are left,
      what is not a link is unchanged, and the owners of each survivor are conserved. */
  ghost predicate FreedExactly(s: Heap, t: Heap, c: Ptr)
    requires Domains(s) && Domains(t) && c in s.live
  {
    && c !in t.live
    && Shrunk(s, t)
    && (forall x :: x in s.live && s.target[x] == NULL ==> (x in t.live <==> Survives(s, c, x)))
    && Conserved(s, t, Survivors(s, c), s.up[c])
    && KidsKept(s, t, Survivors(s, c), {s.up[c]})
  }

  lemma FreedIsExact(s: Heap, t: Heap, c: Ptr, r: Ptr -> nat)
    requires AtRest(s) && Held(s) && OwnersRanked(s, r, c) && c in s.live && s.target[c] == NULL && Wf(t)
    requires Freed(s, t, c, r, Survivors(s, c))
    ensures FreedExactly(s, t, c)
    ensures AtRest(t) && Held(t) && OwnersRanked(t, r, NULL)
  {
    forall x | x in s.live && s.target[x] == NULL ensures x in t.live <==> Survives(s, c, x) {
      if x in t.live { LeftSurvives(s, t, c, r, {s.up[c]}, x); }
      if Survives(s, c, x) { assert x in Survivors(s, c); }
    }
    RestAfter(s, t, c, r, {s.up[c]});
  }

  lemma RankedStill(s: Heap, t: Heap, c: Ptr, r: Ptr -> nat, via: set<Ptr>, x: Ptr)
    requires AtRest(s) && Held(s) && OwnersRanked(s, r, c) && Wf(t) && Shrunk(s, t) && OwnersFrom(s, t, r, via)
    requires (c !in t.live || OwnersRanked(s, r, NULL)) && x in t.live
    ensures t.place[x] == InList && !t.loop[x] && (t.up[x] != NULL ==> t.up[x] in t.live && r(t.up[x]) < r(x))
  {
    assert t.place[x] == s.place[x] && s.place[x] == InList && t.loop[x] == s.loop[x] && Above(s, x) == s.up[x];
    var o := t.up[x];
    if o != NULL && o != s.up[x] && Holds(s, o, x) {
      var h :| h in s.refs[x] && h in s.live && s.up[h] == o;
      assert s.target[h] == x;
    }
  }

  /** A heap at rest is again at rest, and its owner graph is still without cycles. */
  lemma RestAfter(s: Heap, t: Heap, c: Ptr, r: Ptr -> nat, via: set<Ptr>)
    requires AtRest(s) && Held(s) && OwnersRanked(s, r, c) && Wf(t) && Shrunk(s, t) && OwnersFrom(s, t, r, via)
    requires c !in t.live || OwnersRanked(s, r, NULL)
    ensures AtRest(t) && Held(t) && OwnersRanked(t, r, NULL)
  {
    forall x | x in t.live
      ensures t.place[x] == InList && !t.loop[x] && Anchored(t, x)
              && (Above(t, x) != NULL ==> Above(t, x) in t.live && r(Above(t, x)) < r(x))
    {
      RankedStill(s, t, c, r, via, x);
    }
    forall h | h in t.live && t.target[h] != NULL
      ensures t.up[h] != NULL && r(t.up[h]) < r(t.target[h])
    {
      assert t.target[h] == s.target[h] && t.up[h] == s.up[h];
    }
  }

  // ---------- references to the freed chunk itself ----------

  /** The heap when the references to c that are held by c or from below, newest first, are
      gone, and with them the first that is held from elsewhere, if there is one. */
  ghost function Dereferenced(s: Heap, c: Ptr): (t: Heap)
    requires Wf(s) && c in s.live
    ensures Wf(t) && c in t.live
    decreases s.live
  {
    if s.refs[c] == [] then s
    else
      RefRowFacts(s, c, 0);
      var h := s.refs[c][0];
      DropHandleIs(s, h);
      assert c in DropHandle(s, h).live;
      assert DropHandle(s, h).live < s.live by { assert h in s.live && h !in DropHandle(s, h).live; }
      if Contains(s, c, h) then Dereferenced(DropHandle(s, h), c) else DropHandle(s, h)
  }

  /** References to c itself carry nobody else. */
  lemma SurvivesDrop(s: Heap, c: Ptr, h: Ptr, x: Ptr)
    requires Wf(s) && IsHandle(s, h) && s.target[h] == c
    ensures Wf(DropHandle(s, h)) && (Survives(s, c, x) <==> Survives(DropHandle(s, h), c, x))
  {
    var u := DropHandle(s, h);
    DropHandleIs(s, h);
    if Survives(s, c, x) {
      var path :| Path(s, c, path) && path[|path| - 1] == x;
      PathDrop(s, c, h, path, s, u);
    }
    if Survives(u, c, x) {
      var path :| Path(u, c, path) && path[|path| - 1] == x;
      PathDrop(s, c, h, path, u, s);
    }
  }

  lemma PathDrop(s: Heap, c: Ptr, h: Ptr, path: seq<Ptr>, a: Heap, b: Heap)
    requires Wf(s) && IsHandle(s, h) && s.target[h] == c
    requires (a == s && b == DropHandle(s, h)) || (a == DropHandle(s, h) && b == s)
    requires Wf(a) && Wf(b) && Path(a, c, path)
    ensures Path(b, c, path)
  {
    var u := DropHandle(s, h);
    DropHandleIs(s, h);
    assert Stands(b, c, path[0]) by {
      assert path[0] in u.live;
    }
    forall i | 0 < i < |path| ensures path[i] != c && Owns(b, path[i - 1], path[i]) {
      assert path[i] != c && Owns(a, path[i - 1], path[i]);
      OwnsDrop(s, c, h, path[i - 1], path[i]);
    }
  }

  lemma OwnsDrop(s: Heap, c: Ptr, h: Ptr, o: Ptr, x: Ptr)
    requires Wf(s) && IsHandle(s, h) && s.target[h] == c && x != c
    ensures Wf(DropHandle(s, h)) && (Owns(s, o, x) <==> Owns(DropHandle(s, h), o, x))
  {
    var u := DropHandle(s, h);
    DropHandleIs(s, h);
    if Owns(s, o, x) {
      assert x in u.live;
      if s.up[x] != o {
        var g :| g in s.refs[x] && g in s.live && s.up[g] == o;
        assert s.target[g] == x && g in u.live && u.up[g] == o;
        assert o in s.kids.Keys && g in s.kids[o];
      } else {
        assert x in s.kids[o];
      }
      assert o in u.live;
    }
    if Owns(u, o, x) {
      assert x in u.live && o in u.live;
      if u.up[x] != o {
        var g :| g in u.refs[x] && g in u.live && u.up[g] == o;
        assert g in s.refs[x];
      }
    }
  }

  lemma RestSound(s: Heap, c: Ptr, r: Ptr -> nat)
    requires AtRest(s) && Held(s) && OwnersRanked(s, r, c)
    ensures Sound(s, r, c) && DyingBelow(s, r, 0)
    ensures forall x :: x in s.live ==> Inner(s, r, x)
  {
    assert forall x :: x in s.live ==> s.place[x] == InList && !s.loop[x];
  }

  lemma SameSurvivors(s: Heap, c: Ptr, h: Ptr)
    requires Wf(s) && IsHandle(s, h) && s.target[h] == c
    ensures Wf(DropHandle(s, h)) && Survivors(s, c) == Survivors(DropHandle(s, h), c)
  {
    var u := DropHandle(s, h);
    DropHandleIs(s, h);
    forall x ensures x in Survivors(s, c) <==> x in Survivors(u, c) {
      SurvivesDrop(s, c, h, x);
      if Survives(s, c, x) { SurvivorOwner(s, c, x); }
      if Survives(u, c, x) { SurvivorOwner(u, c, x); }
    }
  }

  lemma ConservedDrop(s: Heap, t: Heap, c: Ptr, h: Ptr, keep: set<Ptr>, sink: Ptr)
    requires Wf(s) && IsHandle(s, h) && s.target[h] == c && Wf(t) && Wf(DropHandle(s, h)) && keep == Survivors(s, c)
    requires Conserved(DropHandle(s, h), t, keep, sink)
    ensures Conserved(s, t, keep, sink)
  {
    var u := DropHandle(s, h);
    DropHandleIs(s, h);
    forall k | k in keep ensures k in s.live && k in t.live && Conserves(s, t, k, keep, sink) {
      SurvivorOwner(s, c, k);
      KeptDrop(s, h, k, keep);
      assert k in u.live && Conserves(u, t, k, keep, sink);
      var A := Kept(s, s.refs[k], keep);
      if A != [] {
        var g := A[0];
        assert g in A && s.target[g] == k && g in u.live;
      }
    }
  }

  lemma KidsKeptDrop(s: Heap, t: Heap, c: Ptr, h: Ptr, keep: set<Ptr>, via: set<Ptr>)
    requires Wf(s) && IsHandle(s, h) && s.target[h] == c && Wf(t) && Wf(DropHandle(s, h))
    requires KidsKept(DropHandle(s, h), t, keep, via) && h !in keep
    ensures KidsKept(s, t, keep, via)
  {
    var u := DropHandle(s, h);
    DropHandleIs(s, h);
    forall k | k in keep && k !in via && k in s.live && k in t.live && !HoldsReference(s, k)
        ensures t.kids[k] == s.kids[k] {
      assert s.up[h] == NULL || h in s.kids[s.up[h]];
      assert k in u.live && u.kids[k] == s.kids[k];
      forall g | g in u.kids[k] ensures !IsHandle(u, g) {
        assert !IsHandle(s, g);
        if g in u.live { assert u.target[g] == s.target[g]; }
      }
      assert !HoldsReference(u, k);
    }
  }

  lemma ShrunkDrop(s: Heap, t: Heap, h: Ptr)
    requires Wf(s) && IsHandle(s, h) && Wf(t) && Wf(DropHandle(s, h)) && Shrunk(DropHandle(s, h), t)
    ensures Shrunk(s, t)
  {
    var u := DropHandle(s, h);
    DropHandleIs(s, h);
    forall x | x in t.live
      ensures t.target[x] == s.target[x] && t.dtor[x] == s.dtor[x] && t.size[x] == s.size[x]
              && t.loop[x] == s.loop[x] && t.place[x] == s.place[x]
    {
      assert x in u.live && t.target[x] == u.target[x];
    }
  }

  /** What is left after a reference to c from below has been cut. */
  lemma ExactAfterDrop(s: Heap, t: Heap, c: Ptr, h: Ptr)
    requires Wf(s) && IsHandle(s, h) && s.target[h] == c && Wf(t)
    requires Wf(DropHandle(s, h)) && c in DropHandle(s, h).live && FreedExactly(DropHandle(s, h), t, c)
    ensures FreedExactly(s, t, c)
  {
    var u := DropHandle(s, h);
    DropHandleIs(s, h);
    SameSurvivors(s, c, h);
    ConservedDrop(s, t, c, h, Survivors(s, c), s.up[c]);
    assert h !in Survivors(s, c) by { if Survives(s, c, h) { SurvivorOwner(s, c, h); } }
    KidsKeptDrop(s, t, c, h, Survivors(s, c), {s.up[c]});
    ShrunkDrop(s, t, h);
    forall x | x in s.live && s.target[x] == NULL ensures x in t.live <==> Survives(s, c, x) {
      SurvivesDrop(s, c, h, x);
      assert x in u.live;
    }
  }

  /** The heap in which a free starts again once a reference from below is gone. */
  lemma DropRest(s: Heap, c: Ptr, h: Ptr, r: Ptr -> nat)
    requires AtRest(s) && Held(s) && OwnersRanked(s, r, c) && c in s.live && s.target[c] == NULL && IsHandle(s, h)
             && s.target[h] == c
    ensures var u := DropHandle(s, h);
            && AtRest(u) && Held(u) && OwnersRanked(u, r, c) && c in u.live && u.target[c] == NULL && u.live < s.live
            && Survivors(s, c) == Survivors(u, c) && (Refusing(u, c) <==> Refusing(s, c))
  {
    var u := DropHandle(s, h);
    DropHandleIs(s, h);
    assert h in s.live && h !in u.live && c in u.live;
    RestSound(s, c, r);
    DropSound(s, h, r, c);
    forall x | x in u.live ensures u.place[x] == InList && !u.loop[x] {
      assert s.place[x] == InList && !s.loop[x];
    }
    SameSurvivors(s, c, h);
  }

  /** talloc_free answers 0 exactly when no reference from elsewhere and no refusal stands in
      its way, and has then removed exactly what does not survive. */
  lemma {:induction false} FreeSpecMeans(s: Heap, t: Heap, c: Ptr, r: Ptr -> nat, keep: set<Ptr>, res: int)
    requires AtRest(s) && Held(s) && OwnersRanked(s, r, c) && c in s.live && s.target[c] == NULL && Wf(t)
    requires keep == Survivors(s, c) && FreeSpec(s, t, c, r, keep, res)
    ensures if OwnRefsOnly(s, c) && !Refusing(s, c)
            then res == 0 && FreedExactly(s, t, c) && AtRest(t) && Held(t) && OwnersRanked(t, r, NULL)
            else res == -1 && t == Dereferenced(s, c)
    decreases s.live
  {
    if s.refs[c] != [] {
      RefRowFacts(s, c, 0);
      var h := s.refs[c][0];
      var u := DropHandle(s, h);
      DropRest(s, c, h, r);
      if Contains(s, c, h) {
        FreeSpecMeans(u, t, c, r, keep, res);
        if OwnRefsOnly(u, c) && !Refusing(u, c) { ExactAfterDrop(s, t, c, h); }
      }
    } else {
      assert !s.loop[c];
      if !Refusing(s, c) { FreedIsExact(s, t, c, r); }
    }
  }

  /** talloc_free, in a heap where the references other than those to ptr make no cycle of
      owners, and where the left neighbour of ptr stays or will not be asked for. */
  method FreePtr(m: Memory, ptr: Ptr) returns (res: int)
    requires m.Linked() && AtRest(m.heap)
    requires ptr != NULL ==> Held(m.heap) && ptr in m.heap.live && !IsHandle(m.heap, ptr) && LeftOk(m.heap, ptr)
    requires ptr != NULL ==> exists r: Ptr -> nat :: OwnersRanked(m.heap, r, ptr)
    modifies m
    ensures m.Linked()
    ensures ptr == NULL ==> res == -1 && m.heap == old(m.heap)
    ensures ptr != NULL ==>
              if OwnRefsOnly(old(m.heap), ptr) && !Refusing(old(m.heap), ptr)
              then res == 0 && FreedExactly(old(m.heap), m.heap, ptr) && AtRest(m.heap) && Held(m.heap)
                   && exists r: Ptr -> nat :: OwnersRanked(m.heap, r, NULL)
              else res == -1 && m.heap == Dereferenced(old(m.heap), ptr)
  {
    if ptr == NULL {
      return -1;
    }
    ghost var s := m.heap;
    ghost var r: Ptr -> nat :| OwnersRanked(s, r, ptr);
    RestSound(s, ptr, r);
    SurvivorsSupported(s, ptr);
    ZoneStart(s, ptr);
    res := Free(m, ptr, r, Survivors(s, ptr), Below(s, ptr));
    FreeSpecMeans(s, m.heap, ptr, r, Survivors(s, ptr), res);
  }
}
