/** Which calls keep the heap a forest with an owner graph without cycles: talloc_steal and
    talloc_reference of lib/talloc/talloc.c do exactly when the new owner is not itself
    owned, over any number of steps, by the chunk it is to own. */
module TallocForest {
  import opened TallocHeap
  import opened TallocWalks
  import opened TallocAlloc
  import opened TallocSweep
  import opened TallocSweepSteps
  import opened TallocFreeTheorems

  /** The owner graph has no cycle. */
  ghost predicate Acyclic(s: Heap)
    requires Domains(s)
  {
    exists r: Ptr -> nat :: OwnersRanked(s, r, NULL)
  }

  // ---------- reaching over owners ----------

  /** o is the parent of x or holds a reference to x. */
  ghost predicate Edge(s: Heap, o: Ptr, x: Ptr)
    requires Domains(s)
  {
    o in s.live && x in s.live && (s.up[x] == o || Holds(s, o, x))
  }

  ghost predicate ReachesIn(s: Heap, c: Ptr, x: Ptr, n: nat)
    requires Domains(s)
    decreases n
  {
    if n == 0 then x == c else exists o :: ReachesIn(s, c, o, n - 1) && Edge(s, o, x)
  }

  /** x is c or is owned, over any number of steps, by c. */
  ghost predicate Reaches(s: Heap, c: Ptr, x: Ptr)
    requires Domains(s)
  {
    exists n: nat :: ReachesIn(s, c, x, n)
  }

  lemma ReachesStep(s: Heap, c: Ptr, o: Ptr, x: Ptr)
    requires Domains(s) && Reaches(s, c, o) && Edge(s, o, x)
    ensures Reaches(s, c, x)
  {
    var n: nat :| ReachesIn(s, c, o, n);
    assert ReachesIn(s, c, x, n + 1);
  }

  /** When p is not reached from c, ranks can be chosen so that p ranks below c. */
  lemma LiftRank(s: Heap, r: Ptr -> nat, c: Ptr, p: Ptr) returns (q: Ptr -> nat)
    requires AtRest(s) && Held(s) && OwnersRanked(s, r, NULL) && !Reaches(s, c, p)
    ensures OwnersRanked(s, q, NULL) && q(p) < q(c)
  {
    q := x => if Reaches(s, c, x) then r(x) + r(p) + 1 else r(x);
    assert ReachesIn(s, c, c, 0);
    assert Reaches(s, c, c) && q(c) == r(c) + r(p) + 1 && q(p) == r(p);
    forall x | x in s.live
      ensures Anchored(s, x) && (Above(s, x) != NULL ==> Above(s, x) in s.live && q(Above(s, x)) < q(x))
    {
      var o := s.up[x];
      assert s.place[x] == InList && Above(s, x) == o;
      if o != NULL && Reaches(s, c, o) { ReachesStep(s, c, o, x); }
    }
    forall h | h in s.live && s.target[h] != NULL ensures q(s.up[h]) < q(s.target[h]) {
      var o, x := s.up[h], s.target[h];
      assert h in s.refs[x];
      if Reaches(s, c, o) { ReachesStep(s, c, o, x); }
    }
  }

  /** Edges other than those to c are in t as well. */
  ghost predicate KeepsEdges(s: Heap, t: Heap, c: Ptr)
    requires Domains(s) && Domains(t)
  {
    forall o, x {:trigger Edge(s, o, x)} :: x != c && Edge(s, o, x) ==> Edge(t, o, x)
  }

  lemma EdgeRank(s: Heap, r: Ptr -> nat, o: Ptr, x: Ptr)
    requires AtRest(s) && OwnersRanked(s, r, NULL) && Edge(s, o, x)
    ensures r(o) < r(x)
  {
    assert s.place[x] == InList && Above(s, x) == s.up[x];
    if s.up[x] != o {
      var h :| h in s.refs[x] && h in s.live && s.up[h] == o;
      assert s.target[h] == x;
    }
  }

  /** Every edge goes up in rank. */
  ghost predicate EdgesClimb(s: Heap, r: Ptr -> nat)
    requires Domains(s)
  {
    forall o, x {:trigger Edge(s, o, x)} :: Edge(s, o, x) ==> r(o) < r(x)
  }

  lemma RankedEdges(s: Heap, r: Ptr -> nat)
    requires AtRest(s) && OwnersRanked(s, r, NULL)
    ensures EdgesClimb(s, r)
  {
    forall o, x | Edge(s, o, x) ensures r(o) < r(x) { EdgeRank(s, r, o, x); }
  }

  lemma {:induction false} ReachRank(s: Heap, t: Heap, r: Ptr -> nat, q: Ptr -> nat, c: Ptr, x: Ptr, n: nat)
    requires Domains(s) && Domains(t) && EdgesClimb(s, r) && EdgesClimb(t, q)
    requires KeepsEdges(s, t, c) && ReachesIn(s, c, x, n)
    ensures r(c) <= r(x) && q(c) <= q(x)
    decreases n
  {
    if n > 0 {
      var o :| ReachesIn(s, c, o, n - 1) && Edge(s, o, x);
      ReachRank(s, t, r, q, c, o, n - 1);
      assert r(o) < r(x);
      assert Edge(t, o, x);
    }
  }

  /** If t keeps the edges of s and also has one from p, which c reaches in s, to c, then
      its owner graph has a cycle. */
  lemma NoWayBack(s: Heap, t: Heap, c: Ptr, p: Ptr)
    requires AtRest(s) && Acyclic(s) && AtRest(t) && Acyclic(t) && KeepsEdges(s, t, c) && Reaches(s, c, p)
    ensures !Edge(t, p, c)
  {
    var r: Ptr -> nat :| OwnersRanked(s, r, NULL);
    var q: Ptr -> nat :| OwnersRanked(t, q, NULL);
    RankedEdges(s, r);
    RankedEdges(t, q);
    var n: nat :| ReachesIn(s, c, p, n);
    ReachRank(s, t, r, q, c, p, n);
  }

  // ---------- good heaps ----------

  /** What every operation is to keep: all links as the forest and the references demand,
      no free under way, every reference held by some chunk, and no cycle of owners. */
  ghost predicate Good(s: Heap) {
    AtRest(s) && Held(s) && Acyclic(s)
  }

  lemma AllocatedIs(s: Heap, c: Ptr, p: Ptr, size: nat)
    requires AtRest(s) && c !in s.live && c != NULL && (p == NULL || (p in s.live && !IsHandle(s, p)))
    ensures var t := Allocated(s, c, p, size);
            && AtRest(t) && t.live == s.live + {c} && t.up[c] == p && t.target[c] == NULL && t.refs[c] == []
            && t.kids[c] == []
            && forall x {:trigger x in t.live} :: x in t.live && x != c ==>
                 t.up[x] == s.up[x] && t.target[x] == s.target[x] && t.refs[x] == s.refs[x]
  {
    var t := Allocated(s, c, p, size);
    AllocatedWf(s, c, p, size);
    forall x | x in t.live ensures t.place[x] == InList && !t.loop[x] {
      if x != c { assert s.place[x] == InList && !s.loop[x]; }
    }
  }

  /** q ranks s and puts the new chunk c above its parent. */
  ghost predicate Extends(s: Heap, r: Ptr -> nat, q: Ptr -> nat, c: Ptr, p: Ptr) {
    q(c) == (if p == NULL then 0 else r(p) + 1) && forall x {:trigger q(x)} :: x != c ==> q(x) == r(x)
  }

  /** Nothing is unlinked. */
  ghost predicate AllListed(s: Heap)
    requires Domains(s)
  {
    forall x {:trigger s.place[x]} :: x in s.live ==> s.place[x] == InList
  }

  /** t has the new chunk c below p, and is otherwise like s as far as parents go. */
  ghost predicate GrownBy(s: Heap, t: Heap, c: Ptr, p: Ptr)
    requires Domains(s) && Domains(t)
  {
    && c !in s.live && t.live == s.live + {c} && t.up[c] == p && (p == NULL || p in s.live)
    && forall x {:trigger t.up[x]} :: x in s.live ==> t.up[x] == s.up[x]
  }

  lemma GrownClimbs(s: Heap, t: Heap, c: Ptr, p: Ptr, r: Ptr -> nat, q: Ptr -> nat)
    requires Domains(s) && Domains(t) && AllListed(s) && AllListed(t) && Climbs(s, r) && Extends(s, r, q, c, p)
             && GrownBy(s, t, c, p)
    ensures Climbs(t, q)
  {
    forall x | x in t.live
      ensures Anchored(t, x) && (Above(t, x) != NULL ==> Above(t, x) in t.live && q(Above(t, x)) < q(x))
    {
      assert t.place[x] == InList && Above(t, x) == t.up[x];
      if x != c { assert s.place[x] == InList && Anchored(s, x) && Above(s, x) == s.up[x]; }
    }
  }

  lemma AllocatedRanked(s: Heap, c: Ptr, p: Ptr, size: nat, r: Ptr -> nat, q: Ptr -> nat)
    requires AtRest(s) && Held(s) && OwnersRanked(s, r, NULL) && Extends(s, r, q, c, p)
    requires c !in s.live && c != NULL && (p == NULL || (p in s.live && !IsHandle(s, p)))
    ensures AtRest(Allocated(s, c, p, size)) && Held(Allocated(s, c, p, size))
            && OwnersRanked(Allocated(s, c, p, size), q, NULL)
  {
    var t := Allocated(s, c, p, size);
    AllocatedIs(s, c, p, size);
    forall x | x in s.live ensures t.up[x] == s.up[x] { assert x in t.live; }
    GrownClimbs(s, t, c, p, r, q);
    forall h | h in t.live && t.target[h] != NULL ensures t.up[h] != NULL && q(t.up[h]) < q(t.target[h]) {
      assert s.target[h] == t.target[h] && h != c && t.target[h] != c;
    }
  }

  lemma AllocatedGood(s: Heap, c: Ptr, p: Ptr, size: nat)
    requires Good(s) && c !in s.live && c != NULL && (p == NULL || (p in s.live && !IsHandle(s, p)))
    ensures Good(Allocated(s, c, p, size))
  {
    var r: Ptr -> nat :| OwnersRanked(s, r, NULL);
    var q: Ptr -> nat := x => if x == c then (if p == NULL then 0 else r(p) + 1) else r(x);
    assert Extends(s, r, q, c, p);
    AllocatedRanked(s, c, p, size, r, q);
  }

  // ---------- talloc_steal ----------

  lemma StolenRest(s: Heap, c: Ptr, p: Ptr)
    requires AtRest(s) && Held(s) && c in s.live && s.target[c] == NULL
             && (p == NULL || (p in s.live && !IsHandle(s, p)))
    ensures AtRest(Stolen(s, c, p)) && Held(Stolen(s, c, p))
  {
    assert s.place[c] == InList;
    if p != c {
      StolenIs(s, c, p);
      var t := Stolen(s, c, p);
      forall x | x in t.live ensures t.place[x] == InList && !t.loop[x] {
        assert s.place[x] == InList && !s.loop[x];
      }
      forall h | h in t.live && t.target[h] != NULL ensures t.up[h] != NULL {
        assert s.target[h] != NULL;
      }
    }
  }

  lemma StolenRanked(s: Heap, c: Ptr, p: Ptr, q: Ptr -> nat)
    requires AtRest(s) && Held(s) && OwnersRanked(s, q, NULL) && c in s.live && s.target[c] == NULL
    requires p == NULL || (p in s.live && !IsHandle(s, p) && q(p) < q(c))
    ensures Wf(Stolen(s, c, p)) && OwnersRanked(Stolen(s, c, p), q, NULL)
  {
    var t := Stolen(s, c, p);
    StolenRest(s, c, p);
    assert s.place[c] == InList;
    StolenIs(s, c, p);
    forall x | x in t.live
      ensures Anchored(t, x) && (Above(t, x) != NULL ==> Above(t, x) in t.live && q(Above(t, x)) < q(x))
    {
      assert Anchored(s, x) && s.place[x] == InList && t.place[x] == InList && Above(s, x) == s.up[x];
    }
    forall h | h in t.live && t.target[h] != NULL ensures q(t.up[h]) < q(t.target[h]) {
      assert s.target[h] == t.target[h];
    }
  }

  lemma StolenKeepsEdges(s: Heap, c: Ptr, p: Ptr)
    requires AtRest(s) && c in s.live && s.target[c] == NULL
             && (p == NULL || (p in s.live && !IsHandle(s, p) && p != c))
    ensures Wf(Stolen(s, c, p)) && KeepsEdges(s, Stolen(s, c, p), c)
  {
    var t := Stolen(s, c, p);
    assert s.place[c] == InList;
    StolenIs(s, c, p);
    forall o, x | x != c && Edge(s, o, x) ensures Edge(t, o, x) {
      assert x in t.live;
      if s.up[x] != o {
        var h :| h in s.refs[x] && h in s.live && s.up[h] == o;
        assert s.target[h] == x && h in t.live;
      }
    }
  }

  /** talloc_steal, which checks only for the chunk itself and its parent, keeps a heap good
      exactly when the new parent is not owned by the chunk. */
  lemma StealGoodIff(s: Heap, c: Ptr, p: Ptr)
    requires Good(s) && c in s.live && s.target[c] == NULL && (p == NULL || (p in s.live && !IsHandle(s, p)))
    ensures Good(Stolen(s, c, p)) <==> p == NULL || p == c || !Reaches(s, c, p)
  {
    var r: Ptr -> nat :| OwnersRanked(s, r, NULL);
    var t := Stolen(s, c, p);
    StolenRest(s, c, p);
    if p == c {
      assert t == s;
    } else if p == NULL {
      StolenRanked(s, c, p, r);
    } else if !Reaches(s, c, p) {
      var q := LiftRank(s, r, c, p);
      StolenRanked(s, c, p, q);
    } else if Acyclic(t) {
      StolenKeepsEdges(s, c, p);
      assert s.place[c] == InList;
      StolenIs(s, c, p);
      assert Edge(t, p, c);
      NoWayBack(s, t, c, p);
    }
  }

  // ---------- talloc_reference ----------

  ghost function Referenced(s: Heap, h: Ptr, o: Ptr, c: Ptr): Heap
    requires Domains(s) && o in s.live && c in s.live
  {
    Referring(Allocated(s, h, o, HANDLE_SIZE), h, c)
  }

  lemma ReferencedIs(s: Heap, h: Ptr, o: Ptr, c: Ptr)
    requires AtRest(s) && h !in s.live && h != NULL && o in s.live && c in s.live && !IsHandle(s, o) && !IsHandle(s, c)
    ensures var t := Referenced(s, h, o, c);
            && AtRest(t) && t.live == s.live + {h} && t.up[h] == o && t.target[h] == c && t.refs[c] == [h] + s.refs[c]
            && forall x {:trigger x in t.live} :: x in t.live && x != h ==>
                 && t.up[x] == s.up[x] && t.target[x] == s.target[x] && (x != c ==> t.refs[x] == s.refs[x])
  {
    var a, t := Allocated(s, h, o, HANDLE_SIZE), Referenced(s, h, o, c);
    AllocatedWf(s, h, o, HANDLE_SIZE);
    ReferringWf(a, h, c);
    forall x | x in t.live ensures t.place[x] == InList && !t.loop[x] {
      if x != h { assert s.place[x] == InList && !s.loop[x]; }
    }
  }

  lemma ReferencedRanked(s: Heap, h: Ptr, o: Ptr, c: Ptr, r: Ptr -> nat, q: Ptr -> nat)
    requires AtRest(s) && Held(s) && OwnersRanked(s, r, NULL) && r(o) < r(c) && Extends(s, r, q, h, o)
    requires h !in s.live && h != NULL && o in s.live && c in s.live && !IsHandle(s, o) && !IsHandle(s, c)
    ensures Held(Referenced(s, h, o, c)) && OwnersRanked(Referenced(s, h, o, c), q, NULL)
  {
    var t := Referenced(s, h, o, c);
    ReferencedIs(s, h, o, c);
    forall x | x in s.live ensures t.up[x] == s.up[x] { assert x in t.live; }
    GrownClimbs(s, t, h, o, r, q);
    forall g | g in t.live && t.target[g] != NULL ensures t.up[g] != NULL && q(t.up[g]) < q(t.target[g]) {
      if g != h { assert s.target[g] == t.target[g] && t.up[g] == s.up[g]; }
    }
  }

  lemma ReferencedKeepsEdges(s: Heap, h: Ptr, o: Ptr, c: Ptr)
    requires AtRest(s) && h !in s.live && h != NULL && o in s.live && c in s.live && !IsHandle(s, o) && !IsHandle(s, c)
    ensures Wf(Referenced(s, h, o, c)) && KeepsEdges(s, Referenced(s, h, o, c), NULL)
            && Edge(Referenced(s, h, o, c), o, c)
  {
    var t := Referenced(s, h, o, c);
    ReferencedIs(s, h, o, c);
    assert t.refs[c][0] == h && h in t.refs[c];
    forall a, x | Edge(s, a, x) ensures Edge(t, a, x) {
      assert x in t.live;
      if s.up[x] != a {
        var g :| g in s.refs[x] && g in s.live && s.up[g] == a;
        assert g in t.refs[x] && g in t.live;
      }
    }
  }

  lemma ReferenceKeeps(s: Heap, h: Ptr, o: Ptr, c: Ptr)
    requires Good(s) && h !in s.live && h != NULL && o in s.live && c in s.live && !IsHandle(s, o) && !IsHandle(s, c)
    requires !Reaches(s, c, o)
    ensures Good(Referenced(s, h, o, c))
  {
    var r: Ptr -> nat :| OwnersRanked(s, r, NULL);
    var q := LiftRank(s, r, c, o);
    var u: Ptr -> nat := x => if x == h then q(o) + 1 else q(x);
    assert Extends(s, q, u, h, o);
    ReferencedRanked(s, h, o, c, q, u);
    ReferencedIs(s, h, o, c);
  }

  /** talloc_reference keeps a heap good exactly when the holder is not owned by what it is
      to hold. */
  lemma ReferenceGoodIff(s: Heap, h: Ptr, o: Ptr, c: Ptr)
    requires Good(s) && h !in s.live && h != NULL && o in s.live && c in s.live && !IsHandle(s, o) && !IsHandle(s, c)
    ensures Good(Referenced(s, h, o, c)) <==> !Reaches(s, c, o)
  {
    if !Reaches(s, c, o) {
      ReferenceKeeps(s, h, o, c);
    } else if Good(Referenced(s, h, o, c)) {
      ReferencedKeepsEdges(s, h, o, c);
      assert KeepsEdges(s, Referenced(s, h, o, c), c);
      NoWayBack(s, Referenced(s, h, o, c), c, o);
    }
  }

  // ---------- the forest alone ----------

  /** No free is under way and no chunk lies above itself. */
  ghost predicate Forest(s: Heap) {
    AtRest(s) && exists r: Ptr -> nat :: Climbs(s, r)
  }

  lemma {:induction false} InsideRank(s: Heap, r: Ptr -> nat, c: Ptr, x: Ptr, n: nat)
    requires AtRest(s) && Climbs(s, r) && c in s.live && x in s.live && AboveBy(s, x, n) == c
    ensures r(c) <= r(x) && (n > 0 ==> r(c) < r(x))
    decreases n
  {
    if n > 0 {
      var o := Above(s, x);
      assert Anchored(s, x);
      if o in s.live { InsideRank(s, r, c, o, n - 1); }
    }
  }

  lemma RankInside(s: Heap, r: Ptr -> nat, c: Ptr, x: Ptr)
    requires AtRest(s) && Climbs(s, r) && c in s.live && x in s.live && Contains(s, c, x)
    ensures r(c) <= r(x) && (x != c ==> r(c) < r(x))
  {
    var n: nat :| AboveBy(s, x, n) == c;
    InsideRank(s, r, c, x, n);
  }

  lemma StolenForest(s: Heap, c: Ptr, p: Ptr, r: Ptr -> nat) returns (q: Ptr -> nat)
    requires AtRest(s) && Climbs(s, r) && c in s.live
             && (p == NULL || (p in s.live && !IsHandle(s, p) && !Contains(s, c, p)))
    ensures AtRest(Stolen(s, c, p)) && Climbs(Stolen(s, c, p), q)
  {
    var t := Stolen(s, c, p);
    q := x => if x in s.live && Contains(s, c, x) then r(x) + r(p) + 1 else r(x);
    assert AboveBy(s, c, 0) == c && AboveBy(s, p, 0) == p;
    assert Contains(s, c, c);
    assert s.place[c] == InList;
    StolenIs(s, c, p);
    forall x | x in t.live ensures t.place[x] == InList && !t.loop[x] {
      assert s.place[x] == InList && !s.loop[x];
    }
    forall x | x in t.live
      ensures Anchored(t, x) && (Above(t, x) != NULL ==> Above(t, x) in t.live && q(Above(t, x)) < q(x))
    {
      assert Anchored(s, x) && s.place[x] == InList && t.place[x] == InList && Above(s, x) == s.up[x];
      if x != c { ContainsStep(s, c, x); }
    }
  }

  /** Stealing c does not change what lies above a chunk outside c's subtree. */
  lemma {:induction false} OutsideSteal(s: Heap, c: Ptr, p: Ptr, x: Ptr, n: nat)
    requires AtRest(s) && c in s.live && (p == NULL || (p in s.live && !IsHandle(s, p) && p != c))
    requires x == NULL || x in s.live
    requires forall i: nat {:trigger AboveBy(s, x, i)} :: i < n ==> AboveBy(s, x, i) != c
    ensures Wf(Stolen(s, c, p)) && AboveBy(Stolen(s, c, p), x, n) == AboveBy(s, x, n)
    decreases n
  {
    assert s.place[c] == InList;
    StolenIs(s, c, p);
    if n > 0 && x != NULL {
      var t := Stolen(s, c, p);
      assert AboveBy(s, x, 0) == x && x != c;
      assert s.place[x] == InList && t.place[x] == InList && t.up[x] == s.up[x];
      forall i: nat | i < n - 1
          ensures AboveBy(s, s.up[x], i) != c { assert AboveBy(s, x, i + 1) == AboveBy(s, s.up[x], i); }
      OutsideSteal(s, c, p, s.up[x], n - 1);
    }
  }

  ghost predicate FirstAt(s: Heap, x: Ptr, c: Ptr, n: nat)
    requires Domains(s)
  {
    AboveBy(s, x, n) == c && forall i: nat {:trigger AboveBy(s, x, i)} :: i < n ==> AboveBy(s, x, i) != c
  }

  lemma {:induction false} FirstMeeting(s: Heap, x: Ptr, c: Ptr, n: nat) returns (k: nat)
    requires Domains(s) && AboveBy(s, x, n) == c
    ensures FirstAt(s, x, c, k)
    decreases n
  {
    if i: nat :| i < n && AboveBy(s, x, i) == c {
      k := FirstMeeting(s, x, c, i);
    } else {
      k := n;
    }
  }

  /** talloc_steal keeps a forest a forest exactly when the new parent is not inside the
      subtree that is moved. */
  lemma StealForestIff(s: Heap, c: Ptr, p: Ptr)
    requires Forest(s) && c in s.live && (p == NULL || (p in s.live && !IsHandle(s, p)))
    ensures Forest(Stolen(s, c, p)) <==> p == NULL || p == c || !Contains(s, c, p)
  {
    var r: Ptr -> nat :| Climbs(s, r);
    var t := Stolen(s, c, p);
    assert s.place[c] == InList;
    if p == c {
      assert t == s;
    } else if p == NULL || !Contains(s, c, p) {
      var q := StolenForest(s, c, p, r);
    } else if Forest(t) {
      var q: Ptr -> nat :| Climbs(t, q);
      var n: nat :| AboveBy(s, p, n) == c;
      var k := FirstMeeting(s, p, c, n);
      OutsideSteal(s, c, p, p, k);
      StolenIs(s, c, p);
      assert Anchored(t, c) && t.place[c] == InList && Above(t, c) == p;
      InsideRank(t, q, c, p, k);
    }
  }
}
