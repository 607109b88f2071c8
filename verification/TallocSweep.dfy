/** How a heap changes while talloc_free works: the relations between the heap before and
    the heap after, and the fact that each of them composes.

    Two parameters stay fixed through a whole run.  A rank shows that the owner graph, with
    an edge from a parent to its child and from the holder of a reference to its target,
    has no cycle.  A set `keep` of chunks that support one another is to survive. */
module TallocSweep {
  import opened TallocHeap
  import opened TallocWalks

  /** Every reference handle has a holder. */
  ghost predicate Held(s: Heap)
    requires Domains(s)
  {
    forall h {:trigger s.target[h]} :: h in s.live && s.target[h] != NULL ==> s.up[h] != NULL
  }

  /** The unlinked chunks are those being freed: flagged, unreferenced, and no handles. */
  ghost predicate Settled(s: Heap)
    requires Domains(s)
  {
    forall c {:trigger s.place[c]} {:trigger s.loop[c]} :: c in s.live ==>
      (s.place[c].Unlinked? <==> s.loop[c]) && (s.loop[c] ==> s.refs[c] == [] && s.target[c] == NULL)
  }

  /** Owners rank below what they own, references to `but` aside. */
  ghost predicate OwnersRanked(s: Heap, r: Ptr -> nat, but: Ptr)
    requires Domains(s)
  {
    && Climbs(s, r)
    && forall h {:trigger s.target[h]} :: h in s.live && s.target[h] != NULL && s.target[h] != but && s.up[h] != NULL ==>
         r(s.up[h]) < r(s.target[h])
  }

  // ---------- the relations ----------

  /** Chunks disappear, and the others keep all that is not a link. */
  ghost predicate Shrunk(s: Heap, t: Heap)
    requires Domains(s) && Domains(t)
  {
    && t.live <= s.live
    && forall x {:trigger t.target[x]} {:trigger t.dtor[x]} {:trigger t.size[x]} {:trigger t.loop[x]} {:trigger t.place[x]} :: x in t.live ==>
         t.target[x] == s.target[x] && t.dtor[x] == s.dtor[x] && t.size[x] == s.size[x]
         && t.loop[x] == s.loop[x] && t.place[x] == s.place[x]
  }

  /** o holds a reference to x. */
  ghost predicate Holds(s: Heap, o: Ptr, x: Ptr)
    requires Domains(s) && x in s.live
  {
    exists h :: h in s.refs[x] && h in s.live && s.up[h] == o
  }

  /** A parent is the old one, or was a holder, or took over a refusing chunk. */
  ghost predicate OwnersFrom(s: Heap, t: Heap, r: Ptr -> nat, via: set<Ptr>)
    requires Domains(s) && Domains(t)
  {
    && (forall x {:trigger t.up[x]} :: x in t.live ==>
          && x in s.live
          && (t.up[x] == s.up[x] || Holds(s, t.up[x], x) || (Refusing(s, x) && t.up[x] in via && (t.up[x] != NULL ==> r(t.up[x]) < r(x))))
          && (s.target[x] != NULL ==> t.up[x] == s.up[x]))
    && (forall x, h {:trigger h in t.refs[x]} :: x in t.live && h in t.refs[x] ==> x in s.live && h in s.refs[x])
  }

  /** Ordinary chunks that hang below nothing of rank lo or more stay where they are. */
  ghost predicate Untouched(s: Heap, t: Heap, r: Ptr -> nat, lo: nat, gone: Ptr)
    requires Domains(s) && Domains(t)
  {
    forall x {:trigger s.up[x]} :: x in s.live && x != gone && s.target[x] == NULL && (s.up[x] == NULL || r(s.up[x]) < lo) ==>
      x in t.live && t.up[x] == s.up[x]
  }

  /** The handles of q that are held by a chunk to be kept. */
  ghost function Kept(s: Heap, q: seq<Ptr>, keep: set<Ptr>): (k: seq<Ptr>)
    requires Domains(s)
    ensures forall h :: h in k ==> h in q && h in s.live && s.up[h] in keep
  {
    if q == [] then []
    else
      var h := q[0];
      (if h in s.live && s.up[h] in keep then [h] else []) + Kept(s, q[1..], keep)
  }

  /** The owners of k among the kept chunks are conserved: as long as its parent is kept
      nothing changes; if not, the parent may be replaced by another chunk to be freed, or
      by the holder of its newest kept reference, which that reference then is no longer,
      or, when no kept chunk refers to k, by the sink. */
  ghost predicate Conserves(s: Heap, t: Heap, k: Ptr, keep: set<Ptr>, sink: Ptr)
    requires Domains(s) && Domains(t) && k in s.live && k in t.live
  {
    var a, b := s.up[k], t.up[k];
    var A, B := Kept(s, s.refs[k], keep), Kept(t, t.refs[k], keep);
    if a == NULL || a in keep then b == a && B == A
    else
      || (b != NULL && b !in keep && B == A)
      || (A != [] && (var h := A[0]; h in s.live && b == s.up[h]) && B == A[1..])
      || (A == [] && B == [] && b == sink)
  }

  ghost predicate Conserved(s: Heap, t: Heap, keep: set<Ptr>, sink: Ptr)
    requires Domains(s) && Domains(t)
  {
    forall k {:trigger k in keep} :: k in keep ==> k in s.live && k in t.live && Conserves(s, t, k, keep, sink)
  }

  /** p has a reference handle among its children. */
  ghost predicate HoldsReference(s: Heap, p: Ptr)
    requires Domains(s) && p in s.live
  {
    exists h :: h in s.kids[p] && IsHandle(s, h)
  }

  /** A kept chunk that holds no references keeps its children, unless it is a sink. */
  ghost predicate KidsKept(s: Heap, t: Heap, keep: set<Ptr>, via: set<Ptr>)
    requires Domains(s) && Domains(t)
  {
    forall k {:trigger t.kids[k]} :: k in keep && k !in via && k in s.live && k in t.live && !HoldsReference(s, k) ==> t.kids[k] == s.kids[k]
  }

  /** Chunks to be kept are ordinary, and each is a root, or refuses to be freed, or has a
      kept owner. */
  ghost predicate Supported(s: Heap, keep: set<Ptr>)
    requires Domains(s)
  {
    forall k {:trigger k in keep} :: k in keep ==>
      k in s.live && s.target[k] == NULL
      && (s.up[k] == NULL || s.up[k] in keep || Refusing(s, k) || Kept(s, s.refs[k], keep) != [])
  }

  /** All the relations of one run: lo is the rank of the chunk being emptied, via the
      chunks that may adopt refusing ones, sink the last of these. */
  ghost predicate Swept(s: Heap, t: Heap, r: Ptr -> nat, lo: nat, gone: Ptr, keep: set<Ptr>, sink: Ptr, via: set<Ptr>)
    requires Domains(s) && Domains(t)
  {
    && Shrunk(s, t)
    && OwnersFrom(s, t, r, via)
    && Untouched(s, t, r, lo, gone)
    && Conserved(s, t, keep, sink)
    && KidsKept(s, t, keep, via)
  }

  // ---------- the relations compose ----------

  lemma ShrunkTrans(s: Heap, a: Heap, t: Heap)
    requires Domains(s) && Domains(a) && Domains(t) && Shrunk(s, a) && Shrunk(a, t)
    ensures Shrunk(s, t)
  {
    forall x | x in t.live
      ensures t.target[x] == s.target[x] && t.dtor[x] == s.dtor[x] && t.size[x] == s.size[x]
              && t.loop[x] == s.loop[x] && t.place[x] == s.place[x]
    {
      assert x in a.live;
      assert a.target[x] == s.target[x];
    }
  }

  lemma OwnersTrans(s: Heap, a: Heap, t: Heap, r: Ptr -> nat, via: set<Ptr>)
    requires Wf(s) && Wf(a) && Domains(t) && Shrunk(s, a) && OwnersFrom(s, a, r, via) && OwnersFrom(a, t, r, via)
    ensures OwnersFrom(s, t, r, via)
  {
    forall x | x in t.live
      ensures x in s.live && (t.up[x] == s.up[x] || Holds(s, t.up[x], x) || (Refusing(s, x) && t.up[x] in via && (t.up[x] != NULL ==> r(t.up[x]) < r(x))))
              && (s.target[x] != NULL ==> t.up[x] == s.up[x])
    {
      var o := t.up[x];
      assert x in a.live && x in s.live;
      assert a.dtor[x] == s.dtor[x] && a.target[x] == s.target[x];
      if o == a.up[x] {
        assert a.up[x] == s.up[x] || Holds(s, o, x) || (Refusing(s, x) && o in via && (o != NULL ==> r(o) < r(x)));
      } else if Holds(a, o, x) {
        var h :| h in a.refs[x] && h in a.live && a.up[h] == o;
        assert a.target[h] == x && a.up[h] == s.up[h];
        assert h in s.refs[x] && h in s.live;
      } else {
        assert Refusing(a, x);
        assert Refusing(s, x);
      }
    }
  }

  lemma UntouchedTrans(s: Heap, a: Heap, t: Heap, r: Ptr -> nat, lo: nat)
    requires Domains(s) && Domains(a) && Domains(t) && Shrunk(s, a)
    requires Untouched(s, a, r, lo, NULL) && Untouched(a, t, r, lo, NULL) && NULL !in s.live
    ensures Untouched(s, t, r, lo, NULL)
  {
    forall x | x in s.live && s.target[x] == NULL && (s.up[x] == NULL || r(s.up[x]) < lo)
      ensures x in t.live && t.up[x] == s.up[x]
    {
      assert a.up[x] == s.up[x];
      assert a.target[x] == s.target[x];
    }
  }

  lemma {:induction false} ConservesTrans(s: Heap, a: Heap, t: Heap, k: Ptr, keep: set<Ptr>, sink: Ptr)
    requires Domains(s) && Domains(a) && Domains(t) && k in s.live && k in a.live && k in t.live
    requires Conserves(s, a, k, keep, sink) && Conserves(a, t, k, keep, sink)
    requires var A := Kept(s, s.refs[k], keep); A != [] ==> var h := A[0]; h in s.live && s.up[h] in keep
    requires var B := Kept(a, a.refs[k], keep); B != [] ==> var h := B[0]; h in s.live && h in a.live && a.up[h] == s.up[h] && a.up[h] in keep
    ensures Conserves(s, t, k, keep, sink)
  {
  }

  lemma ConservedTrans(s: Heap, a: Heap, t: Heap, r: Ptr -> nat, keep: set<Ptr>, sink: Ptr, via: set<Ptr>)
    requires Wf(s) && Wf(a) && Domains(t) && Shrunk(s, a) && OwnersFrom(s, a, r, via)
    requires Conserved(s, a, keep, sink) && Conserved(a, t, keep, sink)
    ensures Conserved(s, t, keep, sink)
  {
    forall k | k in keep ensures k in s.live && k in t.live && Conserves(s, t, k, keep, sink) {
      var A, B := Kept(s, s.refs[k], keep), Kept(a, a.refs[k], keep);
      if B != [] {
        var h := B[0];
        assert h in B;
        assert a.target[h] == k && a.up[h] == s.up[h];
      }
      if A != [] {
        var h := A[0];
        assert h in A;
      }
      ConservesTrans(s, a, t, k, keep, sink);
    }
  }

  lemma KidsKeptTrans(s: Heap, a: Heap, t: Heap, keep: set<Ptr>, via: set<Ptr>)
    requires Wf(s) && Wf(a) && Domains(t) && Shrunk(s, a) && Shrunk(a, t)
    requires KidsKept(s, a, keep, via) && KidsKept(a, t, keep, via)
    ensures KidsKept(s, t, keep, via)
  {
    forall k | k in keep && k !in via && k in s.live && k in t.live && !HoldsReference(s, k)
        ensures t.kids[k] == s.kids[k] {
      assert k in a.live;
      assert a.kids[k] == s.kids[k];
      forall h | h in a.kids[k] ensures !IsHandle(a, h) {
        assert h in s.kids[k] && !IsHandle(s, h);
        assert a.target[h] == s.target[h];
      }
    }
  }

  lemma SweptTrans(s: Heap, a: Heap, t: Heap, r: Ptr -> nat, lo: nat, keep: set<Ptr>, sink: Ptr, via: set<Ptr>)
    requires Wf(s) && Wf(a) && Wf(t)
    requires Swept(s, a, r, lo, NULL, keep, sink, via) && Swept(a, t, r, lo, NULL, keep, sink, via)
    ensures Swept(s, t, r, lo, NULL, keep, sink, via)
  {
    ShrunkTrans(s, a, t);
    OwnersTrans(s, a, t, r, via);
    UntouchedTrans(s, a, t, r, lo);
    ConservedTrans(s, a, t, r, keep, sink, via);
    KidsKeptTrans(s, a, t, keep, via);
  }

  lemma SupportedAfter(s: Heap, t: Heap, keep: set<Ptr>, sink: Ptr)
    requires Wf(s) && Wf(t) && Shrunk(s, t) && Conserved(s, t, keep, sink) && Supported(s, keep)
    ensures Supported(t, keep)
  {
    forall k | k in keep
      ensures k in t.live && t.target[k] == NULL
              && (t.up[k] == NULL || t.up[k] in keep || Refusing(t, k) || Kept(t, t.refs[k], keep) != [])
    {
      assert t.dtor[k] == s.dtor[k];
      var A := Kept(s, s.refs[k], keep);
      if A != [] { var h := A[0]; assert h in A; }
    }
  }
}
