/** What talloc_free of lib/talloc/talloc.c needs of the left neighbour of the chunk it frees.

    The chunk has been unlinked when its children are freed, but its `prev` and `parent`
    stay, and two walks may still follow them: to find who adopts a child that refuses, and
    to find out whether a reference is held from below the chunk it refers to.  When the
    neighbour is a reference handle it may be freed on the way, and the walk would then read
    freed memory.  The zone of a free is the chunk with all that lies below it: nothing
    outside is moved, and outside nothing is freed but references into the zone. */
module TallocZones {
  import opened Hiding
  import opened TallocHeap
  import opened TallocLinks
  import opened TallocWalks
  import opened TallocAlloc
  import opened TallocSweep
  import opened TallocSweepSteps
  import opened TallocFreeSteps

  /** c is referenced, if at all, only from itself and from below. */
  ghost predicate OwnRefsOnly(s: Heap, c: Ptr)
    requires Wf(s) && c in s.live
    decreases s.live
  {
    if s.refs[c] == [] then true
    else
      RefRowFacts(s, c, 0);
      var h := s.refs[c][0];
      DropHandleIs(s, h);
      assert DropHandle(s, h).live < s.live by { assert h in s.live && h !in DropHandle(s, h).live; }
      Contains(s, c, h) && OwnRefsOnly(DropHandle(s, h), c)
  }

  /** OwnRefsOnly, whose definition is in scope only where `Look` is mentioned. */
  ghost predicate Unhindered(s: Heap, c: Ptr)
    requires Wf(s) && c in s.live
  {
    forall k: int {:trigger Look(k)} :: Look(k) ==> OwnRefsOnly(s, c)
  }

  /** No destructor in the zone refuses, and no reference leads from the zone into it. */
  ghost predicate Quiet(s: Heap, zone: set<Ptr>)
    requires Domains(s)
  {
    forall x {:trigger s.target[x]} {:trigger s.dtor[x]} :: x in s.live && x in zone ==> !Refusing(s, x) && s.target[x] !in zone
  }

  /** b is not freed while the zone is: it is an ordinary chunk, or a reference between
      chunks outside. */
  ghost predicate Steady(s: Heap, b: Ptr, zone: set<Ptr>)
    requires Domains(s) && b in s.live
  {
    s.target[b] == NULL || (b !in zone && s.target[b] !in zone)
  }

  /** The left neighbour of c stays while the zone is freed, or will not be asked for: c has
      no children, or is not freed after all, or the zone is quiet. */
  ghost predicate LeftIn(s: Heap, c: Ptr, zone: set<Ptr>)
    requires Wf(s) && c in s.live
  {
    s.kids[c] != [] && !Refusing(s, c) && Unhindered(s, c) && !Quiet(s, zone) && s.up[c] != NULL ==>
      var q := s.kids[s.up[c]];
      var i := IndexOf(q, c);
      i > 0 ==> q[i - 1] in s.live && Steady(s, q[i - 1], zone)
  }

  /** What talloc_free(c) needs of the left neighbour of c. */
  ghost predicate LeftOk(s: Heap, c: Ptr)
    requires Wf(s) && c in s.live
  {
    LeftIn(s, c, Below(s, c))
  }

  // ---------- what holds of a zone while it is freed ----------

  /** The zone holds with a chunk also its children and all chunks being freed, and the left
      neighbours of these stay or will not be asked for. */
  ghost predicate ZoneOk(s: Heap, zone: set<Ptr>)
    requires Domains(s)
  {
    && NULL !in zone
    && (forall x {:trigger s.up[x]} :: x in s.live && s.up[x] in zone ==> x in zone)
    && (forall d {:trigger s.place[d]} :: d in s.live && s.place[d].Unlinked? ==>
          d in zone && (s.place[d].prev == NULL || Quiet(s, zone) || (s.place[d].prev in s.live && Steady(s, s.place[d].prev, zone))))
  }

  /** Outside the zone nothing has been moved, and no reference has been freed but those
      into the zone. */
  ghost predicate Spared(s: Heap, t: Heap, zone: set<Ptr>)
    requires Domains(s) && Domains(t)
  {
    && (forall x {:trigger t.up[x]} :: x in t.live && x !in zone ==> x in s.live && t.up[x] == s.up[x])
    && (forall h {:trigger s.target[h]} :: h in s.live && s.target[h] != NULL && h !in zone && s.target[h] !in zone ==> h in t.live)
  }

  lemma SparedTrans(s: Heap, a: Heap, t: Heap, zone: set<Ptr>)
    requires Domains(s) && Domains(a) && Domains(t) && Spared(s, a, zone) && Spared(a, t, zone)
    requires forall x {:trigger a.target[x]} :: x in a.live && x in s.live ==> a.target[x] == s.target[x]
    ensures Spared(s, t, zone)
  {
    forall x | x in t.live && x !in zone ensures x in s.live && t.up[x] == s.up[x] {
      var o := t.up[x];
      assert x in a.live && o == a.up[x];
    }
    forall h | h in s.live && s.target[h] != NULL && h !in zone && s.target[h] !in zone ensures h in t.live {
      assert h in a.live && a.target[h] == s.target[h];
    }
  }

  lemma QuietAfter(s: Heap, t: Heap, zone: set<Ptr>)
    requires Domains(s) && Domains(t) && Shrunk(s, t) && Quiet(s, zone)
    ensures Quiet(t, zone)
  {
    forall x | x in t.live && x in zone ensures !Refusing(t, x) && t.target[x] !in zone {
      assert t.target[x] == s.target[x] && t.dtor[x] == s.dtor[x];
    }
  }

  lemma NeighbourAfter(s: Heap, t: Heap, r: Ptr -> nat, lo: nat, zone: set<Ptr>, d: Ptr)
    requires Wf(s) && Wf(t) && Shrunk(s, t) && Untouched(s, t, r, lo, NULL) && Spared(s, t, zone)
    requires Climbs(s, r) && d in s.live && s.place[d].Unlinked? && s.place[d].prev != NULL && r(d) <= lo
    requires s.place[d].prev in s.live && Steady(s, s.place[d].prev, zone)
    ensures s.place[d].prev in t.live && Steady(t, s.place[d].prev, zone)
  {
    var b := s.place[d].prev;
    assert Anchored(s, d) && Above(s, d) == s.up[b];
    assert s.target[b] == NULL ==> b in t.live && t.up[b] == s.up[b];
    assert t.target[b] == s.target[b];
  }

  lemma ZoneAfter(s: Heap, t: Heap, r: Ptr -> nat, lo: nat, zone: set<Ptr>)
    requires Wf(s) && Wf(t) && Shrunk(s, t) && Untouched(s, t, r, lo, NULL) && Spared(s, t, zone)
    requires Climbs(s, r) && DyingBelow(s, r, lo) && ZoneOk(s, zone)
    ensures ZoneOk(t, zone)
  {
    if Quiet(s, zone) { QuietAfter(s, t, zone); }
    forall d | d in t.live && t.place[d].Unlinked?
      ensures d in zone && (t.place[d].prev == NULL || Quiet(t, zone) || (t.place[d].prev in t.live && Steady(t, t.place[d].prev, zone)))
    {
      assert t.place[d] == s.place[d];
      if s.place[d].prev != NULL && !Quiet(s, zone) { NeighbourAfter(s, t, r, lo, zone, d); }
    }
    forall x | x in t.live && x !in zone ensures t.up[x] !in zone {
      assert t.up[x] == s.up[x];
    }
  }

  // ---------- the steps of a free ----------

  lemma DropSpared(s: Heap, h: Ptr, zone: set<Ptr>)
    requires Wf(s) && IsHandle(s, h) && (h in zone || s.target[h] in zone)
    ensures Wf(DropHandle(s, h)) && Spared(s, DropHandle(s, h), zone)
  {
    DropHandleIs(s, h);
    var u := DropHandle(s, h);
    forall x | x in u.live && x !in zone ensures x in s.live && u.up[x] == s.up[x] {
    }
  }

  lemma DropZone(s: Heap, h: Ptr, zone: set<Ptr>)
    requires Wf(s) && IsHandle(s, h) && (h in zone || s.target[h] in zone) && ZoneOk(s, zone)
    ensures Wf(DropHandle(s, h)) && ZoneOk(DropHandle(s, h), zone)
  {
    var u := DropHandle(s, h);
    DropHandleIs(s, h);
    if Quiet(s, zone) { QuietAfter(s, u, zone); }
    forall d | d in u.live && u.place[d].Unlinked?
      ensures d in zone && (u.place[d].prev == NULL || Quiet(u, zone) || (u.place[d].prev in u.live && Steady(u, u.place[d].prev, zone)))
    {
      assert u.place[d] == s.place[d];
      var b := s.place[d].prev;
      if b != NULL && !Quiet(s, zone) { assert b != h && b in u.live; }
    }
    forall x | x in u.live && u.up[x] in zone ensures x in zone {
      assert u.up[x] == s.up[x];
    }
  }

  lemma StolenSpared(s: Heap, c: Ptr, p: Ptr, zone: set<Ptr>)
    requires Wf(s) && c in s.live && s.place[c] == InList && (p == NULL || (p in s.live && !IsHandle(s, p) && p != c))
             && c in zone
    ensures Wf(Stolen(s, c, p)) && Spared(s, Stolen(s, c, p), zone)
  {
    StolenIs(s, c, p);
    var t := Stolen(s, c, p);
    forall x | x in t.live && x !in zone ensures x in s.live && t.up[x] == s.up[x] {
    }
  }

  lemma OpenedZone(s: Heap, c: Ptr, zone: set<Ptr>)
    requires Wf(s) && c in s.live && !IsHandle(s, c) && c in zone && ZoneOk(s, zone) && s.place[c] == InList
    requires s.refs[c] == [] && !Refusing(s, c) && s.kids[c] != [] && LeftIn(s, c, zone)
    ensures ZoneOk(Opened(s, c), zone)
  {
    var t := Opened(s, c);
    OpenedIs(s, c);
    OpenedAbove(s, c);
    forall x | x in t.live && x !in zone ensures t.up[x] !in zone {
      assert t.up[x] == s.up[x];
    }
    if Quiet(s, zone) {
      OpenedQuiet(s, c, zone);
    } else {
      OpenedSteady(s, c, zone);
    }
  }

  lemma OpenedSteady(s: Heap, c: Ptr, zone: set<Ptr>)
    requires Wf(s) && c in s.live && !IsHandle(s, c) && c in zone && ZoneOk(s, zone) && s.place[c] == InList
    requires s.refs[c] == [] && !Refusing(s, c) && s.kids[c] != [] && LeftIn(s, c, zone) && !Quiet(s, zone)
    ensures var t := Opened(s, c);
            forall d {:trigger t.place[d]} :: d in t.live && t.place[d].Unlinked? && t.place[d].prev != NULL ==>
              t.place[d].prev in t.live && Steady(t, t.place[d].prev, zone)
  {
    var t := Opened(s, c);
    OpenedIs(s, c);
    OpenedAbove(s, c);
    forall d | d in t.live && t.place[d].Unlinked? && t.place[d].prev != NULL
      ensures t.place[d].prev in t.live && Steady(t, t.place[d].prev, zone)
    {
      if d != c { assert t.place[d] == s.place[d]; }
    }
  }

  lemma OpenedQuiet(s: Heap, c: Ptr, zone: set<Ptr>)
    requires Wf(s) && c in s.live && !IsHandle(s, c) && Quiet(s, zone)
    ensures Quiet(Opened(s, c), zone)
  {
    var t := Opened(s, c);
    OpenedIs(s, c);
    AcceptedWf(s, c);
    forall x | x in t.live && x in zone ensures !Refusing(t, x) && t.target[x] !in zone {
      assert s.target[x] !in zone && !Refusing(s, x);
      if x == c { assert t.dtor[c] == NoDestructor; }
    }
  }

  // ---------- the walks of a free ----------

  /** Unless the zone is quiet nothing is adrift. */
  lemma NothingAdrift(s: Heap, r: Ptr -> nat, zone: set<Ptr>, d: Ptr)
    requires Domains(s) && Climbs(s, r) && ZoneOk(s, zone) && !Quiet(s, zone) && d in s.live
    ensures Anchored(s, d)
  {
    assert Anchored(s, d) || Adrift(s, d);
    assert s.place[d] == s.place[d];
  }

  /** A walk that starts outside the zone stays there. */
  lemma {:induction false} WalksOutside(s: Heap, zone: set<Ptr>, x: Ptr, n: nat)
    requires Wf(s) && ZoneOk(s, zone) && x !in zone
    ensures AboveBy(s, x, n) !in zone
    decreases n
  {
    if n > 0 && x in s.live {
      assert s.place[x] == InList;
      WalksOutside(s, zone, s.up[x], n - 1);
    }
  }

  /** Whether a reference to a chunk of the zone is held from below that chunk can be found
      out without reading freed memory. */
  lemma ReferenceRooted(s: Heap, r: Ptr -> nat, zone: set<Ptr>, h: Ptr)
    requires Wf(s) && Climbs(s, r) && ZoneOk(s, zone) && IsHandle(s, h) && s.target[h] in zone
    ensures Rooted(s, h)
  {
    forall n: nat | AboveBy(s, h, n) in s.live ensures Anchored(s, AboveBy(s, h, n)) {
      var d := AboveBy(s, h, n);
      if Quiet(s, zone) {
        assert h !in zone;
        WalksOutside(s, zone, h, n);
        assert s.place[d] == InList;
      } else {
        NothingAdrift(s, r, zone, d);
      }
    }
  }

  // ---------- the zone of a free that starts at rest ----------

  lemma ZoneClosed(s: Heap, c: Ptr, x: Ptr)
    requires Domains(s) && x in s.live && s.place[x] == InList && s.up[x] in Below(s, c)
    ensures x in Below(s, c)
  {
    var n: nat :| AboveBy(s, s.up[x], n) == c;
    assert AboveBy(s, x, n + 1) == c;
  }

  lemma ZoneStart(s: Heap, c: Ptr)
    requires Wf(s) && c in s.live && forall x {:trigger s.place[x]} :: x in s.live ==> s.place[x] == InList
    ensures ZoneOk(s, Below(s, c)) && c in Below(s, c)
  {
    assert AboveBy(s, c, 0) == c;
    forall x | x in s.live && s.up[x] in Below(s, c) ensures x in Below(s, c) {
      assert s.place[x] == InList;
      ZoneClosed(s, c, x);
    }
  }
}
