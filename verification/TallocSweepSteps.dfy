/** The single moves of talloc_free keep the relations of `TallocSweep`. */
module TallocSweepSteps {
  import opened TallocHeap
  import opened TallocWalks
  import opened TallocAlloc
  import opened TallocSweep

  // ---------- facts that survive a sweep ----------

  /** The chunks being freed rank at most lo. */
  ghost predicate DyingBelow(s: Heap, r: Ptr -> nat, lo: nat)
    requires Domains(s)
  {
    forall d {:trigger s.place[d]} :: d in s.live && s.place[d].Unlinked? ==> r(d) <= lo
  }

  lemma EmptyBelow(q: seq<Ptr>, p: seq<Ptr>)
    requires forall h :: h in q ==> h in p
    ensures p == [] ==> q == []
  {
    if q != [] { var h := q[0]; assert h in p; }
  }

  lemma RefsOnlyShrink(s: Heap, t: Heap, r: Ptr -> nat, via: set<Ptr>)
    requires Wf(s) && Wf(t) && Shrunk(s, t) && OwnersFrom(s, t, r, via)
    ensures forall c :: c in t.live && s.refs[c] == [] ==> t.refs[c] == []
  {
    forall c | c in t.live && s.refs[c] == [] ensures t.refs[c] == [] {
      EmptyBelow(t.refs[c], s.refs[c]);
    }
  }

  lemma SettledAfter(s: Heap, t: Heap, r: Ptr -> nat, via: set<Ptr>)
    requires Wf(s) && Wf(t) && Shrunk(s, t) && OwnersFrom(s, t, r, via) && Settled(s) && Held(s)
    ensures Settled(t) && Held(t)
  {
    RefsOnlyShrink(s, t, r, via);
    forall c | c in t.live
      ensures (t.place[c].Unlinked? <==> t.loop[c]) && (t.loop[c] ==> t.refs[c] == [] && t.target[c] == NULL)
    {
      assert t.place[c] == s.place[c] && s.loop[c] == s.loop[c];
    }
    forall h | h in t.live && t.target[h] != NULL ensures t.up[h] != NULL {
      assert t.target[h] == s.target[h];
    }
  }

  /** The old links of a chunk being freed lead to the same chunk, or to freed memory. */
  lemma AboveAfter(s: Heap, t: Heap, r: Ptr -> nat, lo: nat, via: set<Ptr>, d: Ptr)
    requires Wf(s) && Wf(t) && Shrunk(s, t) && OwnersFrom(s, t, r, via) && Untouched(s, t, r, lo, NULL)
    requires Climbs(s, r) && d in t.live && s.place[d].Unlinked? && r(d) <= lo
    ensures Adrift(t, d) || (Anchored(t, d) && Above(t, d) == Above(s, d) && (Above(t, d) != NULL ==> Above(t, d) in t.live))
  {
    assert t.place[d] == s.place[d];
    var b, p := s.place[d].prev, s.place[d].parent;
    if b != NULL {
      if b in t.live {
        assert Anchored(s, d) && s.up[b] == Above(s, d);
        assert t.place[b] == s.place[b] && t.target[b] == s.target[b];
        assert t.up[b] == s.up[b];
      }
    } else if p != NULL {
      assert Anchored(s, d) && Above(s, d) == p;
      if s.up[p] != NULL {
        assert s.place[p] == InList;
        assert Anchored(s, p) && Above(s, p) == s.up[p];
      }
      assert p in t.live && t.target[p] == s.target[p];
    }
  }

  lemma RankedAt(s: Heap, t: Heap, r: Ptr -> nat, lo: nat, via: set<Ptr>, c: Ptr)
    requires Wf(s) && Wf(t) && Shrunk(s, t) && OwnersFrom(s, t, r, via) && Untouched(s, t, r, lo, NULL)
    requires OwnersRanked(s, r, NULL) && DyingBelow(s, r, lo) && Held(s) && c in t.live
    ensures (Anchored(t, c) || Adrift(t, c)) && (Above(t, c) != NULL ==> Above(t, c) in t.live && r(Above(t, c)) < r(c))
  {
    assert t.place[c] == s.place[c] && (Anchored(s, c) || Adrift(s, c));
    if s.place[c].Unlinked? {
      AboveAfter(s, t, r, lo, via, c);
      assert Above(s, c) != NULL ==> r(Above(s, c)) < r(c);
    } else if t.up[c] != NULL && t.up[c] != s.up[c] && Holds(s, t.up[c], c) {
      var h :| h in s.refs[c] && h in s.live && s.up[h] == t.up[c];
      assert s.target[h] == c;
    }
  }

  lemma RankedAfter(s: Heap, t: Heap, r: Ptr -> nat, lo: nat, via: set<Ptr>)
    requires Wf(s) && Wf(t) && Shrunk(s, t) && OwnersFrom(s, t, r, via) && Untouched(s, t, r, lo, NULL)
    requires OwnersRanked(s, r, NULL) && DyingBelow(s, r, lo) && Held(s)
    ensures OwnersRanked(t, r, NULL) && DyingBelow(t, r, lo)
  {
    forall c | c in t.live
      ensures (Anchored(t, c) || Adrift(t, c))
              && (Above(t, c) != NULL ==> Above(t, c) in t.live && r(Above(t, c)) < r(c))
    {
      RankedAt(s, t, r, lo, via, c);
    }
    forall h | h in t.live && t.target[h] != NULL && t.up[h] != NULL ensures r(t.up[h]) < r(t.target[h]) {
      assert t.target[h] == s.target[h] && t.up[h] == s.up[h];
    }
    forall d | d in t.live && t.place[d].Unlinked? ensures r(d) <= lo {
      assert t.place[d] == s.place[d];
    }
  }

  // ---------- filtering references ----------

  lemma KeptFrame(s: Heap, t: Heap, q: seq<Ptr>, keep: set<Ptr>)
    requires Domains(s) && Domains(t)
    requires forall h :: h in q ==> (h in s.live <==> h in t.live) && (h in s.live ==> (s.up[h] in keep <==> t.up[h] in keep))
    ensures Kept(s, q, keep) == Kept(t, q, keep)
  {
    if q != [] {
      var h := q[0];
      assert h in q;
      KeptFrame(s, t, q[1..], keep);
    }
  }

  /** Losing a handle that no kept chunk holds loses no kept handle. */
  lemma KeptCut(s: Heap, q: seq<Ptr>, i: nat, keep: set<Ptr>)
    requires Domains(s) && i < |q| && (var h := q[i]; h in s.live && s.up[h] !in keep)
    ensures Kept(s, CutAt(q, i), keep) == Kept(s, q, keep)
  {
    var r := CutAt(q, i);
    if i == 0 {
      assert r == q[1..];
    } else {
      assert r[0] == q[0];
      assert r[1..] == CutAt(q[1..], i - 1) by {
        forall j | 0 <= j < |r| - 1 ensures r[1..][j] == CutAt(q[1..], i - 1)[j] {
          assert r[j + 1] == q[if j + 1 < i then j + 1 else j + 2];
        }
      }
      KeptCut(s, q[1..], i - 1, keep);
    }
  }

  // ---------- a handle is freed ----------

  lemma DropHandleIs(s: Heap, h: Ptr)
    requires Wf(s) && IsHandle(s, h)
    ensures var u := DropHandle(s, h);
            && Wf(u) && u.live == s.live - {h}
            && forall x {:trigger x in u.live} :: x in u.live ==>
                 && u.up[x] == s.up[x] && u.target[x] == s.target[x] && u.dtor[x] == s.dtor[x]
                 && u.size[x] == s.size[x] && u.loop[x] == s.loop[x] && u.place[x] == s.place[x]
                 && u.kids[x] == (if x == s.up[h] then Without(s.kids[x], h) else s.kids[x])
                 && u.refs[x] == (if x == s.target[h] then Without(s.refs[x], h) else s.refs[x])
  {
    DropHandleWf(s, h);
    ReleasedWf(s, h);
  }

  /** Freeing a handle whose holder is not kept. */
  lemma DropSweeps(s: Heap, h: Ptr, r: Ptr -> nat, lo: nat, keep: set<Ptr>, sink: Ptr, via: set<Ptr>)
    requires Wf(s) && IsHandle(s, h) && Supported(s, keep) && s.up[h] !in keep
    ensures Swept(s, DropHandle(s, h), r, lo, NULL, keep, sink, via)
  {
    var u, t := DropHandle(s, h), s.target[h];
    DropHandleIs(s, h);
    forall x, g | x in u.live && g in u.refs[x] ensures g in s.refs[x] {
      assert x in s.live;
    }
    forall k | k in keep ensures k in s.live && k in u.live && Conserves(s, u, k, keep, sink) {
      var q := s.refs[k];
      forall g | g in u.refs[k] ensures g in u.live && g in s.live && u.up[g] == s.up[g] {
        assert k in u.live;
        assert g in u.live;
      }
      KeptFrame(s, u, u.refs[k], keep);
      if k == t { KeptCut(s, q, IndexOf(q, h), keep); }
    }
    forall k | k in keep && k !in via && k in s.live && k in u.live && !HoldsReference(s, k)
        ensures u.kids[k] == s.kids[k] {
      assert k != s.up[h];
    }
  }

  // ---------- a chunk moves to another owner ----------

  /** What a steal changes, when it moves the chunk at all. */
  lemma StolenIs(s: Heap, c: Ptr, p: Ptr)
    requires Wf(s) && c in s.live && s.place[c] == InList && (p == NULL || (p in s.live && !IsHandle(s, p) && p != c))
    ensures var t := Stolen(s, c, p);
            && Wf(t) && t.live == s.live && t.up[c] == p
            && forall x {:trigger x in t.live} :: x in t.live ==>
                 && (x != c ==> t.up[x] == s.up[x]) && t.target[x] == s.target[x] && t.dtor[x] == s.dtor[x]
                 && t.size[x] == s.size[x] && t.loop[x] == s.loop[x] && t.place[x] == s.place[x]
                 && t.refs[x] == s.refs[x]
                 && (x != p && x != s.up[c] ==> t.kids[x] == s.kids[x])
                 && (x != p && x == s.up[c] ==> t.kids[x] == Without(s.kids[x], c))
  {
    StolenWf(s, c, p);
  }

  lemma RefusedConserved(s: Heap, c: Ptr, sink: Ptr, keep: set<Ptr>)
    requires Wf(s) && c in s.live && s.place[c] == InList && s.refs[c] == [] && s.target[c] == NULL
    requires s.up[c] != NULL && s.up[c] !in keep && Supported(s, keep)
    requires sink == NULL || (sink in s.live && !IsHandle(s, sink) && sink != c)
    ensures Wf(Stolen(s, c, sink)) && Conserved(s, Stolen(s, c, sink), keep, sink)
  {
    var t := Stolen(s, c, sink);
    StolenIs(s, c, sink);
    forall k | k in keep ensures k in s.live && k in t.live && Conserves(s, t, k, keep, sink) {
      var q := s.refs[k];
      forall g | g in q ensures g in s.live && g in t.live && t.up[g] == s.up[g] {
        assert g in s.live;
      }
      KeptFrame(s, t, q, keep);
    }
  }

  /** A refusing, unreferenced child of a chunk that is emptied goes to the sink. */
  lemma RefuseSweeps(s: Heap, c: Ptr, sink: Ptr, r: Ptr -> nat, lo: nat, keep: set<Ptr>, via: set<Ptr>)
    requires Wf(s) && c in s.live && s.place[c] == InList && s.refs[c] == [] && s.target[c] == NULL && Refusing(s, c)
    requires s.up[c] != NULL && s.up[c] !in keep && lo <= r(s.up[c]) && Supported(s, keep)
    requires sink == NULL || (sink in s.live && !IsHandle(s, sink) && sink != c && r(sink) < r(c))
    requires sink in via && s.up[c] in via
    ensures Swept(s, Stolen(s, c, sink), r, lo, NULL, keep, sink, via)
  {
    var t := Stolen(s, c, sink);
    StolenIs(s, c, sink);
    forall x | x in t.live
      ensures x in s.live && (t.up[x] == s.up[x] || Holds(s, t.up[x], x) || (Refusing(s, x) && t.up[x] in via && (t.up[x] != NULL ==> r(t.up[x]) < r(x))))
              && (s.target[x] != NULL ==> t.up[x] == s.up[x])
    {
    }
    RefusedConserved(s, c, sink, keep);
  }

  /** What happens to a referenced child c that cannot be freed: it loses its newest
      reference h and goes to the holder of h. */
  lemma PromotedIs(s: Heap, c: Ptr)
    requires Wf(s) && c in s.live && s.place[c] == InList && s.refs[c] != [] && Held(s)
    requires var h := s.refs[c][0]; h in s.live && s.up[h] != c
    ensures var h := s.refs[c][0]; IsHandle(s, h) && s.target[h] == c && s.up[h] in s.live && Wf(DropHandle(s, h)) && s.up[h] in DropHandle(s, h).live && c in DropHandle(s, h).live
    ensures var h := s.refs[c][0];
            var x, t := s.up[h], Stolen(DropHandle(s, h), c, s.up[h]);
            && Wf(t) && t.live == s.live - {h} && t.up[c] == x && t.refs[c] == s.refs[c][1..]
            && forall y {:trigger y in t.live} :: y in t.live ==>
                 && (y != c ==> t.up[y] == s.up[y] && t.refs[y] == s.refs[y]) && t.target[y] == s.target[y] && t.dtor[y] == s.dtor[y]
                 && t.size[y] == s.size[y] && t.loop[y] == s.loop[y] && t.place[y] == s.place[y]
                 && (y != x && y != s.up[c] ==> t.kids[y] == s.kids[y])
  {
    RefRowFacts(s, c, 0);
    var h := s.refs[c][0];
    var x := s.up[h];
    assert h in s.kids[x];
    var u := DropHandle(s, h);
    DropHandleIs(s, h);
    WithoutHead(s.refs[c]);
    assert x in u.live && c in u.live;
    StolenIs(u, c, x);
  }

  /** t is s after the promotion of c to the holder x of its newest reference h. */
  ghost predicate Promoted(s: Heap, t: Heap, c: Ptr, h: Ptr, x: Ptr) {
    && Wf(s) && Wf(t) && c in s.live && s.refs[c] != [] && s.refs[c][0] == h && IsHandle(s, h) && s.target[h] == c
    && s.up[h] == x
    && x in s.live && x != c && h != c
    && t.live == s.live - {h} && t.up[c] == x && t.refs[c] == s.refs[c][1..]
    && forall y {:trigger y in t.live} :: y in t.live ==>
         && (y != c ==> t.up[y] == s.up[y] && t.refs[y] == s.refs[y]) && t.target[y] == s.target[y] && t.dtor[y] == s.dtor[y]
         && t.size[y] == s.size[y] && t.loop[y] == s.loop[y] && t.place[y] == s.place[y]
         && (y != x && y != s.up[c] ==> t.kids[y] == s.kids[y])
  }

  lemma PromotedOwners(s: Heap, t: Heap, c: Ptr, h: Ptr, x: Ptr, r: Ptr -> nat, via: set<Ptr>)
    requires Promoted(s, t, c, h, x)
    ensures OwnersFrom(s, t, r, via)
  {
    forall y | y in t.live
      ensures y in s.live && (t.up[y] == s.up[y] || Holds(s, t.up[y], y))
              && (s.target[y] != NULL ==> t.up[y] == s.up[y])
    {
      if y == c { assert h in s.refs[c] && s.up[h] == x; }
    }
    forall y, g | y in t.live && g in t.refs[y] ensures y in s.live && g in s.refs[y] {
    }
  }

  lemma PromotedConserved(s: Heap, t: Heap, c: Ptr, h: Ptr, x: Ptr, keep: set<Ptr>, sink: Ptr)
    requires Promoted(s, t, c, h, x) && Supported(s, keep) && s.up[c] != NULL && s.up[c] !in keep
    ensures Conserved(s, t, keep, sink)
  {
    forall k | k in keep ensures k in s.live && k in t.live && Conserves(s, t, k, keep, sink) {
      var q := t.refs[k];
      assert k in t.live;
      forall g | g in q ensures g in s.live && g in t.live && t.up[g] == s.up[g] {
        assert g in t.live && t.target[g] == k;
      }
      KeptFrame(s, t, q, keep);
    }
  }

  lemma PromotedUntouched(s: Heap, t: Heap, c: Ptr, h: Ptr, x: Ptr, r: Ptr -> nat, lo: nat, keep: set<Ptr>,
      via: set<Ptr>)
    requires Promoted(s, t, c, h, x) && s.up[c] != NULL && lo <= r(s.up[c]) && s.up[c] in via
    ensures Shrunk(s, t) && Untouched(s, t, r, lo, NULL) && KidsKept(s, t, keep, via)
  {
    forall y | y in s.live && s.target[y] == NULL && (s.up[y] == NULL || r(s.up[y]) < lo) ensures y in t.live
        && t.up[y] == s.up[y] {
    }
    forall k | k in keep && k !in via && k in s.live && k in t.live && !HoldsReference(s, k)
        ensures t.kids[k] == s.kids[k] {
      assert h in s.kids[x];
    }
  }

  lemma PromoteSweeps(s: Heap, c: Ptr, r: Ptr -> nat, lo: nat, keep: set<Ptr>, sink: Ptr, via: set<Ptr>)
    requires Wf(s) && c in s.live && s.place[c] == InList && s.refs[c] != [] && Supported(s, keep) && Held(s)
    requires s.up[c] != NULL && s.up[c] !in keep && lo <= r(s.up[c]) && s.up[c] in via && OwnersRanked(s, r, NULL)
    ensures var h := s.refs[c][0];
            && IsHandle(s, h) && s.up[h] in s.live && s.up[h] != c && Wf(DropHandle(s, h))
            && s.up[h] in DropHandle(s, h).live && c in DropHandle(s, h).live
            && Promoted(s, Stolen(DropHandle(s, h), c, s.up[h]), c, h, s.up[h])
            && Swept(s, Stolen(DropHandle(s, h), c, s.up[h]), r, lo, NULL, keep, sink, via)
  {
    RefRowFacts(s, c, 0);
    var h := s.refs[c][0];
    assert s.target[h] == c;
    PromotedIs(s, c);
    var t := Stolen(DropHandle(s, h), c, s.up[h]);
    PromotedOwners(s, t, c, h, s.up[h], r, via);
    PromotedConserved(s, t, c, h, s.up[h], keep, sink);
    PromotedUntouched(s, t, c, h, s.up[h], r, lo, keep, via);
  }
}
