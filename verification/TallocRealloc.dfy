/** _talloc_realloc of lib/talloc/talloc.c: moving a chunk renames it in the whole heap,
    although the code patches at most four fields of other chunks. */
module TallocRealloc {
  import opened Hiding
  import opened TallocHeap
  import opened TallocLists
  import opened TallocLinks
  import opened TallocSteps
  import opened TallocWalks
  import opened TallocAlloc
  import opened TallocSweep
  import opened TallocZones
  import opened TallocFreeTheorems
  import opened TallocForest

  // ---------- renaming c to n ----------

  ghost function Ren(c: Ptr, n: Ptr, x: Ptr): Ptr {
    if x == c then n else x
  }

  ghost function RenAll(c: Ptr, n: Ptr, q: seq<Ptr>): (r: seq<Ptr>)
    ensures |r| == |q| && forall i {:trigger r[i]} :: 0 <= i < |q| ==> r[i] == Ren(c, n, q[i])
  {
    if q == [] then [] else [Ren(c, n, q[0])] + RenAll(c, n, q[1..])
  }

  /** The value that belonged to c now belongs to n. */
  ghost function Moved<T>(m: map<Ptr, T>, c: Ptr, n: Ptr): map<Ptr, T>
    requires c in m
  {
    (m - {c})[n := m[c]]
  }

  ghost function RenLinks(m: map<Ptr, Ptr>, c: Ptr, n: Ptr): map<Ptr, Ptr>
    requires c in m
  {
    Moved(map x | x in m :: Ren(c, n, m[x]), c, n)
  }

  ghost function RenRows(m: Rows, c: Ptr, n: Ptr): Rows
    requires c in m
  {
    Moved(map x | x in m :: RenAll(c, n, m[x]), c, n)
  }

  /** The same forest with n for c in every link, and a new size for the chunk. */
  ghost function Renamed(s: Heap, c: Ptr, n: Ptr, size: nat): Heap
    requires Domains(s) && c in s.live
  {
    Heap(s.live - {c} + {n},
         RenLinks(s.up, c, n), RenRows(s.kids, c, n), RenRows(s.refs, c, n), RenLinks(s.target, c, n),
         Moved(s.dtor, c, n), Moved(s.size, c, n)[n := size], Moved(s.loop, c, n), Moved(s.place, c, n))
  }

  /** n is a name the heap does not use yet, or c's own. */
  ghost predicate Usable(live: set<Ptr>, c: Ptr, n: Ptr) {
    n != NULL && (n == c || n !in live)
  }

  /** The renamed heap, node by node. */
  lemma RenamedAt(s: Heap, c: Ptr, n: Ptr, size: nat, x: Ptr)
    requires Wf(s) && c in s.live && Usable(s.live, c, n) && x in s.live
    ensures var t, y := Renamed(s, c, n, size), Ren(c, n, x);
            && Domains(t) && y in t.live
            && t.up[y] == Ren(c, n, s.up[x]) && t.kids[y] == RenAll(c, n, s.kids[x])
            && t.refs[y] == RenAll(c, n, s.refs[x])
            && t.target[y] == Ren(c, n, s.target[x]) && t.dtor[y] == s.dtor[x] && t.loop[y] == s.loop[x]
            && t.place[y] == s.place[x] && t.size[y] == (if x == c then size else s.size[x])
  {
    RenMapsAt(s.live, s.up, s.kids, c, n, x);
    RenMapsAt(s.live, s.target, s.refs, c, n, x);
    RenMapsOver(s.live, s.up, s.kids, c, n);
    RenMapsOver(s.live, s.target, s.refs, c, n);
  }

  /** Every node of the renamed heap comes from one of the old heap. */
  ghost function Old(c: Ptr, n: Ptr, y: Ptr): Ptr {
    if y == n then c else y
  }

  lemma OldIs(s: Heap, c: Ptr, n: Ptr, size: nat, y: Ptr)
    requires Wf(s) && c in s.live && Usable(s.live, c, n) && y in Renamed(s, c, n, size).live
    ensures Old(c, n, y) in s.live && Ren(c, n, Old(c, n, y)) == y
  {
  }

  lemma RenAllMember(live: set<Ptr>, c: Ptr, n: Ptr, q: seq<Ptr>, x: Ptr)
    requires Usable(live, c, n) && x in live && forall k :: k in q ==> k in live
    ensures Ren(c, n, x) in RenAll(c, n, q) <==> x in q
  {
    var r := RenAll(c, n, q);
    if x in q {
      var i := IndexOf(q, x);
      assert r[i] == Ren(c, n, x);
    }
    if Ren(c, n, x) in r {
      var i := IndexOf(r, Ren(c, n, x));
      var k := q[i];
      assert k in q && Ren(c, n, k) == Ren(c, n, x);
    }
  }

  lemma RenAllDistinct(live: set<Ptr>, c: Ptr, n: Ptr, q: seq<Ptr>)
    requires Usable(live, c, n) && Distinct(q) && forall k :: k in q ==> k in live
    ensures Distinct(RenAll(c, n, q))
  {
    var r := RenAll(c, n, q);
    DistinctPairs(q);
    forall i, j | 0 <= i < j < |r| ensures r[i] != r[j] {
      var a, b := q[i], q[j];
      assert a in q && b in q;
    }
    DistinctPairs(r);
  }

  /** A member of a renamed list, and what it was. */
  lemma RenAllOld(live: set<Ptr>, c: Ptr, n: Ptr, q: seq<Ptr>, y: Ptr)
    requires Usable(live, c, n) && y in RenAll(c, n, q) && forall k :: k in q ==> k in live
    ensures Old(c, n, y) in q && Ren(c, n, Old(c, n, y)) == y
  {
    var r := RenAll(c, n, q);
    var i := IndexOf(r, y);
    var k := q[i];
    assert k in q;
  }

  /** The renamed links and rows, node by node. */
  lemma RenMapsAt(live: set<Ptr>, owner: map<Ptr, Ptr>, rows: Rows, c: Ptr, n: Ptr, x: Ptr)
    requires Over(live, owner) && Over(live, rows) && c in live && Usable(live, c, n) && x in live
    ensures var y, o', r' := Ren(c, n, x), RenLinks(owner, c, n), RenRows(rows, c, n);
            y in o' && y in r' && o'[y] == Ren(c, n, owner[x]) && r'[y] == RenAll(c, n, rows[x])
  {
  }

  lemma RenMapsOver(live: set<Ptr>, owner: map<Ptr, Ptr>, rows: Rows, c: Ptr, n: Ptr)
    requires Over(live, owner) && Over(live, rows) && c in live
    ensures Over(live - {c} + {n}, RenLinks(owner, c, n)) && Over(live - {c} + {n}, RenRows(rows, c, n))
  {
  }

  ghost predicate OldLive(live: set<Ptr>, c: Ptr, n: Ptr, y: Ptr) {
    Old(c, n, y) in live && Ren(c, n, Old(c, n, y)) == y
  }

  lemma OldLinks(live: set<Ptr>, c: Ptr, n: Ptr, y: Ptr)
    requires c in live && Usable(live, c, n) && y in live - {c} + {n}
    ensures OldLive(live, c, n, y)
  {
  }

  lemma RenamedRow(live: set<Ptr>, owner: map<Ptr, Ptr>, rows: Rows, c: Ptr, n: Ptr, p: Ptr, r': Rows)
    requires KidsOk(live, owner, rows) && c in live && Usable(live, c, n) && p in live - {c} + {n}
             && r' == RenRows(rows, c, n)
    ensures p in r' && Old(c, n, p) in live && r'[p] == RenAll(c, n, rows[Old(c, n, p)]) && Distinct(r'[p])
  {
    OldLinks(live, c, n, p);
    var q := Old(c, n, p);
    RenMapsAt(live, owner, rows, c, n, q);
    forall k | k in rows[q] ensures k in live { assert owner[k] == q; }
    RenAllDistinct(live, c, n, rows[q]);
  }

  lemma RenamedMember(live: set<Ptr>, owner: map<Ptr, Ptr>, rows: Rows, c: Ptr, n: Ptr, p: Ptr, k: Ptr)
    requires KidsOk(live, owner, rows) && c in live && Usable(live, c, n) && p in live && k in RenAll(c, n, rows[p])
    ensures k in live - {c} + {n} && k in RenLinks(owner, c, n) && RenLinks(owner, c, n)[k] == Ren(c, n, p)
            && k != Ren(c, n, p)
  {
    forall j | j in rows[p] ensures j in live { assert owner[j] == p; }
    RenAllOld(live, c, n, rows[p], k);
    RenMapsAt(live, owner, rows, c, n, Old(c, n, k));
  }

  lemma RenamedOwner(live: set<Ptr>, owner: map<Ptr, Ptr>, rows: Rows, c: Ptr, n: Ptr, x: Ptr)
    requires KidsOk(live, owner, rows) && NULL !in live && c in live && Usable(live, c, n) && x in live
             && owner[x] != NULL
    ensures var o := Ren(c, n, owner[x]);
            o in live - {c} + {n} && o in RenRows(rows, c, n) && Ren(c, n, x) in RenRows(rows, c, n)[o]
  {
    var o := owner[x];
    assert o in live && x in rows[o];
    RenMapsAt(live, owner, rows, c, n, o);
    forall k | k in rows[o] ensures k in live { assert owner[k] == o; }
    RenAllMember(live, c, n, rows[o], x);
  }

  /** Lists that fit their owners still do when c has been renamed in both. */
  lemma RenamedRows(live: set<Ptr>, owner: map<Ptr, Ptr>, rows: Rows, c: Ptr, n: Ptr)
    requires KidsOk(live, owner, rows) && NULL !in live && c in live && Usable(live, c, n)
    ensures KidsOk(live - {c} + {n}, RenLinks(owner, c, n), RenRows(rows, c, n))
  {
    var l', o', r' := live - {c} + {n}, RenLinks(owner, c, n), RenRows(rows, c, n);
    RenMapsOver(live, owner, rows, c, n);
    forall p | p in l' ensures Distinct(r'[p]) {
      RenamedRow(live, owner, rows, c, n, p, r');
    }
    forall p, k | p in l' && k in r'[p] ensures k in l' && o'[k] == p && k != p {
      RenamedRow(live, owner, rows, c, n, p, r');
      OldLinks(live, c, n, p);
      RenamedMember(live, owner, rows, c, n, Old(c, n, p), k);
    }
    forall x | x in l' && o'[x] != NULL ensures o'[x] in l' && x in r'[o'[x]] {
      OldLinks(live, c, n, x);
      RenMapsAt(live, owner, rows, c, n, Old(c, n, x));
      RenamedOwner(live, owner, rows, c, n, Old(c, n, x));
    }
  }

  lemma RenamedWf(s: Heap, c: Ptr, n: Ptr, size: nat)
    requires Wf(s) && c in s.live && Usable(s.live, c, n)
    ensures Wf(Renamed(s, c, n, size))
  {
    var t := Renamed(s, c, n, size);
    RenamedRows(s.live, s.up, s.kids, c, n);
    RenamedRows(s.live, s.target, s.refs, c, n);
    forall x | x in t.live
      ensures (t.target[x] != NULL <==> t.dtor[x] == ReleasesReference) && (t.target[x] != NULL ==> t.kids[x] == [] && t.refs[x] == [])
           && (t.place[x].Unlinked? ==> t.up[x] == NULL)
    {
      OldIs(s, c, n, size, x);
      var y := Old(c, n, x);
      RenamedAt(s, c, n, size, y);
      assert s.target[y] != NULL <==> s.dtor[y] == ReleasesReference;
      assert s.place[y].Unlinked? ==> s.up[y] == NULL;
    }
  }

  // ---------- the fields after a move ----------

  /** The fields after realloc has moved the chunk c to n and the code has made the first
      sibling's parent, the first child and the two neighbours of c point to n. */
  ghost function Patched(f: Fields, c: Ptr, n: Ptr, size: nat): Fields
    requires c in f.next && c in f.prev && c in f.parent && c in f.child && c in f.refs && c in f.destructor
    requires c in f.size && c in f.loop && c in f.refNext && c in f.refPrev && c in f.ptr
  {
    Fields(Put(Moved(f.next, c, n), f.prev[c], n), Put(Moved(f.prev, c, n), f.next[c], n),
           Put(Moved(f.parent, c, n), f.child[c], n), Put(Moved(f.child, c, n), f.parent[c], n), Moved(f.refs, c, n),
           Moved(f.destructor, c, n), Moved(f.size, c, n)[n := size], Moved(f.loop, c, n),
           Moved(f.refNext, c, n), Moved(f.refPrev, c, n), Moved(f.ptr, c, n))
  }

  /** The fields of a chunk at rest. */
  lemma SiblingFacts(f: Fields, s: Heap, x: Ptr) returns (i: nat)
    requires Represents(f, s) && AtRest(s) && x in s.live
    ensures s.up[x] == NULL ==> f.next[x] == NULL && f.prev[x] == NULL && f.parent[x] == NULL
    ensures s.up[x] != NULL ==>
              var q := s.kids[s.up[x]];
              && i < |q| && q[i] == x && i == IndexOf(q, x)
              && f.next[x] == At(q, i + 1) && f.prev[x] == At(q, i - 1)
              && f.parent[x] == (if i == 0 then s.up[x] else NULL)
    ensures f.next[x] != NULL ==> f.next[x] in s.live && f.next[x] != x && s.up[f.next[x]] == s.up[x] && s.up[x] != NULL
    ensures f.prev[x] != NULL ==> f.prev[x] in s.live && f.prev[x] != x && s.up[f.prev[x]] == s.up[x] && s.up[x] != NULL
    ensures f.parent[x] != NULL ==> f.parent[x] in s.live && f.parent[x] != x && f.parent[x] == s.up[x]
    ensures f.child[x] == At(s.kids[x], 0)
    ensures f.child[x] != NULL
            ==> f.child[x] in s.live && f.child[x] != x && s.up[f.child[x]] == x && f.parent[f.child[x]] == x
  {
    i := 0;
    assert s.place[x] == InList;
    if s.up[x] != NULL {
      i := Neighbours(s, f.next, f.prev, f.parent, x);
    }
    if s.kids[x] != [] {
      RowFacts(s, x, 0);
      var k := s.kids[x][0];
      assert Headed(f.parent, x, s.kids[x]);
      assert f.parent[s.kids[x][0]] == x;
    }
  }

  /** x comes right before y in a list exactly when y comes right after x. */
  lemma NextIffPrev(f: Fields, s: Heap, x: Ptr, y: Ptr)
    requires Represents(f, s) && AtRest(s) && x in s.live && y in s.live
    ensures f.next[x] == y <==> f.prev[y] == x
  {
    var i := SiblingFacts(f, s, x);
    var j := SiblingFacts(f, s, y);
    if f.next[x] == y || f.prev[y] == x {
      assert s.up[x] == s.up[y] && s.up[x] != NULL;
    }
  }

  lemma ParentIffChild(f: Fields, s: Heap, x: Ptr, y: Ptr)
    requires Represents(f, s) && AtRest(s) && x in s.live && y in s.live
    ensures f.parent[x] == y <==> f.child[y] == x
  {
    var i := SiblingFacts(f, s, x);
    var j := SiblingFacts(f, s, y);
  }

  /** Each link map is renamed as a whole, although at most one entry besides c's own is
      written. */
  lemma NextRenamed(f: Fields, s: Heap, c: Ptr, n: Ptr, size: nat, x: Ptr)
    requires Represents(f, s) && AtRest(s) && c in s.live && Usable(s.live, c, n) && x in s.live
    ensures var l, y := Patched(f, c, n, size).next, Ren(c, n, x); y in l && l[y] == Ren(c, n, f.next[x])
  {
    NextIffPrev(f, s, x, c);
    var i := SiblingFacts(f, s, c);
  }

  lemma PrevRenamed(f: Fields, s: Heap, c: Ptr, n: Ptr, size: nat, x: Ptr)
    requires Represents(f, s) && AtRest(s) && c in s.live && Usable(s.live, c, n) && x in s.live
    ensures var l, y := Patched(f, c, n, size).prev, Ren(c, n, x); y in l && l[y] == Ren(c, n, f.prev[x])
  {
    NextIffPrev(f, s, c, x);
    var i := SiblingFacts(f, s, c);
  }

  lemma TreeRenamed(f: Fields, s: Heap, c: Ptr, n: Ptr, size: nat, x: Ptr)
    requires Represents(f, s) && AtRest(s) && c in s.live && Usable(s.live, c, n) && x in s.live
    ensures var l, y := Patched(f, c, n, size).parent, Ren(c, n, x); y in l && l[y] == Ren(c, n, f.parent[x])
    ensures var l, y := Patched(f, c, n, size).child, Ren(c, n, x); y in l && l[y] == Ren(c, n, f.child[x])
  {
    ParentIffChild(f, s, x, c);
    ParentIffChild(f, s, c, x);
    var i := SiblingFacts(f, s, c);
  }

  lemma LinksRenamed(f: Fields, s: Heap, c: Ptr, n: Ptr, size: nat, x: Ptr)
    requires Represents(f, s) && AtRest(s) && c in s.live && Usable(s.live, c, n) && x in s.live
    ensures var f', y := Patched(f, c, n, size), Ren(c, n, x);
            && y in f'.next && f'.next[y] == Ren(c, n, f.next[x])
            && y in f'.prev && f'.prev[y] == Ren(c, n, f.prev[x])
            && y in f'.parent && f'.parent[y] == Ren(c, n, f.parent[x])
            && y in f'.child && f'.child[y] == Ren(c, n, f.child[x])
  {
    NextRenamed(f, s, c, n, size, x);
    PrevRenamed(f, s, c, n, size, x);
    TreeRenamed(f, s, c, n, size, x);
  }

  lemma ForwardRenamed(next: Link, next': Link, q: seq<Ptr>, c: Ptr, n: Ptr)
    requires Forward(next, q) && c != NULL
    requires forall k :: k in q ==> k in next && Ren(c, n, k) in next' && next'[Ren(c, n, k)] == Ren(c, n, next[k])
    ensures Forward(next', RenAll(c, n, q))
  {
    var r := RenAll(c, n, q);
    forall i | 0 <= i < |r| ensures r[i] in next' && next'[r[i]] == At(r, i + 1) {
      var k := q[i];
      assert k in q && next[q[i]] == At(q, i + 1);
    }
  }

  lemma BackwardRenamed(prev: Link, prev': Link, q: seq<Ptr>, c: Ptr, n: Ptr)
    requires Backward(prev, q) && c != NULL
    requires forall k :: k in q ==> k in prev && Ren(c, n, k) in prev' && prev'[Ren(c, n, k)] == Ren(c, n, prev[k])
    ensures Backward(prev', RenAll(c, n, q))
  {
    var r := RenAll(c, n, q);
    forall i | 0 <= i < |r| ensures r[i] in prev' && prev'[r[i]] == At(r, i - 1) {
      var k := q[i];
      assert k in q && prev[q[i]] == At(q, i - 1);
    }
  }

  lemma HeadedRenamed(parent: Link, parent': Link, p: Ptr, q: seq<Ptr>, c: Ptr, n: Ptr)
    requires Headed(parent, p, q) && c != NULL
    requires forall k :: k in q ==> k in parent && Ren(c, n, k) in parent' && parent'[Ren(c, n, k)] == Ren(c, n, parent[k])
    ensures Headed(parent', Ren(c, n, p), RenAll(c, n, q))
  {
    var r := RenAll(c, n, q);
    forall i | 0 <= i < |r| ensures r[i] in parent' && parent'[r[i]] == if i == 0 then Ren(c, n, p) else NULL {
      var k := q[i];
      assert k in q && parent[q[i]] == if i == 0 then p else NULL;
    }
  }

  lemma KidRowsRenamed(f: Fields, s: Heap, c: Ptr, n: Ptr, size: nat)
    requires Represents(f, s) && AtRest(s) && c in s.live && Usable(s.live, c, n)
    ensures var f', t := Patched(f, c, n, size), Renamed(s, c, n, size);
            && AllForward(f'.next, t.kids) && AllBackward(f'.prev, t.kids) && AllHeaded(f'.parent, t.kids)
            && AllFirst(f'.child, t.kids)
  {
    var f', t := Patched(f, c, n, size), Renamed(s, c, n, size);
    RenamedAt(s, c, n, size, c);
    forall p | p in t.kids
      ensures Forward(f'.next, t.kids[p]) && Backward(f'.prev, t.kids[p]) && Headed(f'.parent, p, t.kids[p])
      ensures p in f'.child && f'.child[p] == At(t.kids[p], 0)
    {
      OldIs(s, c, n, size, p);
      var o := Old(c, n, p);
      RenamedAt(s, c, n, size, o);
      var q := s.kids[o];
      forall k | k in q
        ensures k in f.next && k in f.prev && k in f.parent
        ensures var y := Ren(c, n, k);
                && y in f'.next && f'.next[y] == Ren(c, n, f.next[k])
                && y in f'.prev && f'.prev[y] == Ren(c, n, f.prev[k])
                && y in f'.parent && f'.parent[y] == Ren(c, n, f.parent[k])
      {
        LinksRenamed(f, s, c, n, size, k);
      }
      ForwardRenamed(f.next, f'.next, q, c, n);
      BackwardRenamed(f.prev, f'.prev, q, c, n);
      HeadedRenamed(f.parent, f'.parent, o, q, c, n);
      LinksRenamed(f, s, c, n, size, o);
    }
  }

  /** Nobody refers to c, and c is no handle, so the references are untouched. */
  lemma RefLinksRenamed(f: Fields, s: Heap, c: Ptr, n: Ptr, size: nat, h: Ptr)
    requires Represents(f, s) && c in s.live && !IsHandle(s, c) && s.refs[c] == [] && Usable(s.live, c, n)
             && IsHandle(s, h)
    ensures var f', y := Patched(f, c, n, size), Ren(c, n, h);
            && y in f'.refNext && f'.refNext[y] == Ren(c, n, f.refNext[h])
            && y in f'.refPrev && f'.refPrev[y] == Ren(c, n, f.refPrev[h])
            && y in f'.ptr && f'.ptr[y] == Ren(c, n, f.ptr[h])
  {
    var i := RefNeighbours(f, s, h);
    assert s.target[h] != c;
  }

  lemma RefRowRenamed(f: Fields, s: Heap, c: Ptr, n: Ptr, size: nat, o: Ptr)
    requires Represents(f, s) && c in s.live && !IsHandle(s, c) && s.refs[c] == [] && Usable(s.live, c, n)
             && o in s.live
    ensures var f', q := Patched(f, c, n, size), RenAll(c, n, s.refs[o]);
            Forward(f'.refNext, q) && Backward(f'.refPrev, q)
  {
    var f', q := Patched(f, c, n, size), s.refs[o];
    forall k | k in q
      ensures k in f.refNext && k in f.refPrev
      ensures var y := Ren(c, n, k);
              && y in f'.refNext && f'.refNext[y] == Ren(c, n, f.refNext[k])
              && y in f'.refPrev && f'.refPrev[y] == Ren(c, n, f.refPrev[k])
    {
      assert s.target[k] == o;
      RefLinksRenamed(f, s, c, n, size, k);
    }
    assert Forward(f.refNext, q) && Backward(f.refPrev, q);
    ForwardRenamed(f.refNext, f'.refNext, q, c, n);
    BackwardRenamed(f.refPrev, f'.refPrev, q, c, n);
  }

  lemma RefRowsRenamed(f: Fields, s: Heap, c: Ptr, n: Ptr, size: nat)
    requires Represents(f, s) && c in s.live && !IsHandle(s, c) && s.refs[c] == [] && Usable(s.live, c, n)
    ensures var f', t := Patched(f, c, n, size), Renamed(s, c, n, size);
            && AllForward(f'.refNext, t.refs) && AllBackward(f'.refPrev, t.refs) && AllFirst(f'.refs, t.refs)
  {
    var f', t := Patched(f, c, n, size), Renamed(s, c, n, size);
    RenamedAt(s, c, n, size, c);
    forall p | p in t.refs
      ensures Forward(f'.refNext, t.refs[p]) && Backward(f'.refPrev, t.refs[p])
      ensures p in f'.refs && f'.refs[p] == At(t.refs[p], 0)
    {
      OldIs(s, c, n, size, p);
      var o := Old(c, n, p);
      RenamedAt(s, c, n, size, o);
      RefRowRenamed(f, s, c, n, size, o);
      if s.refs[o] != [] { RefRowFacts(s, o, 0); }
    }
  }

  lemma RenamedRest(s: Heap, c: Ptr, n: Ptr, size: nat)
    requires AtRest(s) && c in s.live && Usable(s.live, c, n)
    ensures AtRest(Renamed(s, c, n, size))
  {
    var t := Renamed(s, c, n, size);
    RenamedWf(s, c, n, size);
    forall x | x in t.live ensures t.place[x] == InList && !t.loop[x] {
      OldIs(s, c, n, size, x);
      RenamedAt(s, c, n, size, Old(c, n, x));
      assert s.place[Old(c, n, x)] == InList;
    }
  }

  lemma OutsideRenamed(f: Fields, s: Heap, c: Ptr, n: Ptr, size: nat)
    requires Represents(f, s) && AtRest(s) && c in s.live && Usable(s.live, c, n)
    ensures var f', t := Patched(f, c, n, size), Renamed(s, c, n, size);
            Domains(t) && Outside(t, f'.next, f'.prev, f'.parent)
  {
    var f', t := Patched(f, c, n, size), Renamed(s, c, n, size);
    RenamedRest(s, c, n, size);
    forall x | x in t.live
      ensures t.place[x] == InList && x in f'.next && x in f'.prev && x in f'.parent
      ensures t.up[x] == NULL ==> f'.next[x] == NULL && f'.prev[x] == NULL && f'.parent[x] == NULL
    {
      OldIs(s, c, n, size, x);
      var o := Old(c, n, x);
      RenamedAt(s, c, n, size, o);
      LinksRenamed(f, s, c, n, size, o);
      var i := SiblingFacts(f, s, o);
    }
  }

  lemma PointersRenamed(f: Fields, s: Heap, c: Ptr, n: Ptr, size: nat)
    requires Represents(f, s) && c in s.live && !IsHandle(s, c) && s.refs[c] == [] && Usable(s.live, c, n)
    ensures var f', t := Patched(f, c, n, size), Renamed(s, c, n, size);
            Domains(t) && forall h {:trigger t.target[h]} :: h in t.live && t.target[h] != NULL ==> h in f'.ptr && f'.ptr[h] == t.target[h]
  {
    var f', t := Patched(f, c, n, size), Renamed(s, c, n, size);
    RenamedAt(s, c, n, size, c);
    forall h | h in t.live && t.target[h] != NULL ensures h in f'.ptr && f'.ptr[h] == t.target[h] {
      OldIs(s, c, n, size, h);
      var o := Old(c, n, h);
      RenamedAt(s, c, n, size, o);
      RefLinksRenamed(f, s, c, n, size, o);
    }
  }

  lemma MovedOver(live: set<Ptr>, l: Link, c: Ptr, n: Ptr)
    requires Over(live, l) && c in l
    ensures Over(live - {c} + {n}, Moved(l, c, n))
  {
  }

  lemma PutOver(live: set<Ptr>, l: Link, k: Ptr, v: Ptr)
    requires Over(live, l) && (k == NULL || k in live)
    ensures Over(live, Put(l, k, v))
  {
  }

  /** The fields are exactly those of the live chunks again. */
  lemma PatchedDomains(f: Fields, s: Heap, c: Ptr, n: Ptr, size: nat)
    requires Represents(f, s) && AtRest(s) && c in s.live && Usable(s.live, c, n)
    ensures var f', live := Patched(f, c, n, size), Renamed(s, c, n, size).live;
            && Over(live, f'.next) && Over(live, f'.prev) && Over(live, f'.parent) && Over(live, f'.child)
            && Over(live, f'.refs)
            && Over(live, f'.refNext) && Over(live, f'.refPrev) && Over(live, f'.ptr)
  {
    var live := s.live - {c} + {n};
    var i := SiblingFacts(f, s, c);
    MovedOver(s.live, f.next, c, n);
    MovedOver(s.live, f.prev, c, n);
    MovedOver(s.live, f.parent, c, n);
    MovedOver(s.live, f.child, c, n);
    MovedOver(s.live, f.refs, c, n);
    MovedOver(s.live, f.refNext, c, n);
    MovedOver(s.live, f.refPrev, c, n);
    MovedOver(s.live, f.ptr, c, n);
    PutOver(live, Moved(f.next, c, n), f.prev[c], n);
    PutOver(live, Moved(f.prev, c, n), f.next[c], n);
    PutOver(live, Moved(f.parent, c, n), f.child[c], n);
    PutOver(live, Moved(f.child, c, n), f.parent[c], n);
  }

  /** Moving a chunk renames it in the whole heap. */
  lemma PatchedRepresents(f: Fields, s: Heap, c: Ptr, n: Ptr, size: nat)
    requires Represents(f, s) && AtRest(s) && c in s.live && !IsHandle(s, c) && s.refs[c] == [] && Usable(s.live, c, n)
    ensures Represents(Patched(f, c, n, size), Renamed(s, c, n, size))
  {
    RenamedWf(s, c, n, size);
    KidRowsRenamed(f, s, c, n, size);
    RefRowsRenamed(f, s, c, n, size);
    OutsideRenamed(f, s, c, n, size);
    PointersRenamed(f, s, c, n, size);
    PatchedDomains(f, s, c, n, size);
  }

  // ---------- _talloc_realloc ----------

  /** realloc(tc, ..) when it answers n: the block's contents are now at n. */
  ghost function MovedFields(f: Fields, c: Ptr, n: Ptr): Fields
    requires c in f.next && c in f.prev && c in f.parent && c in f.child && c in f.refs && c in f.destructor
    requires c in f.size && c in f.loop && c in f.refNext && c in f.refPrev && c in f.ptr
  {
    Fields(Moved(f.next, c, n), Moved(f.prev, c, n), Moved(f.parent, c, n), Moved(f.child, c, n), Moved(f.refs, c, n),
           Moved(f.destructor, c, n), Moved(f.size, c, n), Moved(f.loop, c, n),
           Moved(f.refNext, c, n), Moved(f.refPrev, c, n), Moved(f.ptr, c, n))
  }

  /** The assignments of _talloc_realloc after the block has moved from c to tc. */
  method Patch(f: Fields, ghost s: Heap, ghost was: Fields, ghost c: Ptr, tc: Ptr, size: nat) returns (f': Fields)
    requires Represents(was, s) && AtRest(s) && c in s.live && Usable(s.live, c, tc) && f == MovedFields(was, c, tc)
    ensures f' == Patched(was, c, tc, size)
  {
    ghost var i := SiblingFacts(was, s, c);
    f' := f;
    if f'.parent[tc] != NULL { f' := f'.(child := f'.child[f'.parent[tc] := tc]); }
    if f'.child[tc] != NULL { f' := f'.(parent := f'.parent[f'.child[tc] := tc]); }
    if f'.prev[tc] != NULL { f' := f'.(next := f'.next[f'.prev[tc] := tc]); }
    if f'.next[tc] != NULL { f' := f'.(prev := f'.prev[f'.next[tc] := tc]); }
    f' := f'.(size := f'.size[tc := size]);
  }

  /** realloc copies the block from c to n and frees the old one. */
  method MoveBlock(f: Fields, c: Ptr, n: Ptr) returns (f': Fields)
    requires c in f.next && c in f.prev && c in f.parent && c in f.child && c in f.refs && c in f.destructor
    requires c in f.size && c in f.loop && c in f.refNext && c in f.refPrev && c in f.ptr
    ensures f' == MovedFields(f, c, n)
  {
    f' := Fields((f.next - {c})[n := f.next[c]], (f.prev - {c})[n := f.prev[c]], (f.parent - {c})[n := f.parent[c]],
                 (f.child - {c})[n := f.child[c]], (f.refs - {c})[n := f.refs[c]],
                 (f.destructor - {c})[n := f.destructor[c]], (f.size - {c})[n := f.size[c]], (f.loop - {c})[n := f.loop[c]],
                 (f.refNext - {c})[n := f.refNext[c]], (f.refPrev - {c})[n := f.refPrev[c]], (f.ptr - {c})[n := f.ptr[c]]);
  }

  /** The fields when the memory of the chunk c has grown or shrunk to size, at the address n. */
  method ResizeFields(f: Fields, ghost s: Heap, c: Ptr, size: nat, n: Ptr) returns (f': Fields)
    requires Represents(f, s) && AtRest(s) && c in s.live && !IsHandle(s, c) && s.refs[c] == [] && Usable(s.live, c, n)
    ensures Represents(f', Renamed(s, c, n, size))
  {
    PatchedRepresents(f, s, c, n, size);
    f' := MoveBlock(f, c, n);
    f' := Patch(f', s, f, c, n, size);
  }

  method Resize(m: Memory, c: Ptr, size: nat, n: Ptr)
    requires m.Linked() && AtRest(m.heap) && c in m.heap.live && !IsHandle(m.heap, c) && m.heap.refs[c] == []
    requires Usable(m.heap.live, c, n)
    modifies m
    ensures m.Linked() && m.heap == Renamed(old(m.heap), c, n, size)
  {
    assert Look(0);
    var f := ResizeFields(m.f, m.heap, c, size, n);
    Install(m, f, Renamed(m.heap, c, n, size));
  }

  /** _talloc_realloc.  `block` is what malloc or realloc answers, if it is asked: NULL, the
      old address, or an address not in use. */
  method Realloc(m: Memory, context: Ptr, ptr: Ptr, size: nat, block: Ptr) returns (newPtr: Ptr)
    requires m.Linked() && AtRest(m.heap)
    requires ptr == NULL ==> context == NULL || (context in m.heap.live && !IsHandle(m.heap, context))
    requires ptr != NULL ==> ptr in m.heap.live && !IsHandle(m.heap, ptr)
    requires size == 0 && ptr != NULL ==> Held(m.heap) && LeftOk(m.heap, ptr)
    requires size == 0 && ptr != NULL ==> exists r: Ptr -> nat :: OwnersRanked(m.heap, r, ptr)
    requires block == ptr || block !in m.heap.live
    modifies m
    ensures m.Linked()
    ensures newPtr == if size == 0 || size >= 0x1000_0000 then NULL
                      else if ptr != NULL && old(m.heap).refs[ptr] != [] then NULL else block
    ensures size == 0 && ptr != NULL ==>
              if OwnRefsOnly(old(m.heap), ptr) && !Refusing(old(m.heap), ptr)
              then FreedExactly(old(m.heap), m.heap, ptr) && AtRest(m.heap) && Held(m.heap) && Acyclic(m.heap)
              else m.heap == Dereferenced(old(m.heap), ptr)
    ensures newPtr == NULL && (size != 0 || ptr == NULL) ==> m.heap == old(m.heap)
    ensures newPtr != NULL && ptr == NULL ==> m.heap == Allocated(old(m.heap), newPtr, context, size)
    ensures newPtr != NULL && ptr == NULL ==> NewChunk(old(m.heap), m.heap, newPtr, context, size)
    ensures newPtr != NULL && ptr != NULL ==> m.heap == Renamed(old(m.heap), ptr, newPtr, size) && AtRest(m.heap)
    ensures newPtr != NULL && ptr != NULL ==> Relocated(old(m.heap), m.heap, ptr, newPtr, size)
  {
    if size == 0 {
      var rc := FreePtr(m, ptr);
      return NULL;
    }
    if size >= MAX_TALLOC_SIZE {
      return NULL;
    }
    if ptr == NULL {
      newPtr := Talloc(m, context, size, block);
      return;
    }
    var refs := NewestRef(m, ptr);
    if refs != NULL {
      return NULL;
    }
    if block == NULL {
      return NULL;
    }
    RenamedRest(m.heap, ptr, block, size);
    RenamedRelocates(m.heap, ptr, block, size);
    Resize(m, ptr, size, block);
    newPtr := block;
  }

  /** t is s with the chunk c at the address n and of this size: every link that led to c
      leads to n, in its place in every list, and nothing else has changed. */
  ghost predicate Relocated(s: Heap, t: Heap, c: Ptr, n: Ptr, size: nat)
    requires Domains(s) && Domains(t)
  {
    && c in s.live && t.live == s.live - {c} + {n}
    && forall x {:trigger x in s.live} :: x in s.live ==>
         var y := if x == c then n else x;
         && y in t.live && t.size[y] == (if x == c then size else s.size[x])
         && t.dtor[y] == s.dtor[x] && t.loop[y] == s.loop[x] && t.place[y] == s.place[x]
         && t.up[y] == (if s.up[x] == c then n else s.up[x])
         && t.target[y] == (if s.target[x] == c then n else s.target[x])
         && SameRow(s.kids[x], t.kids[y], c, n) && SameRow(s.refs[x], t.refs[y], c, n)
  }

  /** The same list with n for c. */
  ghost predicate SameRow(q: seq<Ptr>, r: seq<Ptr>, c: Ptr, n: Ptr) {
    |r| == |q| && forall i {:trigger r[i]} :: 0 <= i < |q| ==> r[i] == if q[i] == c then n else q[i]
  }

  lemma RenamedRelocates(s: Heap, c: Ptr, n: Ptr, size: nat)
    requires Wf(s) && c in s.live && Usable(s.live, c, n)
    ensures var t := Renamed(s, c, n, size); Domains(t) && Relocated(s, t, c, n, size)
  {
    RenMapsOver(s.live, s.up, s.kids, c, n);
    RenMapsOver(s.live, s.target, s.refs, c, n);
    var t := Renamed(s, c, n, size);
    forall x | x in s.live
      ensures var y := if x == c then n else x;
              && y in t.live && t.size[y] == (if x == c then size else s.size[x])
              && t.dtor[y] == s.dtor[x] && t.loop[y] == s.loop[x] && t.place[y] == s.place[x]
              && t.up[y] == (if s.up[x] == c then n else s.up[x])
              && t.target[y] == (if s.target[x] == c then n else s.target[x])
              && SameRow(s.kids[x], t.kids[y], c, n) && SameRow(s.refs[x], t.refs[y], c, n)
    {
      RenamedAt(s, c, n, size, x);
    }
  }

  // ---------- what a renaming keeps ----------

  /** The new chunk stands in the forest exactly where the old one stood. */
  lemma {:induction false} RenamedAbove(s: Heap, c: Ptr, n: Ptr, size: nat, x: Ptr, k: nat)
    requires AtRest(s) && c in s.live && Usable(s.live, c, n) && (x in s.live || x == NULL)
    ensures Wf(Renamed(s, c, n, size))
            && AboveBy(Renamed(s, c, n, size), Ren(c, n, x), k) == Ren(c, n, AboveBy(s, x, k))
    decreases k
  {
    var t := Renamed(s, c, n, size);
    RenamedRest(s, c, n, size);
    if k > 0 && x != NULL {
      RenamedAt(s, c, n, size, x);
      assert s.place[x] == InList;
      RenamedAbove(s, c, n, size, s.up[x], k - 1);
    }
  }

  lemma RenamedContains(s: Heap, c: Ptr, n: Ptr, size: nat, a: Ptr, x: Ptr)
    requires AtRest(s) && c in s.live && Usable(s.live, c, n) && a in s.live && x in s.live
    ensures Wf(Renamed(s, c, n, size))
    ensures Contains(Renamed(s, c, n, size), Ren(c, n, a), Ren(c, n, x)) <==> Contains(s, a, x)
  {
    var t := Renamed(s, c, n, size);
    RenamedRest(s, c, n, size);
    forall k: nat ensures AboveBy(t, Ren(c, n, x), k) == Ren(c, n, a) <==> AboveBy(s, x, k) == a {
      RenamedAbove(s, c, n, size, x, k);
      AboveLive(s, x, k);
    }
  }

  lemma {:induction false} AboveLive(s: Heap, x: Ptr, k: nat)
    requires AtRest(s) && (x in s.live || x == NULL)
    ensures AboveBy(s, x, k) in s.live || AboveBy(s, x, k) == NULL
    decreases k
  {
    if k > 0 && x != NULL {
      assert s.place[x] == InList;
      AboveLive(s, s.up[x], k - 1);
    }
  }

  lemma RenamedClimbs(s: Heap, c: Ptr, n: Ptr, size: nat, r: Ptr -> nat, q: Ptr -> nat)
    requires AtRest(s) && Climbs(s, r) && c in s.live && Usable(s.live, c, n)
    requires AtRest(Renamed(s, c, n, size)) && forall y :: q(y) == r(Old(c, n, y))
    ensures Climbs(Renamed(s, c, n, size), q)
  {
    var t := Renamed(s, c, n, size);
    forall y | y in t.live
      ensures Anchored(t, y) && (Above(t, y) != NULL ==> Above(t, y) in t.live && q(Above(t, y)) < q(y))
    {
      OldIs(s, c, n, size, y);
      var x := Old(c, n, y);
      RenamedAt(s, c, n, size, x);
      assert t.place[y] == InList && s.place[x] == InList && Anchored(s, x) && Above(s, x) == s.up[x];
      if s.up[x] != NULL { assert Old(c, n, t.up[y]) == s.up[x]; }
    }
  }

  lemma RenamedHolders(s: Heap, c: Ptr, n: Ptr, size: nat, r: Ptr -> nat, h: Ptr)
    requires Wf(s) && Held(s) && OwnersRanked(s, r, NULL) && c in s.live && Usable(s.live, c, n)
    requires Wf(Renamed(s, c, n, size)) && h in Renamed(s, c, n, size).live && Renamed(s, c, n, size).target[h] != NULL
    ensures var t := Renamed(s, c, n, size); t.up[h] != NULL && r(Old(c, n, t.up[h])) < r(Old(c, n, t.target[h]))
  {
    OldIs(s, c, n, size, h);
    var x := Old(c, n, h);
    RenamedAt(s, c, n, size, x);
    assert s.target[x] != NULL;
    assert s.up[x] in s.live && s.target[x] in s.live;
  }

  lemma RenamedHeld(s: Heap, c: Ptr, n: Ptr, size: nat, r: Ptr -> nat, q: Ptr -> nat)
    requires Wf(s) && Held(s) && OwnersRanked(s, r, NULL) && c in s.live && Usable(s.live, c, n)
    requires Wf(Renamed(s, c, n, size)) && Climbs(Renamed(s, c, n, size), q) && forall y :: q(y) == r(Old(c, n, y))
    ensures Held(Renamed(s, c, n, size)) && OwnersRanked(Renamed(s, c, n, size), q, NULL)
  {
    var t := Renamed(s, c, n, size);
    forall h | h in t.live && t.target[h] != NULL ensures t.up[h] != NULL && q(t.up[h]) < q(t.target[h]) {
      RenamedHolders(s, c, n, size, r, h);
    }
  }

  lemma RenamedRanked(s: Heap, c: Ptr, n: Ptr, size: nat, r: Ptr -> nat)
    requires AtRest(s) && Held(s) && OwnersRanked(s, r, NULL) && c in s.live && Usable(s.live, c, n)
    ensures AtRest(Renamed(s, c, n, size)) && Held(Renamed(s, c, n, size)) && Acyclic(Renamed(s, c, n, size))
  {
    var q: Ptr -> nat := y => r(Old(c, n, y));
    RenamedRest(s, c, n, size);
    RenamedClimbs(s, c, n, size, r, q);
    RenamedHeld(s, c, n, size, r, q);
  }

  /** A moved chunk leaves a good heap good. */
  lemma RenamedGood(s: Heap, c: Ptr, n: Ptr, size: nat)
    requires Good(s) && c in s.live && Usable(s.live, c, n)
    ensures Good(Renamed(s, c, n, size))
  {
    var r: Ptr -> nat :| OwnersRanked(s, r, NULL);
    RenamedRanked(s, c, n, size, r);
  }
}
