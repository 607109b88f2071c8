/** Why talloc_free of lib/talloc/talloc.c needs a condition on the left neighbour: in the
    heaps described here it reads freed memory, and a few calls lead to one of them.  With the
    same children in the other order it does not, so the condition is not a necessary one. */
module TallocLeftNeighbour {
  import opened Hiding
  import opened TallocHeap
  import opened TallocLinks
  import opened TallocSteps
  import opened TallocWalks
  import opened TallocAlloc
  import opened TallocSweep
  import opened TallocSweepSteps
  import opened TallocFreeSteps
  import opened TallocZones
  import opened TallocFree
  import opened TallocFreeTheorems
  import opened TallocForest
  import opened TallocRuns

  /** The only reference h to the child x of c stands directly left of c in the list of
      their parent p, and the child z of c refuses to be freed. */
  ghost predicate Leaning(s: Heap, p: Ptr, h: Ptr, c: Ptr, x: Ptr, z: Ptr) {
    && Good(s) && p in s.live && h in s.live && c in s.live && x in s.live && z in s.live && x != z
    && x in s.kids[c] && z in s.kids[c]
    && s.up[c] == p && IsHandle(s, h) && s.target[h] == x && s.refs[x] == [h]
    && 0 < IndexOf(s.kids[p], c) < |s.kids[p]| && s.kids[p][IndexOf(s.kids[p], c) - 1] == h
    && s.refs[c] == [] && s.target[c] == NULL && !Refusing(s, c)
    && s.refs[z] == [] && Refusing(s, z)
  }

  /** The children of c begin with x and z. */
  ghost predicate Endangered(s: Heap, p: Ptr, h: Ptr, c: Ptr, x: Ptr, z: Ptr) {
    && Leaning(s, p, h, c, x, z)
    && |s.kids[c]| > 1 && x == s.kids[c][0] && z == s.kids[c][1]
  }

  lemma LeaningFacts(s: Heap, p: Ptr, h: Ptr, c: Ptr, x: Ptr, z: Ptr)
    requires Leaning(s, p, h, c, x, z)
    ensures s.up[x] == c && s.up[z] == c && s.up[h] == p && s.target[x] == NULL && x != z && p != NULL && h != c
            && h != x && h != z
    ensures s.place[c] == InList
  {
    RowFacts(s, p, IndexOf(s.kids[p], c) - 1);
    assert s.place[c] == InList;
    assert h in s.refs[x];
  }

  lemma EndangeredFacts(s: Heap, p: Ptr, h: Ptr, c: Ptr, x: Ptr, z: Ptr)
    requires Endangered(s, p, h, c, x, z)
    ensures s.up[x] == c && s.up[z] == c && s.up[h] == p && s.target[x] == NULL && x != z && p != NULL && h != c
            && h != x && h != z
    ensures s.place[c] == InList && IndexOf(s.kids[c], x) == 0
  {
    LeaningFacts(s, p, h, c, x, z);
    RowFacts(s, c, 0);
  }

  /** talloc_free(c) is not allowed. */
  lemma NotLeftOk(s: Heap, p: Ptr, h: Ptr, c: Ptr, x: Ptr, z: Ptr)
    requires Leaning(s, p, h, c, x, z)
    ensures !LeftOk(s, c)
  {
    LeaningFacts(s, p, h, c, x, z);
    assert s.place[x] == InList && s.place[z] == InList;
    assert AboveBy(s, c, 0) == c && AboveBy(s, x, 1) == c && AboveBy(s, z, 1) == c;
    assert x in Below(s, c) && z in Below(s, c);
    assert s.target[z] == s.target[z];
  }

  /** The first round of the loop of talloc_free(c): x answers -1 and loses its reference,
      which frees h, and goes to p. */
  lemma FirstRound(s: Heap, p: Ptr, h: Ptr, c: Ptr, x: Ptr, z: Ptr, r: Ptr -> nat, keep: set<Ptr>)
    requires Endangered(s, p, h, c, x, z)
    ensures var o := Opened(s, c);
            && Wf(o) && c in o.live && o.kids[c] == s.kids[c] && o.place[c] == Unlinked(h, NULL) && IsHandle(o, h)
            && Wf(DropHandle(o, h)) && x in o.live && FreeSpec(o, DropHandle(o, h), x, r, keep, -1)
  {
    EndangeredFacts(s, p, h, c, x, z);
    OpenedIs(s, c);
    OpenedPlace(s, c);
    var o := Opened(s, c);
    DropHandleIs(o, h);
    assert x in o.live && h in o.live;
    HolderOutside(s, p, h, c, x, z);
  }

  lemma OpenedPlace(s: Heap, c: Ptr)
    requires Wf(s) && c in s.live && !IsHandle(s, c) && s.up[c] != NULL && 0 < IndexOf(s.kids[s.up[c]], c)
    ensures var q := s.kids[s.up[c]]; Opened(s, c).place[c] == Unlinked(q[IndexOf(q, c) - 1], NULL)
  {
  }

  /** h is not held below x, also while c is being freed. */
  lemma HolderOutside(s: Heap, p: Ptr, h: Ptr, c: Ptr, x: Ptr, z: Ptr)
    requires Endangered(s, p, h, c, x, z)
    ensures Domains(Opened(s, c)) && !Contains(Opened(s, c), x, h)
  {
    EndangeredFacts(s, p, h, c, x, z);
    OpenedIs(s, c);
    var o := Opened(s, c);
    var r: Ptr -> nat :| OwnersRanked(s, r, NULL);
    RestSound(s, NULL, r);
    OpenedSound(s, c, r);
    assert x in o.live && h in o.live && o.target[h] == x;
    NotInside(o, r, x, h);
  }

  /** What the first round has left, before x is moved. */
  ghost predicate HandleFreed(u: Heap, p: Ptr, h: Ptr, c: Ptr, x: Ptr, z: Ptr) {
    && Wf(u) && p in u.live && c in u.live && x in u.live && z in u.live && h !in u.live && x != z && p != x && p != c
    && c != x
    && |u.kids[c]| > 1 && u.kids[c][0] == x && u.kids[c][1] == z && u.up[x] == c && u.place[x] == InList
    && u.place[c] == Unlinked(h, NULL) && u.target[p] == NULL && h != NULL
    && u.refs[z] == [] && Refusing(u, z)
  }

  /** What the unlinking code has left. */
  ghost predicate ChunkUnlinked(o: Heap, p: Ptr, h: Ptr, c: Ptr, x: Ptr, z: Ptr) {
    && Wf(o) && p in o.live && h in o.live && c in o.live && x in o.live && z in o.live && h != p && h != c && h != x
    && h != z && x != z && p != x && p != c && c != x
    && |o.kids[c]| > 1 && o.kids[c][0] == x && o.kids[c][1] == z && o.up[x] == c && o.place[x] == InList
    && o.place[c] == Unlinked(h, NULL) && o.target[p] == NULL && IsHandle(o, h) && o.up[h] == p && o.target[h] == x
    && o.refs[z] == [] && Refusing(o, z)
  }

  lemma UnlinkedFirst(s: Heap, p: Ptr, h: Ptr, c: Ptr, x: Ptr, z: Ptr)
    requires Endangered(s, p, h, c, x, z)
    ensures ChunkUnlinked(Opened(s, c), p, h, c, x, z)
  {
    EndangeredFacts(s, p, h, c, x, z);
    OpenedIs(s, c);
    OpenedPlace(s, c);
    Apart(s, p, h, c, x, z);
    var o := Opened(s, c);
    assert p in o.live && h in o.live && x in o.live && z in o.live;
  }

  lemma Apart(s: Heap, p: Ptr, h: Ptr, c: Ptr, x: Ptr, z: Ptr)
    requires Leaning(s, p, h, c, x, z)
    ensures p != x && p != c && c != x && c != z && h != p && s.place[x] == InList && s.target[p] == NULL
  {
    LeaningFacts(s, p, h, c, x, z);
    assert c in s.kids[p] && h in s.kids[p] && x in s.kids[c] && z in s.kids[c];
    assert s.place[x] == InList && s.place[c] == InList && s.up[x] == c;
    var r: Ptr -> nat :| OwnersRanked(s, r, NULL);
    assert Above(s, c) == p && Above(s, x) == c;
  }

  lemma HandleGoes(o: Heap, p: Ptr, h: Ptr, c: Ptr, x: Ptr, z: Ptr)
    requires ChunkUnlinked(o, p, h, c, x, z)
    ensures HandleFreed(DropHandle(o, h), p, h, c, x, z)
  {
    var u := DropHandle(o, h);
    DropHandleIs(o, h);
    assert p in u.live && c in u.live;
    assert x in u.live && z in u.live;
    assert u.kids[c] == o.kids[c] && u.refs[z] == o.refs[z];
  }

  /** The next child of c is z, which refuses and is not referenced, and c is adrift. */
  ghost predicate Caught(a: Heap, c: Ptr, z: Ptr) {
    && Wf(a) && c in a.live && a.kids[c] != [] && a.kids[c][0] == z
    && z in a.live && a.refs[z] == [] && Refusing(a, z) && Adrift(a, c)
  }

  /** The second round: z refuses and is not referenced, so that the code asks for the
      parent of c, and c is adrift. */
  lemma SecondRound(u: Heap, p: Ptr, h: Ptr, c: Ptr, x: Ptr, z: Ptr)
    requires HandleFreed(u, p, h, c, x, z)
    ensures Wf(u) && x in u.live && p in u.live
    ensures var a := Stolen(u, x, p);
            Caught(a, c, z)
  {
    StolenIs(u, x, p);
    assert c in Stolen(u, x, p).live && z in Stolen(u, x, p).live;
    WithoutHead(u.kids[c]);
  }

  /** What is read when a chunk is adrift: the `prev` field of a chunk that has no fields. */
  lemma AdriftReads(m: Memory, c: Ptr)
    requires m.Linked() && c in m.heap.live && Adrift(m.heap, c)
    ensures c in m.f.prev && m.f.prev[c] != NULL && m.f.prev[c] !in m.f.prev
  {
    assert Look(0);
    assert m.heap.place[c] == m.heap.place[c];
  }

  /** In every such heap talloc_free(c) would read freed memory: after the first round of its
      loop, and what it does for x, it asks for the parent of the chunk c, which is adrift. */
  lemma ReadsFreedMemory(s: Heap, p: Ptr, h: Ptr, c: Ptr, x: Ptr, z: Ptr, r: Ptr -> nat, keep: set<Ptr>)
    requires Endangered(s, p, h, c, x, z)
    ensures Good(s) && c in s.live && !LeftOk(s, c)
    ensures ChunkUnlinked(Opened(s, c), p, h, c, x, z) && Opened(s, c).kids[c] == s.kids[c]
    ensures HandleFreed(DropHandle(Opened(s, c), h), p, h, c, x, z)
    ensures FreeSpec(Opened(s, c), DropHandle(Opened(s, c), h), x, r, keep, -1)
    ensures Caught(Stolen(DropHandle(Opened(s, c), h), x, p), c, z)
  {
    NotLeftOk(s, p, h, c, x, z);
    FirstRound(s, p, h, c, x, z, r, keep);
    UnlinkedFirst(s, p, h, c, x, z);
    HandleGoes(Opened(s, c), p, h, c, x, z);
    SecondRound(DropHandle(Opened(s, c), h), p, h, c, x, z);
  }

  // ---------- the same children in the other order ----------

  /** c has just these two children, and z comes first. */
  ghost predicate Unharmed(s: Heap, p: Ptr, h: Ptr, c: Ptr, x: Ptr, z: Ptr) {
    Leaning(s, p, h, c, x, z) && s.kids[c] == [z, x]
  }

  /** c has been unlinked and points to its old neighbour h, which is still there; nothing
      else is being freed, and ranks increase from what lies above a chunk to the chunk. */
  ghost predicate Steadied(o: Heap, r: Ptr -> nat, p: Ptr, h: Ptr, c: Ptr, x: Ptr) {
    && Wf(o) && p in o.live && h in o.live && c in o.live && x in o.live
    && p != NULL && h != c && h != x && p != x && p != c && x != c && r(p) < r(c) < r(x)
    && o.place[c] == Unlinked(h, NULL) && o.up[h] == p && o.up[x] == c && o.target[p] == NULL
    && IsHandle(o, h) && o.target[h] == x && o.refs[x] == [h]
    && (forall d {:trigger o.place[d]} :: d in o.live && d != c ==> o.place[d] == InList)
    && Climbs(o, r)
  }

  lemma UnharmedOpened(s: Heap, r: Ptr -> nat, p: Ptr, h: Ptr, c: Ptr, x: Ptr, z: Ptr)
    requires Unharmed(s, p, h, c, x, z) && OwnersRanked(s, r, NULL)
    ensures var o := Opened(s, c);
            && Steadied(o, r, p, h, c, x) && o.kids[c] == [z, x] && r(p) < r(z)
            && z in o.live && o.refs[z] == [] && !o.loop[z] && Refusing(o, z) && o.up[z] == c && z != p && z != c
  {
    LeaningFacts(s, p, h, c, x, z);
    OpenedIs(s, c);
    OpenedPlace(s, c);
    Apart(s, p, h, c, x, z);
    RestSound(s, NULL, r);
    OpenedSound(s, c, r);
    var o := Opened(s, c);
    assert s.place[x] == InList && s.place[z] == InList;
    assert Above(s, c) == p && Above(s, x) == c && Above(s, z) == c;
    assert p in o.live && h in o.live && x in o.live && z in o.live;
    assert Anchored(s, c) && Anchored(s, x) && Anchored(s, z);
    forall d | d in o.live && d != c ensures o.place[d] == InList { assert s.place[d] == InList; }
  }

  /** In such a heap the code may ask for the parent of c, and may walk up from h, which is
      not held below x. */
  lemma SteadiedWalks(o: Heap, r: Ptr -> nat, p: Ptr, h: Ptr, c: Ptr, x: Ptr)
    requires Steadied(o, r, p, h, c, x)
    ensures Anchored(o, c) && Above(o, c) == p && Rooted(o, h) && !Contains(o, x, h)
  {
    assert o.place[h] == InList;
    forall d | d in o.live ensures Anchored(o, d) { assert d != c ==> o.place[d] == InList; }
    forall n: nat ensures AboveBy(o, h, n) != x {
      if n > 0 { AboveRank(o, r, p, n - 1); }
    }
  }

  /** z goes to p. */
  lemma SteadiedSteal(o: Heap, r: Ptr -> nat, p: Ptr, h: Ptr, c: Ptr, x: Ptr, z: Ptr)
    requires Steadied(o, r, p, h, c, x) && o.kids[c] == [z, x] && z in o.live && o.up[z] == c && r(p) < r(z)
    requires z != p && z != c && z != x && z != h
    ensures var a := Stolen(o, z, p); Steadied(a, r, p, h, c, x) && a.kids[c] == [x]
  {
    assert o.place[z] == InList;
    StolenIs(o, z, p);
    var a := Stolen(o, z, p);
    assert p in a.live && h in a.live && c in a.live && x in a.live;
    WithoutHead(o.kids[c]);
    forall d | d in a.live && d != c ensures a.place[d] == InList { assert a.place[d] == o.place[d]; }
    forall d | d in a.live
      ensures (Anchored(a, d) || Adrift(a, d))
              && (Above(a, d) != NULL ==> Above(a, d) in a.live && r(Above(a, d)) < r(d))
    {
      assert Anchored(o, d) || Adrift(o, d);
      assert Above(o, d) != NULL ==> r(Above(o, d)) < r(d);
      assert d != c ==> a.place[d] == InList;
    }
  }

  lemma LastReference(a: Heap, r: Ptr -> nat, p: Ptr, h: Ptr, c: Ptr, x: Ptr)
    requires Steadied(a, r, p, h, c, x) && a.kids[c] == [x]
    ensures var u := DropHandle(a, h);
            && Wf(u) && x in u.live && p in u.live && c in u.live && u.target[p] == NULL
            && u.place[x] == InList && u.up[x] == c && u.kids[c] == [x]
  {
    DropHandleIs(a, h);
    var u := DropHandle(a, h);
    assert x in u.live && p in u.live && c in u.live;
    assert a.place[x] == InList;
  }

  /** x loses its reference and goes to p too. */
  lemma LastChild(u: Heap, p: Ptr, c: Ptr, x: Ptr)
    requires Wf(u) && x in u.live && p in u.live && c in u.live && u.target[p] == NULL && p != x && p != c
    requires u.place[x] == InList && u.up[x] == c && u.kids[c] == [x]
    ensures Domains(Stolen(u, x, p)) && c in Stolen(u, x, p).live && Stolen(u, x, p).kids[c] == []
  {
    StolenIs(u, x, p);
    WithoutHead(u.kids[c]);
    assert c in Stolen(u, x, p).live;
  }

  /** In every such heap talloc_free(c) reads live memory only, although LeftOk does not hold.
      The first round of its loop asks for the parent of c while the neighbour h is there.
      The second walks up from h, frees h, and does not ask for the parent of c, since x goes
      to the holder of its reference.  There is no third. */
  lemma ReadsLiveMemory(s: Heap, p: Ptr, h: Ptr, c: Ptr, x: Ptr, z: Ptr, r: Ptr -> nat, keep: set<Ptr>)
    requires Unharmed(s, p, h, c, x, z) && OwnersRanked(s, r, NULL)
    ensures Good(s) && c in s.live && !LeftOk(s, c)
    ensures var o := Opened(s, c);
            && Wf(o) && c in o.live && z in o.live && p in o.live && o.kids[c] == [z, x]
            && FreeSpec(o, o, z, r, keep, -1) && o.refs[z] == [] && Anchored(o, c) && Above(o, c) == p
            && var a := Stolen(o, z, p);
               && Wf(a) && c in a.live && x in a.live && h in a.live && p in a.live && a.kids[c] == [x]
               && a.refs[x] == [h] && Anchored(a, h) && Above(a, h) == p && p != NULL && Rooted(a, h) && IsHandle(a, h)
               && var u := DropHandle(a, h);
                  && Wf(u) && FreeSpec(a, u, x, r, keep, -1) && x in u.live && p in u.live
                  && var b := Stolen(u, x, p);
                     Domains(b) && c in b.live && b.kids[c] == []
  {
    NotLeftOk(s, p, h, c, x, z);
    LeaningFacts(s, p, h, c, x, z);
    UnharmedOpened(s, r, p, h, c, x, z);
    SteadiedWalks(Opened(s, c), r, p, h, c, x);
    SteadiedSteal(Opened(s, c), r, p, h, c, x, z);
    var a := Stolen(Opened(s, c), z, p);
    SteadiedWalks(a, r, p, h, c, x);
    assert a.place[h] == InList;
    LastReference(a, r, p, h, c, x);
    LastChild(DropHandle(a, h), p, c, x);
  }

  // ---------- a run that leads there ----------

  /** t is s with the new chunk c, the first child of p. */
  ghost predicate Grown(s: Heap, t: Heap, c: Ptr, p: Ptr) {
    && Domains(s) && Domains(t) && c in t.live && t.live == s.live + {c} && t.up[c] == p && t.kids[c] == []
    && t.refs[c] == []
    && t.target[c] == NULL && t.dtor[c] == NoDestructor
    && forall x {:trigger x in t.live} :: x in s.live ==>
         && x in t.live && t.up[x] == s.up[x] && t.kids[x] == (if x == p then [c] + s.kids[x] else s.kids[x])
         && t.refs[x] == s.refs[x] && t.target[x] == s.target[x] && t.dtor[x] == s.dtor[x]
  }

  lemma GrowsBy(s: Heap, c: Ptr, p: Ptr, size: nat)
    requires Good(s) && c !in s.live && c != NULL && (p == NULL || (p in s.live && !IsHandle(s, p)))
    ensures Good(Allocated(s, c, p, size)) && Grown(s, Allocated(s, c, p, size), c, p)
  {
    AllocatedGood(s, c, p, size);
    AllocatedIs(s, c, p, size);
  }

  method New(m: Memory, p: Ptr, c: Ptr)
    requires m.Linked() && Good(m.heap) && c !in m.heap.live && c != NULL
             && (p == NULL || (p in m.heap.live && !IsHandle(m.heap, p)))
    modifies m
    ensures m.Linked() && Good(m.heap) && Grown(old(m.heap), m.heap, c, p)
  {
    GrowsBy(m.heap, c, p, 0);
    var res := Talloc(m, p, 0, c);
  }

  /** t is s with the new handle h, the first child of p, the newest reference to x. */
  ghost predicate Shares(s: Heap, t: Heap, h: Ptr, p: Ptr, x: Ptr) {
    && Domains(s) && Domains(t) && h in t.live && t.live == s.live + {h} && t.up[h] == p && t.target[h] == x
    && forall y {:trigger y in t.live} :: y in s.live ==>
         && y in t.live && t.up[y] == s.up[y] && t.kids[y] == (if y == p then [h] + s.kids[y] else s.kids[y])
         && t.refs[y] == (if y == x then [h] + s.refs[y] else s.refs[y]) && t.target[y] == s.target[y]
         && t.dtor[y] == s.dtor[y]
  }

  lemma SharesBy(s: Heap, h: Ptr, p: Ptr, x: Ptr)
    requires Good(s) && h !in s.live && h != NULL && p in s.live && x in s.live && !IsHandle(s, p) && !IsHandle(s, x)
             && !Reaches(s, x, p)
    ensures Good(Referenced(s, h, p, x)) && Shares(s, Referenced(s, h, p, x), h, p, x)
  {
    ReferenceKeeps(s, h, p, x);
    ReferencedIs(s, h, p, x);
    GrowsBy(s, h, p, HANDLE_SIZE);
  }

  method Share(m: Memory, p: Ptr, x: Ptr, h: Ptr)
    requires m.Linked() && Good(m.heap) && h !in m.heap.live && h != NULL && p in m.heap.live && x in m.heap.live
    requires !IsHandle(m.heap, p) && !IsHandle(m.heap, x) && !Reaches(m.heap, x, p)
    modifies m
    ensures m.Linked() && Good(m.heap) && Shares(old(m.heap), m.heap, h, p, x)
  {
    SharesBy(m.heap, h, p, x);
    var res := Reference(m, p, x, h);
  }

  lemma LeafReaches(s: Heap, x: Ptr, p: Ptr)
    requires Good(s) && x in s.live && s.kids[x] == [] && p in s.live && p != x
    ensures !Reaches(s, x, p)
  {
    forall n: nat ensures !ReachesIn(s, x, p, n) { LeafReachesIn(s, x, p, n); }
  }

  lemma {:induction false} LeafReachesIn(s: Heap, x: Ptr, p: Ptr, n: nat)
    requires Good(s) && x in s.live && s.kids[x] == [] && p != x
    ensures !ReachesIn(s, x, p, n)
    decreases n
  {
    if n > 0 && ReachesIn(s, x, p, n) {
      var o :| ReachesIn(s, x, o, n - 1) && Edge(s, o, p);
      if o != x { LeafReachesIn(s, x, o, n - 1); }
    }
  }

  /** What the first four calls of Build leave. */
  ghost predicate Tree(s: Heap) {
    && Domains(s) && 1 in s.live && 2 in s.live && 3 !in s.live && 4 in s.live && 5 in s.live
    && s.up[2] == 1 && s.kids[1] == [2] && s.kids[2] == [4, 5] && s.kids[4] == [] && s.kids[5] == []
    && s.refs[2] == [] && s.refs[4] == [] && s.refs[5] == []
    && s.target[1] == NULL && s.target[2] == NULL && s.target[4] == NULL && s.target[5] == NULL
    && s.dtor[2] == NoDestructor
  }

  /** What the first two of them leave. */
  ghost predicate Stem(s: Heap) {
    && Domains(s) && s.live == {1, 2} && s.up[2] == 1 && s.kids[1] == [2] && s.kids[2] == [] && s.refs[2] == []
    && s.target[1] == NULL && s.target[2] == NULL && s.dtor[2] == NoDestructor
  }

  lemma StemGrown(s0: Heap, s1: Heap, s2: Heap)
    requires Domains(s0) && s0.live == {} && Grown(s0, s1, 1, NULL) && Grown(s1, s2, 2, 1)
    ensures Stem(s2)
  {
    assert 1 in s1.live && 1 in s2.live && 2 in s2.live;
    assert s2.kids[1] == [2];
  }

  lemma TreeGrown(s2: Heap, s3: Heap, s4: Heap)
    requires Stem(s2) && Grown(s2, s3, 5, 2) && Grown(s3, s4, 4, 2)
    ensures Tree(s4)
  {
    assert 1 in s3.live && 1 in s4.live && 2 in s3.live && 2 in s4.live && 5 in s3.live && 5 in s4.live;
    assert s3.kids[2] == [5] && s4.kids[2] == [4, 5];
  }

  lemma TreeShared(s: Heap, u: Heap, x: Ptr)
    requires Tree(s) && (x == 4 || x == 5) && Shares(s, u, 3, 1, x)
    ensures 1 in u.live && 2 in u.live && 3 in u.live && 4 in u.live && 5 in u.live && u.kids[2] == [4, 5]
    ensures u.kids[1] == [3, 2] && IndexOf(u.kids[1], 2) == 1 && u.up[2] == 1
    ensures u.refs[2] == [] && u.refs[x] == [3] && u.refs[9 - x] == [] && u.target[2] == NULL && u.target[3] == x
    ensures u.dtor[2] == NoDestructor
  {
    assert 1 in u.live && 2 in u.live && 4 in u.live && 5 in u.live;
    assert u.kids[1] == [3] + [2] && u.refs[x] == [3] + [];
    var q := [3] + [2];
    assert q[0] == 3 && q[1] == 2 && q == [3, 2];
    assert 2 in u.kids[1];
  }

  /** t is the heap s of the first four calls after a reference to 5 and a new destructor. */
  lemma TreeUnharmed(s: Heap, u: Heap, t: Heap)
    requires Tree(s) && Shares(s, u, 3, 1, 5) && Good(t) && t == u.(dtor := u.dtor[4 := Refuses])
    ensures Unharmed(t, 1, 3, 2, 5, 4)
  {
    TreeShared(s, u, 5);
  }

  /** t is the heap s of the first four calls after a reference to 4 and a new destructor. */
  lemma TreeEndangered(s: Heap, u: Heap, t: Heap)
    requires Tree(s) && Shares(s, u, 3, 1, 4) && Good(t) && t == u.(dtor := u.dtor[5 := Refuses])
    ensures Endangered(t, 1, 3, 2, 4, 5)
  {
    TreeShared(s, u, 4);
  }

  method PlantStem() returns (m: Memory)
    ensures fresh(m) && m.Linked() && Good(m.heap) && Stem(m.heap)
  {
    m := Start();
    ghost var s0 := m.heap;
    New(m, NULL, 1);
    ghost var s1 := m.heap;
    New(m, 1, 2);
    StemGrown(s0, s1, m.heap);
  }

  method Plant() returns (m: Memory)
    ensures fresh(m) && m.Linked() && Good(m.heap) && Tree(m.heap)
  {
    m := PlantStem();
    ghost var s2 := m.heap;
    New(m, 2, 5);
    ghost var s3 := m.heap;
    assert 2 in s3.live;
    New(m, 2, 4);
    TreeGrown(s2, s3, m.heap);
  }

  /** The same calls with the two children exchanged. */
  method BuildUnharmed() returns (m: Memory)
    ensures fresh(m) && m.Linked() && Unharmed(m.heap, 1, 3, 2, 5, 4)
  {
    m := Plant();
    ghost var s := m.heap;
    LeafReaches(s, 5, 1);
    Share(m, 1, 5, 3);
    ghost var u := m.heap;
    assert 4 in u.live;
    SetDestructor(m, 4, Refuses);
    TreeUnharmed(s, u, m.heap);
  }

  /** Six calls that are allowed, after which a seventh, talloc_free(2), is not. */
  method Build() returns (m: Memory)
    ensures fresh(m) && m.Linked() && Endangered(m.heap, 1, 3, 2, 4, 5)
  {
    m := Plant();
    ghost var s := m.heap;
    LeafReaches(s, 4, 1);
    Share(m, 1, 4, 3);
    ghost var u := m.heap;
    assert 5 in u.live;
    SetDestructor(m, 5, Refuses);
    TreeEndangered(s, u, m.heap);
  }
}
