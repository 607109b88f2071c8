/** What the links between talloc chunks stand for (lib/talloc/talloc.c): an abstract
    forest of chunks in which some chunks are handles that refer to others.

    A `Heap` is the ghost value that the fields of all live chunks represent.  Every step
    of the code is first described here on heaps, and the lemmas of this file say that
    each step keeps a heap well formed. */
module TallocHeap {

  /** The address of a chunk.  A chunk and its payload share one address, so the payload
      of a reference handle is named by the address of the handle's chunk. */
  type Ptr = int
  const NULL: Ptr := 0

  /** What a destructor will do.  `Running` is the code's `(talloc_destructor_t)-1`. */
  datatype Destructor = NoDestructor | Accepts | Refuses | Running | ReleasesReference

  /** A chunk is in the sibling list of its parent (or alone, as a root), or it has been
      unlinked and still holds the `prev` and `parent` it had at that moment. */
  datatype Place = InList | Unlinked(prev: Ptr, parent: Ptr)

  /** What the links say about the live chunks: the parent of each, its children from the
      first sibling to the last, the handles that refer to it from the newest to the
      oldest, and, for a handle, the chunk it refers to.  The types of the fields are type
      parameters because the verifier adds an ordering axiom for every map that stands in a
      datatype declaration, and these axioms slow down every proof about a heap. */
  datatype HeapOf<Live, Up, Kids, Refs, Target, Dtor, Size, Loop, Place> = Heap(
    live: Live, up: Up, kids: Kids, refs: Refs, target: Target, dtor: Dtor, size: Size, loop: Loop, place: Place)

  type Heap = HeapOf<set<Ptr>, map<Ptr, Ptr>, map<Ptr, seq<Ptr>>, map<Ptr, seq<Ptr>>, map<Ptr, Ptr>,
                     map<Ptr, Destructor>, map<Ptr, nat>, map<Ptr, bool>, map<Ptr, Place>>

  // ---------- sequences without duplicates ----------

  ghost function IndexOf<T>(q: seq<T>, x: T): (i: nat)
    requires x in q
    ensures i < |q| && q[i] == x
  {
    var i :| 0 <= i < |q| && q[i] == x; i
  }

  /** No element of q occurs twice: every position is the only one of its element. */
  ghost predicate Distinct<T>(q: seq<T>) {
    forall i {:trigger q[i]} :: 0 <= i < |q| ==> IndexOf(q, q[i]) == i
  }

  lemma DistinctPairs<T>(q: seq<T>)
    ensures Distinct(q) <==> forall i, j :: 0 <= i < j < |q| ==> q[i] != q[j]
  {
    if forall i, j :: 0 <= i < j < |q| ==> q[i] != q[j] {
      forall i | 0 <= i < |q| ensures IndexOf(q, q[i]) == i {
        var k := IndexOf(q, q[i]);
        assert !(k < i) && !(i < k);
      }
    }
  }

  /** r is q without its element at i. */
  ghost predicate IsCut<T>(q: seq<T>, i: nat, r: seq<T>)
    requires i < |q|
  {
    |r| == |q| - 1 && forall j {:trigger r[j]} :: 0 <= j < |r| ==> r[j] == q[if j < i then j else j + 1]
  }

  ghost function CutAt<T>(q: seq<T>, i: nat): (r: seq<T>)
    requires i < |q|
    ensures IsCut(q, i, r)
  {
    assert IsCut(q, i, q[..i] + q[i + 1..]);
    var r :| IsCut(q, i, r); r
  }

  lemma CutAtMembers<T>(q: seq<T>, i: nat)
    requires i < |q|
    ensures forall y :: y in CutAt(q, i) ==> y in q
    ensures forall y :: y in q && y != q[i] ==> y in CutAt(q, i)
    ensures Distinct(q) ==> Distinct(CutAt(q, i)) && q[i] !in CutAt(q, i)
  {
    var r := CutAt(q, i);
    DistinctPairs(q);
    DistinctPairs(r);
    forall y | y in q && y != q[i] ensures y in r {
      var j :| 0 <= j < |q| && q[j] == y;
      assert r[if j < i then j else j - 1] == y;
    }
  }

  ghost function Without<T>(q: seq<T>, x: T): (r: seq<T>)
    ensures forall y :: y in r ==> y in q
    ensures forall y :: y in q && y != x ==> y in r
    ensures Distinct(q) ==> Distinct(r) && x !in r
  {
    if x in q then
      CutAtMembers(q, IndexOf(q, x));
      CutAt(q, IndexOf(q, x))
    else q
  }

  lemma DistinctCons<T>(x: T, q: seq<T>)
    requires Distinct(q) && x !in q
    ensures Distinct([x] + q)
  {
    DistinctPairs(q);
    DistinctPairs([x] + q);
  }

  lemma WithoutHead<T>(q: seq<T>)
    requires q != [] && Distinct(q)
    ensures Without(q, q[0]) == q[1..]
  {
    assert IndexOf(q, q[0]) == 0;
    assert Without(q, q[0]) == CutAt(q, 0);
  }

  // ---------- well-formed heaps ----------

  /** The domain of m is live. */
  ghost predicate Over<T>(live: set<Ptr>, m: map<Ptr, T>) {
    forall c {:trigger c in m} :: c in m <==> c in live
  }

  ghost predicate Domains(s: Heap) {
    && Over(s.live, s.up) && Over(s.live, s.kids) && Over(s.live, s.refs) && Over(s.live, s.target)
    && Over(s.live, s.dtor) && Over(s.live, s.size) && Over(s.live, s.loop) && Over(s.live, s.place)
  }

  /** Every child list names distinct live chunks whose parent is the list's owner, and
      every chunk that has a parent is in that parent's list. */
  ghost predicate KidsOk(live: set<Ptr>, up: map<Ptr, Ptr>, kids: map<Ptr, seq<Ptr>>) {
    && Over(live, up) && Over(live, kids)
    && (forall p {:trigger kids[p]} :: p in live ==> Distinct(kids[p]))
    && (forall p, k {:trigger k in kids[p]} :: p in live && k in kids[p] ==> k in live && up[k] == p && k != p)
    && (forall c {:trigger up[c]} :: c in live && up[c] != NULL ==> up[c] in live && c in kids[up[c]])
  }

  /** Every refs list names, without duplicates, exactly the live handles of its chunk: the
      handles fit their targets as children fit their parents. */
  ghost predicate RefsOk(live: set<Ptr>, refs: map<Ptr, seq<Ptr>>, target: map<Ptr, Ptr>) {
    KidsOk(live, target, refs)
  }

  /** Only handles carry the handle destructor, and nothing hangs below or refers to one. */
  ghost predicate HandlesOk(s: Heap)
    requires Domains(s)
  {
    forall h {:trigger s.target[h]} :: h in s.live ==>
      && (s.target[h] != NULL <==> s.dtor[h] == ReleasesReference)
      && (s.target[h] != NULL ==> s.kids[h] == [] && s.refs[h] == [])
  }

  /** An unlinked chunk has no parent. */
  ghost predicate PlacesOk(live: set<Ptr>, up: map<Ptr, Ptr>, place: map<Ptr, Place>) {
    && Over(live, up) && Over(live, place)
    && forall c {:trigger place[c]} :: c in live && place[c].Unlinked? ==> up[c] == NULL
  }

  ghost predicate Wf(s: Heap) {
    && Domains(s)
    && NULL !in s.live
    && KidsOk(s.live, s.up, s.kids)
    && RefsOk(s.live, s.refs, s.target)
    && HandlesOk(s)
    && PlacesOk(s.live, s.up, s.place)
  }

  ghost predicate IsHandle(s: Heap, c: Ptr)
    requires Domains(s)
  {
    c in s.live && s.target[c] != NULL
  }

  /** The chunk's destructor keeps it from being freed. */
  ghost predicate Refusing(s: Heap, c: Ptr)
    requires Domains(s)
  {
    c in s.live && (s.dtor[c] == Refuses || s.dtor[c] == Running)
  }

  // ---------- what each step does to a heap ----------

  ghost function PlaceIn(q: seq<Ptr>, p: Ptr, c: Ptr): Place
    requires p != NULL ==> c in q
  {
    if p == NULL then Unlinked(NULL, NULL)
    else var i := IndexOf(q, c);
      if i == 0 then Unlinked(NULL, p) else Unlinked(q[i - 1], NULL)
  }

  /** Takes c out of its sibling list. */
  ghost function Detached(s: Heap, c: Ptr): Heap
    requires Wf(s) && c in s.live
  {
    var p := s.up[c];
    if p == NULL then
      s.(place := s.place[c := Unlinked(NULL, NULL)])
    else
      s.(up := s.up[c := NULL],
         kids := s.kids[p := Without(s.kids[p], c)],
         place := s.place[c := PlaceIn(s.kids[p], p, c)])
  }

  lemma KidCut(live: set<Ptr>, up: map<Ptr, Ptr>, kids: map<Ptr, seq<Ptr>>, c: Ptr, p: Ptr)
    requires KidsOk(live, up, kids) && c in live && up[c] == p && p != NULL
    ensures KidsOk(live, up[c := NULL], kids[p := Without(kids[p], c)])
  {
    var q := Without(kids[p], c);
    assert Distinct(q) && c !in q;
  }

  lemma DetachedWf(s: Heap, c: Ptr)
    requires Wf(s) && c in s.live
    ensures Wf(Detached(s, c))
  {
    if s.up[c] != NULL { KidCut(s.live, s.up, s.kids, c, s.up[c]); }
  }

  /** Makes the detached chunk c the first child of p, or a root. */
  ghost function Attached(s: Heap, c: Ptr, p: Ptr): Heap
    requires Domains(s) && c in s.live && (p == NULL || p in s.live)
  {
    if p == NULL then
      s.(up := s.up[c := NULL], place := s.place[c := InList])
    else
      s.(up := s.up[c := p], kids := s.kids[p := [c] + s.kids[p]], place := s.place[c := InList])
  }

  lemma AttachedWf(s: Heap, c: Ptr, p: Ptr)
    requires Wf(s) && c in s.live && s.up[c] == NULL
    requires p == NULL || (p in s.live && p != c && !IsHandle(s, p))
    ensures Wf(Attached(s, c, p))
  {
    if p != NULL {
      DistinctCons(c, s.kids[p]);
    }
  }

  /** talloc_steal moves nothing when c is the new parent itself or already its first
      child; a later child of the new parent is moved to the front. */
  ghost predicate StaysPut(s: Heap, c: Ptr, p: Ptr)
    requires Wf(s) && c in s.live
  {
    p != NULL && (p == c || (s.up[c] == p && s.kids[p][0] == c))
  }

  ghost function Stolen(s: Heap, c: Ptr, p: Ptr): Heap
    requires Wf(s) && c in s.live && (p == NULL || p in s.live)
  {
    if StaysPut(s, c, p) then s else DetachedWf(s, c); Attached(Detached(s, c), c, p)
  }

  lemma StolenWf(s: Heap, c: Ptr, p: Ptr)
    requires Wf(s) && c in s.live && (p == NULL || (p in s.live && !IsHandle(s, p)))
    ensures Wf(Stolen(s, c, p))
  {
    if !StaysPut(s, c, p) {
      DetachedWf(s, c);
      AttachedWf(Detached(s, c), c, p);
    }
  }

  /** The effect of the handle destructor: h no longer refers to anything. */
  ghost function Released(s: Heap, h: Ptr): Heap
    requires Wf(s) && IsHandle(s, h)
  {
    var t := s.target[h];
    s.(refs := s.refs[t := Without(s.refs[t], h)],
       target := s.target[h := NULL],
       dtor := s.dtor[h := NoDestructor])
  }

  lemma ReleasedWf(s: Heap, h: Ptr)
    requires Wf(s) && IsHandle(s, h)
    ensures Wf(Released(s, h))
  {
    KidCut(s.live, s.target, s.refs, h, s.target[h]);
  }

  /** Forgets a chunk to which no link leads. */
  ghost function Removed(s: Heap, c: Ptr): Heap {
    Heap(s.live - {c}, s.up - {c}, s.kids - {c}, s.refs - {c}, s.target - {c}, s.dtor - {c},
         s.size - {c}, s.loop - {c}, s.place - {c})
  }

  lemma RemovedKids(live: set<Ptr>, up: map<Ptr, Ptr>, kids: map<Ptr, seq<Ptr>>, c: Ptr)
    requires KidsOk(live, up, kids) && c in live && up[c] == NULL && kids[c] == [] && NULL !in live
    ensures KidsOk(live - {c}, up - {c}, kids - {c})
  {
  }

  lemma RemovedWf(s: Heap, c: Ptr)
    requires Wf(s) && c in s.live && s.up[c] == NULL && s.kids[c] == [] && s.refs[c] == [] && s.target[c] == NULL
    ensures Wf(Removed(s, c))
  {
    RemovedKids(s.live, s.up, s.kids, c);
    RemovedKids(s.live, s.target, s.refs, c);
  }

  /** A handle is freed: its target loses the reference and its holder loses a child. */
  ghost function DropHandle(s: Heap, h: Ptr): Heap
    requires Wf(s) && IsHandle(s, h)
  {
    ReleasedWf(s, h);
    Removed(Detached(Released(s, h), h), h)
  }

  lemma DropHandleWf(s: Heap, h: Ptr)
    requires Wf(s) && IsHandle(s, h)
    ensures Wf(DropHandle(s, h))
  {
    ReleasedWf(s, h);
    DetachedWf(Released(s, h), h);
    RemovedWf(Detached(Released(s, h), h), h);
  }

  /** A new root c without children or references. */
  ghost function Fresh(s: Heap, c: Ptr, size: nat): Heap {
    Heap(s.live + {c}, s.up[c := NULL], s.kids[c := []], s.refs[c := []], s.target[c := NULL],
         s.dtor[c := NoDestructor], s.size[c := size], s.loop[c := false], s.place[c := InList])
  }

  lemma FreshKids(live: set<Ptr>, up: map<Ptr, Ptr>, kids: map<Ptr, seq<Ptr>>, c: Ptr)
    requires KidsOk(live, up, kids) && c !in live
    ensures KidsOk(live + {c}, up[c := NULL], kids[c := []])
  {
  }

  lemma FreshWf(s: Heap, c: Ptr, size: nat)
    requires Wf(s) && c !in s.live && c != NULL
    ensures Wf(Fresh(s, c, size))
  {
    FreshKids(s.live, s.up, s.kids, c);
    FreshKids(s.live, s.target, s.refs, c);
  }

  /** A new chunk c, first child of p or a root. */
  ghost function Allocated(s: Heap, c: Ptr, p: Ptr, size: nat): Heap
    requires Domains(s) && (p == NULL || p in s.live)
  {
    Attached(Fresh(s, c, size), c, p)
  }

  lemma AllocatedWf(s: Heap, c: Ptr, p: Ptr, size: nat)
    requires Wf(s) && c !in s.live && c != NULL && (p == NULL || (p in s.live && !IsHandle(s, p)))
    ensures Wf(Allocated(s, c, p, size))
  {
    FreshWf(s, c, size);
    AttachedWf(Fresh(s, c, size), c, p);
  }

  /** The ordinary childless chunk h becomes the newest handle of t. */
  ghost function Referring(s: Heap, h: Ptr, t: Ptr): Heap
    requires Domains(s) && h in s.live && t in s.live
  {
    s.(refs := s.refs[t := [h] + s.refs[t]],
       target := s.target[h := t],
       dtor := s.dtor[h := ReleasesReference])
  }

  lemma ReferringWf(s: Heap, h: Ptr, t: Ptr)
    requires Wf(s) && h in s.live && t in s.live && h != t && !IsHandle(s, t)
    requires s.kids[h] == [] && s.refs[h] == [] && s.target[h] == NULL
    ensures Wf(Referring(s, h, t))
  {
    DistinctCons(h, s.refs[t]);
  }
}
