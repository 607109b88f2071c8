/** The upward walks of lib/talloc/talloc.c: talloc_parent_chunk and talloc_is_parent. */
module TallocWalks {
  import opened Hiding
  import opened TallocHeap
  import opened TallocLinks
  import opened TallocSteps

  /** Where a walk over `prev` and then one step over `parent` leads from c: the parent of
      a listed chunk, and for an unlinked chunk whatever its old fields still lead to. */
  ghost function Above(s: Heap, c: Ptr): Ptr
    requires Domains(s) && c in s.live
  {
    match s.place[c]
    case InList => s.up[c]
    case Unlinked(prev, parent) =>
      if prev == NULL then parent else if prev in s.live then s.up[prev] else NULL
  }

  /** What an unlinked chunk still points to is live: an ordinary chunk that was its parent,
      or a former neighbour that is still in their sibling list. */
  ghost predicate Anchored(s: Heap, c: Ptr)
    requires Domains(s) && c in s.live
  {
    s.place[c].Unlinked? ==>
      var b, p := s.place[c].prev, s.place[c].parent;
      if b != NULL then b in s.live && s.place[b] == InList && s.up[b] != NULL
      else p != NULL ==> p in s.live && s.target[p] == NULL
  }

  /** The neighbour to which an unlinked chunk still points has been freed: the memory to
      which its `prev` leads is not to be read any more. */
  ghost predicate Adrift(s: Heap, c: Ptr)
    requires Domains(s) && c in s.live
  {
    s.place[c].Unlinked? && s.place[c].prev != NULL && s.place[c].prev !in s.live
  }

  /** Ranks increase from what lies above a chunk to the chunk. */
  ghost predicate Climbs(s: Heap, r: Ptr -> nat)
    requires Domains(s)
  {
    forall c {:trigger Above(s, c)} {:trigger Anchored(s, c)} :: c in s.live ==>
      (Anchored(s, c) || Adrift(s, c)) && (Above(s, c) != NULL ==> Above(s, c) in s.live && r(Above(s, c)) < r(c))
  }

  /** How far c is from the first of its siblings. */
  ghost function Position(s: Heap, c: Ptr): nat
    requires Wf(s) && c in s.live && Anchored(s, c)
  {
    match s.place[c]
    case InList => if s.up[c] == NULL then 0 else IndexOf(s.kids[s.up[c]], c)
    case Unlinked(prev, _) => if prev == NULL then 0 else 1 + IndexOf(s.kids[s.up[prev]], prev)
  }

  /** One step over `prev` stays under the same parent. */
  lemma StepBack(f: Fields, s: Heap, c: Ptr)
    requires Represents(f, s) && c in s.live && Anchored(s, c)
    ensures f.prev[c] != NULL ==>
              var b := f.prev[c];
              b in s.live && s.place[b] == InList && Above(s, b) == Above(s, c) && Position(s, b) < Position(s, c)
    ensures f.prev[c] == NULL ==> f.parent[c] == Above(s, c)
  {
    assert s.place[c] == s.place[c];
    if s.place[c] == InList && s.up[c] != NULL {
      var i := Neighbours(s, f.next, f.prev, f.parent, c);
      if i > 0 {
        RowFacts(s, s.up[c], i - 1);
        assert s.place[f.prev[c]] == InList;
      }
    }
  }

  /** talloc_parent_chunk. */
  method ParentChunk(m: Memory, ptr: Ptr) returns (p: Ptr)
    requires m.Linked() && (ptr != NULL ==> ptr in m.heap.live && Anchored(m.heap, ptr))
    ensures p == if ptr == NULL then NULL else Above(m.heap, ptr)
  {
    if ptr == NULL {
      return NULL;
    }
    assert Look(0);
    var tc := ptr;
    StepBack(m.f, m.heap, tc);
    while m.f.prev[tc] != NULL
      invariant tc in m.heap.live && Anchored(m.heap, tc) && Above(m.heap, tc) == Above(m.heap, ptr)
      invariant m.f.prev[tc] != NULL ==>
                  var b := m.f.prev[tc];
                  b in m.heap.live && m.heap.place[b] == InList && Above(m.heap, b) == Above(m.heap, tc)
                  && Position(m.heap, b) < Position(m.heap, tc)
      invariant m.f.prev[tc] == NULL ==> m.f.parent[tc] == Above(m.heap, tc)
      decreases Position(m.heap, tc)
    {
      tc := m.f.prev[tc];
      StepBack(m.f, m.heap, tc);
    }
    return m.f.parent[tc];
  }

  /** The chunk n levels above c, or NULL. */
  ghost function AboveBy(s: Heap, c: Ptr, n: nat): Ptr
    requires Domains(s)
    decreases n
  {
    if n == 0 || c !in s.live then c else AboveBy(s, Above(s, c), n - 1)
  }

  /** a is c or lies above c. */
  ghost predicate Contains(s: Heap, a: Ptr, c: Ptr)
    requires Domains(s)
  {
    exists n: nat :: AboveBy(s, c, n) == a
  }

  /** c and everything below it. */
  ghost function Below(s: Heap, c: Ptr): set<Ptr>
    requires Domains(s)
  {
    set x | x in s.live && Contains(s, c, x)
  }

  /** No chunk at or above c is adrift, so the walk up from c reads only live memory. */
  ghost predicate Rooted(s: Heap, c: Ptr)
    requires Domains(s)
  {
    forall n: nat {:trigger AboveBy(s, c, n)} :: AboveBy(s, c, n) in s.live ==> Anchored(s, AboveBy(s, c, n))
  }

  lemma RootedStep(s: Heap, c: Ptr)
    requires Domains(s) && c in s.live && Rooted(s, c)
    ensures Anchored(s, c) && Rooted(s, Above(s, c))
  {
    assert AboveBy(s, c, 0) == c;
    forall n: nat | AboveBy(s, Above(s, c), n) in s.live ensures Anchored(s, AboveBy(s, Above(s, c), n)) {
      assert AboveBy(s, c, n + 1) == AboveBy(s, Above(s, c), n);
    }
  }

  lemma ContainsStep(s: Heap, a: Ptr, c: Ptr)
    requires Wf(s) && c in s.live && a != NULL && a != c
    ensures Contains(s, a, c) <==> Contains(s, a, Above(s, c))
  {
    if Contains(s, a, c) {
      var n: nat :| AboveBy(s, c, n) == a;
      assert AboveBy(s, Above(s, c), n - 1) == a;
    }
    if Contains(s, a, Above(s, c)) {
      var n: nat :| AboveBy(s, Above(s, c), n) == a;
      assert AboveBy(s, c, n + 1) == a;
    }
  }

  lemma NothingAboveNull(s: Heap, a: Ptr)
    requires Wf(s) && a != NULL
    ensures !Contains(s, a, NULL)
  {
    forall n: nat ensures AboveBy(s, NULL, n) == NULL {
    }
  }

  /** talloc_is_parent. */
  method IsParent(m: Memory, context: Ptr, ptr: Ptr, ghost r: Ptr -> nat) returns (b: bool)
    requires m.Linked() && Climbs(m.heap, r) && (context != NULL ==> context in m.heap.live) && ptr != NULL
    requires Rooted(m.heap, context)
    ensures b <==> Contains(m.heap, ptr, context)
  {
    NothingAboveNull(m.heap, ptr);
    if context == NULL {
      return false;
    }
    var tc := context;
    while tc != NULL
      invariant tc != NULL ==> tc in m.heap.live
      invariant Rooted(m.heap, tc)
      invariant Contains(m.heap, ptr, context) <==> Contains(m.heap, ptr, tc)
      decreases if tc == NULL then 0 else 1 + r(tc)
    {
      if tc == ptr {
        assert AboveBy(m.heap, tc, 0) == ptr;
        return true;
      }
      ContainsStep(m.heap, ptr, tc);
      RootedStep(m.heap, tc);
      tc := ParentChunk(m, tc);
    }
    return false;
  }
}
