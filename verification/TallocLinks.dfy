/** The memory that lib/talloc/talloc.c works on, and the heap its fields represent. */
module TallocLinks {
  import opened Hiding
  import opened TallocHeap
  import opened TallocLists

  type Rows = map<Ptr, seq<Ptr>>

  ghost predicate AllForward(next: Link, rows: Rows) {
    forall p {:trigger rows[p]} :: p in rows ==> Forward(next, rows[p])
  }

  ghost predicate AllBackward(prev: Link, rows: Rows) {
    forall p {:trigger rows[p]} :: p in rows ==> Backward(prev, rows[p])
  }

  ghost predicate AllHeaded(parent: Link, rows: Rows) {
    forall p {:trigger rows[p]} :: p in rows ==> Headed(parent, p, rows[p])
  }

  /** Each owner's field points to the first chunk of its row. */
  ghost predicate AllFirst(first: Link, rows: Rows) {
    forall p {:trigger first[p]} {:trigger rows[p]} :: p in rows ==> p in first && first[p] == At(rows[p], 0)
  }

  /** The sibling fields of roots and of chunks that have been unlinked. */
  ghost predicate Outside(s: Heap, next: Link, prev: Link, parent: Link)
    requires Domains(s)
  {
    forall c {:trigger s.place[c]} :: c in s.live ==>
      && c in next && c in prev && c in parent
      && match s.place[c]
         case Unlinked(b, p) => prev[c] == b && parent[c] == p
         case InList => s.up[c] == NULL ==> next[c] == NULL && prev[c] == NULL && parent[c] == NULL
  }

  /** The struct fields of all allocated chunks, one map a field.  An address is in the
      domain of every field exactly while its chunk is allocated, so every field access is
      proved to reach live memory.  `loop` is the bit TALLOC_FLAG_LOOP of `flags`;
      `refNext`, `refPrev` and `ptr` are the struct in the payload of a reference handle.
      As in `HeapOf`, the type parameters keep ordering axioms for maps out of the proofs. */
  datatype FieldsOf<Address, Destructors, Sizes, Flags> = Fields(
    next: Address, prev: Address, parent: Address, child: Address, refs: Address,
    destructor: Destructors, size: Sizes, loop: Flags,
    refNext: Address, refPrev: Address, ptr: Address)

  type Fields = FieldsOf<Link, map<Ptr, Destructor>, map<Ptr, nat>, map<Ptr, bool>>

  /** The fields say what the heap s says. */
  ghost predicate Represents(f: Fields, s: Heap) {
    && Wf(s)
    && AllForward(f.next, s.kids) && AllBackward(f.prev, s.kids) && AllHeaded(f.parent, s.kids)
    && AllFirst(f.child, s.kids)
    && Outside(s, f.next, f.prev, f.parent)
    && AllForward(f.refNext, s.refs) && AllBackward(f.refPrev, s.refs)
    && AllFirst(f.refs, s.refs)
    && f.destructor == s.dtor && f.size == s.size && f.loop == s.loop
    && Over(s.live, f.next) && Over(s.live, f.prev) && Over(s.live, f.parent) && Over(s.live, f.child)
    && Over(s.live, f.refs)
    && Over(s.live, f.refNext) && Over(s.live, f.refPrev) && Over(s.live, f.ptr)
    && (forall h {:trigger s.target[h]} :: h in s.live && s.target[h] != NULL ==> f.ptr[h] == s.target[h])
  }

  /** The memory the allocator works on, with the heap it represents. */
  class Memory {
    var f: Fields
    ghost var heap: Heap

    /** Nothing has been allocated yet. */
    constructor ()
      ensures Linked() && heap == Heap({}, map[], map[], map[], map[], map[], map[], map[], map[])
    {
      f := Fields(map[], map[], map[], map[], map[], map[], map[], map[], map[], map[], map[]);
      heap := Heap({}, map[], map[], map[], map[], map[], map[], map[], map[]);
    }

    /** The fields represent the heap.  The details are in scope only where `Look` is
        mentioned, which keeps them out of proofs that go from call to call. */
    ghost predicate Linked()
      reads this
    {
      Wf(heap) && forall k: int {:trigger Look(k)} :: Look(k) ==> Represents(f, heap)
    }
  }

  /** The fields are now f. */
  method Install(m: Memory, f: Fields, ghost s: Heap)
    requires Represents(f, s)
    modifies m
    ensures m.Linked() && m.f == f && m.heap == s
  {
    m.f, m.heap := f, s;
  }

  // ---------- reading a field ----------

  method Child(m: Memory, tc: Ptr) returns (p: Ptr)
    requires m.Linked() && tc in m.heap.live
    ensures p == At(m.heap.kids[tc], 0) && (p != NULL <==> m.heap.kids[tc] != [])
  {
    assert Look(0);
    p := m.f.child[tc];
    if m.heap.kids[tc] != [] { var k := m.heap.kids[tc][0]; assert k in m.heap.kids[tc]; }
  }

  method NewestRef(m: Memory, tc: Ptr) returns (h: Ptr)
    requires m.Linked() && tc in m.heap.live
    ensures h == At(m.heap.refs[tc], 0) && (h != NULL <==> m.heap.refs[tc] != [])
  {
    assert Look(0);
    h := m.f.refs[tc];
    if m.heap.refs[tc] != [] { var k := m.heap.refs[tc][0]; assert k in m.heap.refs[tc]; }
  }

  method DestructorOf(m: Memory, tc: Ptr) returns (d: Destructor)
    requires m.Linked() && tc in m.heap.live
    ensures d == m.heap.dtor[tc]
  {
    assert Look(0);
    d := m.f.destructor[tc];
  }

  method LoopFlag(m: Memory, tc: Ptr) returns (b: bool)
    requires m.Linked() && tc in m.heap.live
    ensures b == m.heap.loop[tc] && tc in m.f.loop && m.f.loop[tc] == b
  {
    assert Look(0);
    b := m.f.loop[tc];
  }

  // ---------- rows of links when one row changes ----------

  /** The two link maps agree on every element of a row other than p's. */
  ghost predicate AgreeElsewhere(l: Link, l': Link, rows: Rows, p: Ptr) {
    forall q {:trigger rows[q]} :: q in rows && q != p ==> Agree(l, l', rows[q], -1, -1)
  }

  lemma AllForwardUpdate(next: Link, next': Link, rows: Rows, p: Ptr, row: seq<Ptr>)
    requires AllForward(next, rows) && AgreeElsewhere(next, next', rows, p) && Forward(next', row)
    ensures AllForward(next', rows[p := row])
  {
    forall q | q in rows && q != p ensures Forward(next', rows[q]) {
      ForwardFrame(next, next', rows[q]);
    }
  }

  lemma AllBackwardUpdate(prev: Link, prev': Link, rows: Rows, p: Ptr, row: seq<Ptr>)
    requires AllBackward(prev, rows) && AgreeElsewhere(prev, prev', rows, p) && Backward(prev', row)
    ensures AllBackward(prev', rows[p := row])
  {
    forall q | q in rows && q != p ensures Backward(prev', rows[q]) {
      BackwardFrame(prev, prev', rows[q]);
    }
  }

  lemma AllHeadedUpdate(parent: Link, parent': Link, rows: Rows, p: Ptr, row: seq<Ptr>)
    requires AllHeaded(parent, rows) && AgreeElsewhere(parent, parent', rows, p) && Headed(parent', p, row)
    ensures AllHeaded(parent', rows[p := row])
  {
    forall q | q in rows && q != p ensures Headed(parent', q, rows[q]) {
      HeadedFrame(parent, parent', q, rows[q]);
    }
  }

  /** A link map that changes only for chunks whose owner is p, or that have none, agrees
      in all other rows. */
  lemma ElsewhereByOwner(l: Link, l': Link, live: set<Ptr>, owner: Link, rows: Rows, p: Ptr)
    requires Over(live, rows) && Over(live, owner)
    requires forall q, k {:trigger k in rows[q]} :: q in live && k in rows[q] ==> k in live && owner[k] == q
    requires NULL !in live
    requires forall x {:trigger owner[x]} :: x in live ==> x in l && x in l' && (owner[x] != p && owner[x] != NULL ==> l'[x] == l[x])
    ensures AgreeElsewhere(l, l', rows, p)
  {
    forall q, i | q in rows && q != p && 0 <= i < |rows[q]|
      ensures rows[q][i] in l && rows[q][i] in l' && l'[rows[q][i]] == l[rows[q][i]]
    {
      var k := rows[q][i];
      assert q in live;
      assert k in rows[q];
      assert k in live;
      assert owner[k] == q;
    }
  }
}
