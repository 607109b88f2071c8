/** Allocation and references in lib/talloc/talloc.c: __talloc, _talloc_reference and the
    destructor of reference handles. */
module TallocAlloc {
  import opened Hiding
  import opened TallocHeap
  import opened TallocLists
  import opened TallocLinks
  import opened TallocSteps

  const MAX_TALLOC_SIZE: nat := 0x10000000
  /** sizeof(struct talloc_reference_handle) with 8-byte pointers. */
  const HANDLE_SIZE: nat := 24

  // ---------- a new chunk ----------

  /** The fields after the chunk c has been set up as a root.  The payload is whatever
      malloc left there; its links mean nothing until c becomes a handle. */
  ghost function Blank(f: Fields, c: Ptr, size: nat): Fields {
    Fields(f.next[c := NULL], f.prev[c := NULL], f.parent[c := NULL], f.child[c := NULL], f.refs[c := NULL],
           f.destructor[c := NoDestructor], f.size[c := size], f.loop[c := false],
           f.refNext[c := NULL], f.refPrev[c := NULL], f.ptr[c := NULL])
  }

  lemma OtherRows(l: Link, live: set<Ptr>, rows: Rows, c: Ptr, v: Ptr)
    requires Over(live, rows) && c !in live
    requires forall p, k {:trigger k in rows[p]} :: p in live && k in rows[p] ==> k in live
    requires forall p {:trigger rows[p]} :: p in rows ==> Covers(l, rows[p])
    ensures forall p {:trigger rows[p]} :: p in rows ==> Agree(l, l[c := v], rows[p], -1, -1)
  {
    forall p, i | p in rows && 0 <= i < |rows[p]|
      ensures rows[p][i] in l && rows[p][i] in l[c := v] && l[c := v][rows[p][i]] == l[rows[p][i]]
    {
      var k := rows[p][i];
      assert p in live;
      assert k in rows[p];
      assert k in live;
    }
  }

  lemma BlankForward(l: Link, live: set<Ptr>, owner: Link, rows: Rows, c: Ptr)
    requires KidsOk(live, owner, rows) && c !in live && AllForward(l, rows)
    ensures AllForward(l[c := NULL], rows[c := []])
  {
    OtherRows(l, live, rows, c, NULL);
    forall p | p in rows ensures Forward(l[c := NULL], rows[p]) { ForwardFrame(l, l[c := NULL], rows[p]); }
  }

  lemma BlankBackward(l: Link, live: set<Ptr>, owner: Link, rows: Rows, c: Ptr)
    requires KidsOk(live, owner, rows) && c !in live && AllBackward(l, rows)
    ensures AllBackward(l[c := NULL], rows[c := []])
  {
    OtherRows(l, live, rows, c, NULL);
    forall p | p in rows ensures Backward(l[c := NULL], rows[p]) { BackwardFrame(l, l[c := NULL], rows[p]); }
  }

  lemma BlankHeaded(l: Link, live: set<Ptr>, owner: Link, rows: Rows, c: Ptr)
    requires KidsOk(live, owner, rows) && c !in live && AllHeaded(l, rows)
    ensures AllHeaded(l[c := NULL], rows[c := []])
  {
    OtherRows(l, live, rows, c, NULL);
    forall p | p in rows ensures Headed(l[c := NULL], p, rows[p]) { HeadedFrame(l, l[c := NULL], p, rows[p]); }
  }

  lemma BlankFirst(l: Link, rows: Rows, c: Ptr)
    requires AllFirst(l, rows) && c !in rows
    ensures AllFirst(l[c := NULL], rows[c := []])
  {
  }

  lemma BlankOutside(f: Fields, s: Heap, c: Ptr, size: nat)
    requires Represents(f, s) && c !in s.live && Domains(Fresh(s, c, size))
    ensures var f' := Blank(f, c, size); Outside(Fresh(s, c, size), f'.next, f'.prev, f'.parent)
  {
    var t := Fresh(s, c, size);
    forall x | x in t.live && x != c ensures t.place[x] == s.place[x] && t.up[x] == s.up[x] {
      assert x in s.live;
    }
  }

  lemma BlankRepresents(f: Fields, s: Heap, c: Ptr, size: nat)
    requires Represents(f, s) && c !in s.live && c != NULL
    ensures Represents(Blank(f, c, size), Fresh(s, c, size))
  {
    FreshWf(s, c, size);
    BlankForward(f.next, s.live, s.up, s.kids, c);
    BlankBackward(f.prev, s.live, s.up, s.kids, c);
    BlankHeaded(f.parent, s.live, s.up, s.kids, c);
    BlankForward(f.refNext, s.live, s.target, s.refs, c);
    BlankBackward(f.refPrev, s.live, s.target, s.refs, c);
    BlankFirst(f.child, s.kids, c);
    BlankFirst(f.refs, s.refs, c);
    BlankOutside(f, s, c, size);
  }

  /** t is s with the new chunk c of this size, the first child of p or a root: it has no
      children, references or destructor, and nothing else has changed. */
  ghost predicate NewChunk(s: Heap, t: Heap, c: Ptr, p: Ptr, size: nat)
    requires Domains(s) && Domains(t)
  {
    && c !in s.live && t.live == s.live + {c} && t.up[c] == p && t.kids[c] == [] && t.refs[c] == []
    && t.target[c] == NULL && t.dtor[c] == NoDestructor && t.size[c] == size && !t.loop[c] && t.place[c] == InList
    && forall x {:trigger x in s.live} :: x in s.live ==>
         && t.up[x] == s.up[x] && t.refs[x] == s.refs[x] && t.target[x] == s.target[x] && t.dtor[x] == s.dtor[x]
         && t.size[x] == s.size[x] && t.loop[x] == s.loop[x] && t.place[x] == s.place[x]
         && t.kids[x] == if x == p then [c] + s.kids[x] else s.kids[x]
  }

  lemma AllocatedIsNew(s: Heap, c: Ptr, p: Ptr, size: nat)
    requires Wf(s) && c !in s.live && c != NULL && (p == NULL || (p in s.live && !IsHandle(s, p)))
    ensures Wf(Allocated(s, c, p, size)) && NewChunk(s, Allocated(s, c, p, size), c, p, size)
  {
    AllocatedWf(s, c, p, size);
  }

  /** t is s with the new handle h, the first child of o and the newest reference to x. */
  ghost predicate NewReference(s: Heap, t: Heap, h: Ptr, o: Ptr, x: Ptr)
    requires Domains(s) && Domains(t)
  {
    && h !in s.live && t.live == s.live + {h} && t.up[h] == o && t.kids[h] == [] && t.refs[h] == []
    && t.target[h] == x && t.dtor[h] == ReleasesReference && t.size[h] == 24 && !t.loop[h] && t.place[h] == InList
    && forall y {:trigger y in s.live} :: y in s.live ==>
         && t.up[y] == s.up[y] && t.target[y] == s.target[y] && t.dtor[y] == s.dtor[y]
         && t.size[y] == s.size[y] && t.loop[y] == s.loop[y] && t.place[y] == s.place[y]
         && t.kids[y] == (if y == o then [h] + s.kids[y] else s.kids[y])
         && t.refs[y] == if y == x then [h] + s.refs[y] else s.refs[y]
  }

  lemma ReferringIsNew(s: Heap, h: Ptr, o: Ptr, x: Ptr)
    requires Wf(s) && h !in s.live && h != NULL && (o == NULL || (o in s.live && !IsHandle(s, o)))
    requires x in s.live && !IsHandle(s, x)
    ensures var t := Referring(Allocated(s, h, o, HANDLE_SIZE), h, x); Wf(t) && NewReference(s, t, h, o, x)
  {
    AllocatedIsNew(s, h, o, HANDLE_SIZE);
    ReferringWf(Allocated(s, h, o, HANDLE_SIZE), h, x);
  }

  /** __talloc.  `block` is what malloc answers: NULL, or an address not in use. */
  method Talloc(m: Memory, context: Ptr, size: nat, block: Ptr) returns (tc: Ptr)
    requires m.Linked() && (context == NULL || (context in m.heap.live && !IsHandle(m.heap, context)))
    requires block !in m.heap.live
    modifies m
    ensures tc == if size >= 0x1000_0000 then NULL else block
    ensures m.Linked() && m.heap == if tc == NULL then old(m.heap) else Allocated(old(m.heap), tc, context, size)
    ensures tc != NULL ==> NewChunk(old(m.heap), m.heap, tc, context, size)
  {
    if size >= MAX_TALLOC_SIZE {
      return NULL;
    }
    tc := block;
    if tc == NULL {
      return;
    }
    assert Look(0);
    AllocatedIsNew(m.heap, tc, context, size);
    ghost var s := Fresh(m.heap, tc, size);
    BlankRepresents(m.f, m.heap, tc, size);
    HookedRepresents(Blank(m.f, tc, size), s, tc, context);
    if context != NULL && m.heap.kids[context] != [] { RowFacts(m.heap, context, 0); }
    var f := SetUp(m.f, tc, size, context);
    Install(m, f, Attached(s, tc, context));
  }

  /** The order of the writes in __talloc does not matter. */
  lemma SetUpLinks(next: Link, prev: Link, parent: Link, c: Ptr, p: Ptr, first: Ptr)
    requires first != c
    ensures next[c := NULL][c := first] == next[c := first] && next[c := NULL][c := NULL] == next[c := NULL]
    ensures Put(prev[c := NULL], first, c)[c := NULL] == Put(prev, first, c)[c := NULL] && prev[c := NULL][c := NULL] == prev[c := NULL]
    ensures Put(parent[c := NULL][c := p], first, NULL) == Put(parent, first, NULL)[c := p]
    ensures parent[c := NULL][c := NULL] == parent[c := NULL]
  {
  }

  /** The part of __talloc that fills in and links the chunk tc. */
  method SetUp(f: Fields, tc: Ptr, size: nat, context: Ptr) returns (f': Fields)
    requires tc != NULL && (context != NULL ==> context != tc && context in f.child && f.child[context] != tc)
    ensures f' == Hooked(Blank(f, tc, size), tc, context)
  {
    var next, prev, parent, child := f.next, f.prev, f.parent, f.child;
    child := child[tc := NULL];
    if context != NULL {
      if child[context] != NULL {
        parent := parent[child[context] := NULL];
        next := next[tc := child[context]];
        prev := prev[next[tc] := tc];
      } else {
        next := next[tc := NULL];
      }
      parent := parent[tc := context];
      prev := prev[tc := NULL];
      child := child[context := tc];
    } else {
      next, prev, parent := next[tc := NULL], prev[tc := NULL], parent[tc := NULL];
    }
    SetUpLinks(f.next, f.prev, f.parent, tc, context, if context == NULL then NULL else f.child[context]);
    f' := Fields(next, prev, parent, child, f.refs[tc := NULL],
                 f.destructor[tc := NoDestructor], f.size[tc := size], f.loop[tc := false],
                 f.refNext[tc := NULL], f.refPrev[tc := NULL], f.ptr[tc := NULL]);
  }

  // ---------- references ----------

  lemma ReferringForward(f: Fields, s: Heap, h: Ptr, t: Ptr, next: Link)
    requires Represents(f, s) && h in s.live && t in s.live && h != t && s.target[h] == NULL
             && next == f.refNext[h := f.refs[t]]
    ensures AllForward(next, Referring(s, h, t).refs)
  {
    var q := s.refs[t];
    forall j | 0 <= j < |q| ensures var k := q[j]; k in s.live && s.target[k] == t && IndexOf(q, k) == j && k != NULL && k != h {
      RefRowFacts(s, t, j);
    }
    assert Forward(f.refNext, q);
    ForwardPush(f.refNext, next, q, h);
    ElsewhereByOwner(f.refNext, next, s.live, s.target, s.refs, t);
    AllForwardUpdate(f.refNext, next, s.refs, t, [h] + q);
  }

  lemma ReferringBackward(f: Fields, s: Heap, h: Ptr, t: Ptr, prev: Link)
    requires Represents(f, s) && h in s.live && t in s.live && h != t && s.target[h] == NULL
             && prev == Put(f.refPrev, f.refs[t], h)[h := NULL]
    ensures AllBackward(prev, Referring(s, h, t).refs)
  {
    var q := s.refs[t];
    forall j | 0 <= j < |q| ensures var k := q[j]; k in s.live && s.target[k] == t && IndexOf(q, k) == j && k != NULL && k != h {
      RefRowFacts(s, t, j);
    }
    assert Backward(f.refPrev, q);
    BackwardPush(f.refPrev, prev, q, h);
    ElsewhereByOwner(f.refPrev, prev, s.live, s.target, s.refs, t);
    AllBackwardUpdate(f.refPrev, prev, s.refs, t, [h] + q);
  }

  /** The childless chunk h becomes the newest reference to t. */
  lemma ReferringRepresents(f: Fields, s: Heap, h: Ptr, t: Ptr, next: Link, prev: Link)
    requires Represents(f, s) && h in s.live && t in s.live && h != t && !IsHandle(s, t)
    requires s.kids[h] == [] && s.refs[h] == [] && s.target[h] == NULL
    requires next == f.refNext[h := f.refs[t]] && prev == Put(f.refPrev, f.refs[t], h)[h := NULL]
    ensures var f' := f.(destructor := f.destructor[h := ReleasesReference], ptr := f.ptr[h := t],
                         refNext := next, refPrev := prev, refs := f.refs[t := h]);
            Represents(f', Referring(s, h, t))
  {
    ReferringWf(s, h, t);
    ReferringForward(f, s, h, t, next);
    ReferringBackward(f, s, h, t, prev);
    if s.refs[t] != [] { RefRowFacts(s, t, 0); }
  }

  lemma RefRowFacts(s: Heap, t: Ptr, j: nat)
    requires Wf(s) && t in s.live && j < |s.refs[t]|
    ensures var k := s.refs[t][j];
            k in s.live && s.target[k] == t && IndexOf(s.refs[t], k) == j && k != NULL && k != t && IsHandle(s, k)
  {
    var k := s.refs[t][j];
    assert k in s.refs[t];
  }

  /** The chunk that __talloc has made, and the others. */
  lemma AllocatedFacts(s: Heap, c: Ptr, p: Ptr, size: nat, x: Ptr)
    requires Wf(s) && c !in s.live && c != NULL && (p == NULL || (p in s.live && !IsHandle(s, p))) && x in s.live
    ensures var t := Allocated(s, c, p, size);
            && Wf(t) && c in t.live && x in t.live && x != c && t.target[x] == s.target[x]
            && t.kids[c] == [] && t.refs[c] == [] && t.target[c] == NULL
  {
    AllocatedWf(s, c, p, size);
  }

  /** The end of _talloc_reference: handle becomes the newest reference to ptr. */
  method Refer(m: Memory, handle: Ptr, ptr: Ptr)
    requires m.Linked() && handle in m.heap.live && ptr in m.heap.live && handle != ptr && !IsHandle(m.heap, ptr)
    requires m.heap.kids[handle] == [] && m.heap.refs[handle] == [] && m.heap.target[handle] == NULL
    modifies m
    ensures m.Linked() && m.heap == Referring(old(m.heap), handle, ptr) && handle in m.f.ptr && m.f.ptr[handle] == ptr
  {
    assert Look(0);
    var f := m.f;
    if m.heap.refs[ptr] != [] { RefRowFacts(m.heap, ptr, 0); }
    var next, prev, list := ListAdd(f.refNext, f.refPrev, f.refs[ptr], handle);
    ReferringRepresents(f, m.heap, handle, ptr, next, prev);
    m.f := f.(destructor := f.destructor[handle := ReleasesReference], ptr := f.ptr[handle := ptr],
              refNext := next, refPrev := prev, refs := f.refs[ptr := list]);
    m.heap := Referring(m.heap, handle, ptr);
  }

  /** _talloc_reference. */
  method Reference(m: Memory, context: Ptr, ptr: Ptr, block: Ptr) returns (res: Ptr)
    requires m.Linked() && (context == NULL || (context in m.heap.live && !IsHandle(m.heap, context)))
    requires ptr == NULL || (ptr in m.heap.live && !IsHandle(m.heap, ptr))
    requires block !in m.heap.live
    modifies m
    ensures m.Linked()
    ensures res == if block == NULL then NULL else ptr
    ensures m.heap == if res == NULL then old(m.heap)
                      else Referring(Allocated(old(m.heap), block, context, HANDLE_SIZE), block, ptr)
    ensures res != NULL ==> NewReference(old(m.heap), m.heap, block, context, ptr)
  {
    if ptr == NULL {
      return NULL;
    }
    if block != NULL {
      AllocatedFacts(m.heap, block, context, HANDLE_SIZE, ptr);
      ReferringIsNew(m.heap, block, context, ptr);
    }
    var handle := Talloc(m, context, HANDLE_SIZE, block);
    if handle == NULL {
      return NULL;
    }
    Refer(m, handle, ptr);
    return m.f.ptr[handle];
  }

  /** Where the payload links of a handle point. */
  lemma RefNeighbours(f: Fields, s: Heap, h: Ptr) returns (i: nat)
    requires Represents(f, s) && IsHandle(s, h)
    ensures var q := s.refs[s.target[h]];
            && i < |q| && q[i] == h && i == IndexOf(q, h)
            && f.refNext[h] == At(q, i + 1) && f.refPrev[h] == At(q, i - 1) && f.refs[s.target[h]] == q[0]
    ensures f.refNext[h] != NULL
            ==> f.refNext[h] in s.live && f.refNext[h] != h && s.target[f.refNext[h]] == s.target[h]
    ensures f.refPrev[h] != NULL
            ==> f.refPrev[h] in s.live && f.refPrev[h] != h && s.target[f.refPrev[h]] == s.target[h]
  {
    var q := s.refs[s.target[h]];
    i := IndexOf(q, h);
    assert Forward(f.refNext, q) && Backward(f.refPrev, q);
    assert f.refNext[q[i]] == At(q, i + 1);
    assert f.refPrev[q[i]] == At(q, i - 1);
    if i + 1 < |q| { RefRowFacts(s, s.target[h], i + 1); }
    if i > 0 { RefRowFacts(s, s.target[h], i - 1); }
  }

  lemma ReleasedForward(s: Heap, h: Ptr, t: Ptr, i: nat, next: Link, next': Link)
    requires Wf(s) && AllForward(next, s.refs) && Over(s.live, next) && Over(s.live, next')
    requires h in s.live && t != NULL && s.target[h] == t && i < |s.refs[t]| && i == IndexOf(s.refs[t], h)
    requires forall x {:trigger s.target[x]} :: x in s.live && x != h && x != At(s.refs[t], i - 1) ==> next'[x] == next[x]
    requires 0 < i ==> s.refs[t][i - 1] in next' && next'[s.refs[t][i - 1]] == At(s.refs[t], i + 1)
    ensures AllForward(next', Released(s, h).refs)
  {
    var q := s.refs[t];
    forall j | 0 <= j < |q| ensures var k := q[j]; k in s.live && s.target[k] == t && IndexOf(q, k) == j && k != NULL { RefRowFacts(s, t, j); }
    assert Forward(next, q);
    ForwardCut(next, next', q, i);
    ElsewhereByOwner(next, next', s.live, s.target, s.refs, t);
    AllForwardUpdate(next, next', s.refs, t, CutAt(q, i));
  }

  lemma ReleasedBackward(s: Heap, h: Ptr, t: Ptr, i: nat, prev: Link, prev': Link)
    requires Wf(s) && AllBackward(prev, s.refs) && Over(s.live, prev) && Over(s.live, prev')
    requires h in s.live && t != NULL && s.target[h] == t && i < |s.refs[t]| && i == IndexOf(s.refs[t], h)
    requires forall x {:trigger s.target[x]} :: x in s.live && x != h && x != At(s.refs[t], i + 1) ==> prev'[x] == prev[x]
    requires i + 1 < |s.refs[t]| ==> s.refs[t][i + 1] in prev' && prev'[s.refs[t][i + 1]] == At(s.refs[t], i - 1)
    ensures AllBackward(prev', Released(s, h).refs)
  {
    var q := s.refs[t];
    forall j | 0 <= j < |q| ensures var k := q[j]; k in s.live && s.target[k] == t && IndexOf(q, k) == j && k != NULL { RefRowFacts(s, t, j); }
    assert Backward(prev, q);
    BackwardCut(prev, prev', q, i);
    ElsewhereByOwner(prev, prev', s.live, s.target, s.refs, t);
    AllBackwardUpdate(prev, prev', s.refs, t, CutAt(q, i));
  }

  /** The fields after the handle h has been taken out of the refs list of its target. */
  ghost function Unreferred(f: Fields, h: Ptr, t: Ptr): Fields
    requires h in f.refNext && h in f.refPrev && t in f.refs
  {
    var n, b, first := f.refNext[h], f.refPrev[h], h == f.refs[t];
    f.(destructor := f.destructor[h := NoDestructor],
       refNext := (if first then f.refNext else Put(f.refNext, b, n))[h := NULL],
       refPrev := Put(f.refPrev, n, if first then NULL else b)[h := NULL],
       refs := f.refs[t := if first then n else f.refs[t]])
  }

  /** The handle h and its neighbours. */
  lemma ReleasedAt(f: Fields, s: Heap, h: Ptr) returns (i: nat)
    requires Represents(f, s) && IsHandle(s, h)
    ensures var t := s.target[h]; var q := s.refs[t];
            && t in s.live && i < |q| && i == IndexOf(q, h) && (h == f.refs[t] <==> i == 0)
            && f.refNext[h] == At(q, i + 1) && f.refPrev[h] == At(q, i - 1)
            && (i > 0 ==> q[i - 1] in s.live && q[i - 1] != h && q[i - 1] != NULL)
            && (i + 1 < |q| ==> q[i + 1] in s.live && q[i + 1] != h && q[i + 1] != NULL)
  {
    var t := s.target[h];
    i := RefNeighbours(f, s, h);
    RefRowFacts(s, t, 0);
    RefRowFacts(s, t, i);
    if i > 0 { RefRowFacts(s, t, i - 1); }
    if i + 1 < |s.refs[t]| { RefRowFacts(s, t, i + 1); }
  }

  lemma ReleasedNext(f: Fields, s: Heap, h: Ptr)
    requires Represents(f, s) && IsHandle(s, h)
    ensures var l := Unreferred(f, h, s.target[h]).refNext; AllForward(l, Released(s, h).refs) && Over(s.live, l)
  {
    var i := ReleasedAt(f, s, h);
    ReleasedForward(s, h, s.target[h], i, f.refNext, Unreferred(f, h, s.target[h]).refNext);
  }

  lemma ReleasedPrev(f: Fields, s: Heap, h: Ptr)
    requires Represents(f, s) && IsHandle(s, h)
    ensures var l := Unreferred(f, h, s.target[h]).refPrev; AllBackward(l, Released(s, h).refs) && Over(s.live, l)
  {
    var i := ReleasedAt(f, s, h);
    ReleasedBackward(s, h, s.target[h], i, f.refPrev, Unreferred(f, h, s.target[h]).refPrev);
  }

  lemma ReleasedFirst(f: Fields, s: Heap, h: Ptr)
    requires Represents(f, s) && IsHandle(s, h)
    ensures var l := Unreferred(f, h, s.target[h]).refs; AllFirst(l, Released(s, h).refs) && Over(s.live, l)
  {
    var t := s.target[h];
    var i := ReleasedAt(f, s, h);
    assert f.refs[t] == At(s.refs[t], 0);
    assert Unreferred(f, h, t).refs[t] == At(CutAt(s.refs[t], i), 0);
  }

  lemma ReleasedRepresents(f: Fields, s: Heap, h: Ptr)
    requires Represents(f, s) && IsHandle(s, h)
    ensures Represents(Unreferred(f, h, s.target[h]), Released(s, h))
  {
    ReleasedWf(s, h);
    ReleasedNext(f, s, h);
    ReleasedPrev(f, s, h);
    ReleasedFirst(f, s, h);
  }

  /** talloc_reference_destructor, with the reset of the destructor field that talloc_free
      does when a destructor has returned 0. */
  method ReleaseReference(m: Memory, handle: Ptr)
    requires m.Linked() && IsHandle(m.heap, handle)
    modifies m
    ensures m.Linked() && m.heap == Released(old(m.heap), handle)
  {
    assert Look(0);
    var f := m.f;
    var ptr := f.ptr[handle];
    ghost var i := RefNeighbours(f, m.heap, handle);
    var next, prev, list := ListRemove(f.refNext, f.refPrev, f.refs[ptr], handle);
    ReleasedRepresents(f, m.heap, handle);
    m.f := f.(destructor := f.destructor[handle := NoDestructor], refNext := next, refPrev := prev, refs := f.refs[ptr := list]);
    m.heap := Released(m.heap, handle);
  }
}
