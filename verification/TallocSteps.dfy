/** The link-editing steps of lib/talloc/talloc.c.  Each method changes the fields of the
    memory as the code does, and is proved to change the heap as `TallocHeap` describes. */
module TallocSteps {
  import opened Hiding
  import opened TallocHeap
  import opened TallocLists
  import opened TallocLinks

  // ---------- taking a chunk out of its list ----------

  /** Writes l[c] when c is not NULL. */
  ghost function Put(l: Link, c: Ptr, v: Ptr): Link {
    if c == NULL then l else l[c := v]
  }

  /** _TLIST_REMOVE. */
  method ListRemove(next: Link, prev: Link, list: Ptr, p: Ptr) returns (next': Link, prev': Link, list': Ptr)
    requires p in next && p in prev && p != NULL && next[p] != p && prev[p] != p
    requires next[p] != NULL ==> next[p] in prev
    requires prev[p] != NULL ==> prev[p] in next
    ensures list' == if p == list then next[p] else list
    ensures next' == (if p == list then next else Put(next, prev[p], next[p]))[p := NULL]
    ensures prev' == Put(prev, next[p], if p == list then NULL else prev[p])[p := NULL]
  {
    next', prev', list' := next, prev, list;
    if p == list' {
      list' := next'[p];
      if list' != NULL { prev' := prev'[list' := NULL]; }
    } else {
      if prev'[p] != NULL { next' := next'[prev'[p] := next'[p]]; }
      if next'[p] != NULL { prev' := prev'[next'[p] := prev'[p]]; }
    }
    if p != NULL && p != list' { next', prev' := next'[p := NULL], prev'[p := NULL]; }
  }

  /** Where the sibling fields of a listed chunk point. */
  lemma Neighbours(s: Heap, next: Link, prev: Link, parent: Link, c: Ptr) returns (i: nat)
    requires Wf(s) && AllForward(next, s.kids) && AllBackward(prev, s.kids) && AllHeaded(parent, s.kids)
    requires c in s.live && s.up[c] != NULL && c in next && c in prev && c in parent
    ensures var q := s.kids[s.up[c]];
            && i < |q| && q[i] == c && i == IndexOf(q, c)
            && next[c] == At(q, i + 1) && prev[c] == At(q, i - 1) && parent[c] == (if i == 0 then s.up[c] else NULL)
    ensures next[c] != NULL ==> next[c] in s.live && next[c] != c && s.up[next[c]] == s.up[c]
    ensures prev[c] != NULL ==> prev[c] in s.live && prev[c] != c && s.up[prev[c]] == s.up[c] && prev[c] != next[c]
  {
    var q := s.kids[s.up[c]];
    i := IndexOf(q, c);
    assert Forward(next, q) && Backward(prev, q) && Headed(parent, s.up[c], q);
    assert next[q[i]] == At(q, i + 1);
    assert prev[q[i]] == At(q, i - 1);
    assert parent[q[i]] == if i == 0 then s.up[c] else NULL;
    if next[c] != NULL { var n := next[c]; assert n == q[i + 1] && n in q; }
    if prev[c] != NULL { var n := prev[c]; assert n == q[i - 1] && n in q; }
  }

  lemma RowFacts(s: Heap, p: Ptr, j: nat)
    requires Wf(s) && p in s.live && j < |s.kids[p]|
    ensures var k := s.kids[p][j]; k in s.live && s.up[k] == p && IndexOf(s.kids[p], k) == j && k != NULL
  {
    var k := s.kids[p][j];
    assert k in s.kids[p];
  }

  // The child lists after the unlinking code has run on the i-th child c of p.

  lemma DetachedForward(s: Heap, c: Ptr, p: Ptr, i: nat, next: Link, next': Link)
    requires Wf(s) && AllForward(next, s.kids) && Over(s.live, next) && Over(s.live, next')
    requires c in s.live && p != NULL && s.up[c] == p && i < |s.kids[p]| && i == IndexOf(s.kids[p], c)
    requires forall x {:trigger s.up[x]} :: x in s.live && x != c && x != At(s.kids[p], i - 1) ==> next'[x] == next[x]
    requires 0 < i ==> s.kids[p][i - 1] in next' && next'[s.kids[p][i - 1]] == At(s.kids[p], i + 1)
    ensures AllForward(next', Detached(s, c).kids)
  {
    var q := s.kids[p];
    forall j | 0 <= j < |q| ensures var k := q[j]; k in s.live && s.up[k] == p && IndexOf(q, k) == j && k != NULL { RowFacts(s, p, j); }
    assert Forward(next, q);
    ForwardCut(next, next', q, i);
    ElsewhereByOwner(next, next', s.live, s.up, s.kids, p);
    AllForwardUpdate(next, next', s.kids, p, CutAt(q, i));
  }

  lemma DetachedBackward(s: Heap, c: Ptr, p: Ptr, i: nat, prev: Link, prev': Link)
    requires Wf(s) && AllBackward(prev, s.kids) && Over(s.live, prev) && Over(s.live, prev')
    requires c in s.live && p != NULL && s.up[c] == p && i < |s.kids[p]| && i == IndexOf(s.kids[p], c)
    requires forall x {:trigger s.up[x]} :: x in s.live && x != c && x != At(s.kids[p], i + 1) ==> prev'[x] == prev[x]
    requires i + 1 < |s.kids[p]| ==> s.kids[p][i + 1] in prev' && prev'[s.kids[p][i + 1]] == At(s.kids[p], i - 1)
    ensures AllBackward(prev', Detached(s, c).kids)
  {
    var q := s.kids[p];
    forall j | 0 <= j < |q| ensures var k := q[j]; k in s.live && s.up[k] == p && IndexOf(q, k) == j && k != NULL { RowFacts(s, p, j); }
    assert Backward(prev, q);
    BackwardCut(prev, prev', q, i);
    ElsewhereByOwner(prev, prev', s.live, s.up, s.kids, p);
    AllBackwardUpdate(prev, prev', s.kids, p, CutAt(q, i));
  }

  lemma DetachedHeaded(s: Heap, c: Ptr, p: Ptr, i: nat, parent: Link, parent': Link)
    requires Wf(s) && AllHeaded(parent, s.kids) && Over(s.live, parent) && Over(s.live, parent')
    requires c in s.live && p != NULL && s.up[c] == p && i < |s.kids[p]| && i == IndexOf(s.kids[p], c)
    requires forall x {:trigger s.up[x]} :: x in s.live && x != c && (i != 0 || x != At(s.kids[p], 1)) ==> parent'[x] == parent[x]
    requires i == 0 && 1 < |s.kids[p]| ==> s.kids[p][1] in parent' && parent'[s.kids[p][1]] == p
    ensures AllHeaded(parent', Detached(s, c).kids)
  {
    var q := s.kids[p];
    forall j | 0 <= j < |q| ensures var k := q[j]; k in s.live && s.up[k] == p && IndexOf(q, k) == j && k != NULL { RowFacts(s, p, j); }
    assert Headed(parent, p, q);
    HeadedCut(parent, parent', p, q, i);
    ElsewhereByOwner(parent, parent', s.live, s.up, s.kids, p);
    AllHeadedUpdate(parent, parent', s.kids, p, CutAt(q, i));
  }

  /** l' is l except for c and for children of p. */
  ghost predicate SameElsewhere(live: set<Ptr>, up: Link, l: Link, l': Link, c: Ptr, p: Ptr) {
    && Over(live, up) && Over(live, l) && Over(live, l')
    && forall x {:trigger l'[x]} :: x in live && (up[x] == NULL || up[x] != p) && x != c ==> l'[x] == l[x]
  }

  lemma DetachedOutside(s: Heap, c: Ptr, next: Link, prev: Link, parent: Link, next': Link, prev': Link, parent': Link)
    requires Wf(s) && c in s.live && s.place[c] == InList && Outside(s, next, prev, parent)
    requires SameElsewhere(s.live, s.up, next, next', c, s.up[c])
    requires SameElsewhere(s.live, s.up, prev, prev', c, s.up[c])
    requires SameElsewhere(s.live, s.up, parent, parent', c, s.up[c])
    requires Detached(s, c).place[c] == Unlinked(prev'[c], parent'[c])
    ensures Outside(Detached(s, c), next', prev', parent')
  {
    var t := Detached(s, c);
    forall x | x in t.live
      ensures match t.place[x]
              case Unlinked(b, p) => prev'[x] == b && parent'[x] == p
              case InList => t.up[x] == NULL ==> next'[x] == NULL && prev'[x] == NULL && parent'[x] == NULL
    {
      assert s.place[x] == s.place[x];
    }
  }

  /** The fields after the unlinking code has run on tc. */
  ghost function Unhooked(f: Fields, tc: Ptr): Fields
    requires tc in f.next && tc in f.prev && tc in f.parent
  {
    var n, b, p := f.next[tc], f.prev[tc], f.parent[tc];
    if p != NULL then
      f.(next := f.next[tc := NULL], prev := Put(f.prev, n, NULL)[tc := NULL],
         child := f.child[p := n], parent := Put(f.parent, n, p))
    else
      f.(next := Put(f.next, b, n), prev := Put(f.prev, n, b))
  }

  lemma UnhookedRows(f: Fields, s: Heap, tc: Ptr)
    requires Represents(f, s) && tc in s.live && s.place[tc] == InList && s.up[tc] != NULL
    ensures var f', t := Unhooked(f, tc), Detached(s, tc);
            AllForward(f'.next, t.kids) && AllBackward(f'.prev, t.kids) && AllHeaded(f'.parent, t.kids)
  {
    var f' := Unhooked(f, tc);
    var i := Neighbours(s, f.next, f.prev, f.parent, tc);
    DetachedForward(s, tc, s.up[tc], i, f.next, f'.next);
    DetachedBackward(s, tc, s.up[tc], i, f.prev, f'.prev);
    DetachedHeaded(s, tc, s.up[tc], i, f.parent, f'.parent);
  }

  lemma UnhookedRepresents(f: Fields, s: Heap, tc: Ptr)
    requires Represents(f, s) && tc in s.live && s.place[tc] == InList
    ensures Represents(Unhooked(f, tc), Detached(s, tc))
  {
    var f' := Unhooked(f, tc);
    DetachedWf(s, tc);
    assert s.place[tc] == InList;
    if s.up[tc] != NULL {
      UnhookedRows(f, s, tc);
      var i := Neighbours(s, f.next, f.prev, f.parent, tc);
    }
    DetachedOutside(s, tc, f.next, f.prev, f.parent, f'.next, f'.prev, f'.parent);
  }

  /** The unlinking code of talloc_free and talloc_steal. */
  method Detach(m: Memory, tc: Ptr)
    requires m.Linked() && tc in m.heap.live && m.heap.place[tc] == InList
    modifies m
    ensures m.heap == Detached(old(m.heap), tc) && m.Linked()
  {
    assert Look(0);
    var f := m.f;
    UnhookedRepresents(f, m.heap, tc);
    if f.parent[tc] != NULL {
      var p := f.parent[tc];
      var next, prev, head := ListRemove(f.next, f.prev, f.child[p], tc);
      f := f.(next := next, prev := prev, child := f.child[p := head]);
      if f.child[p] != NULL { f := f.(parent := f.parent[f.child[p] := p]); }
    } else {
      if f.prev[tc] != NULL { f := f.(next := f.next[f.prev[tc] := f.next[tc]]); }
      if f.next[tc] != NULL { f := f.(prev := f.prev[f.next[tc] := f.prev[tc]]); }
    }
    Install(m, f, Detached(m.heap, tc));
  }

  // ---------- putting a chunk at the front of a list ----------

  /** _TLIST_ADD. */
  method ListAdd(next: Link, prev: Link, list: Ptr, p: Ptr) returns (next': Link, prev': Link, list': Ptr)
    requires list != NULL ==> list in prev && list != p
    ensures list' == p
    ensures next' == next[p := list]
    ensures prev' == Put(prev, list, p)[p := NULL]
  {
    next', prev', list' := next, prev, list;
    if list' == NULL {
      list' := p;
      next', prev' := next'[p := NULL], prev'[p := NULL];
    } else {
      prev' := prev'[list' := p];
      next' := next'[p := list'];
      prev' := prev'[p := NULL];
      list' := p;
    }
  }

  /** The fields after c has been put in front of the children of p, or made a root. */
  ghost function Hooked(f: Fields, c: Ptr, p: Ptr): Fields
    requires p != NULL ==> p in f.child
  {
    if p == NULL then
      f.(next := f.next[c := NULL], prev := f.prev[c := NULL], parent := f.parent[c := NULL])
    else
      var first := f.child[p];
      f.(next := f.next[c := first], prev := Put(f.prev, first, c)[c := NULL],
         parent := Put(f.parent[c := p], first, NULL), child := f.child[p := c])
  }

  lemma AttachedForward(s: Heap, c: Ptr, p: Ptr, next: Link, next': Link)
    requires Wf(s) && AllForward(next, s.kids) && Over(s.live, next) && Over(s.live, next')
    requires c in s.live && s.up[c] == NULL && p in s.live && p != c
    requires next'[c] == At(s.kids[p], 0)
             && forall x {:trigger s.up[x]} :: x in s.live && x != c ==> next'[x] == next[x]
    ensures AllForward(next', Attached(s, c, p).kids)
  {
    var q := s.kids[p];
    forall j | 0 <= j < |q| ensures var k := q[j]; k in s.live && s.up[k] == p && IndexOf(q, k) == j && k != NULL { RowFacts(s, p, j); }
    assert Forward(next, q);
    ForwardPush(next, next', q, c);
    ElsewhereByOwner(next, next', s.live, s.up, s.kids, p);
    AllForwardUpdate(next, next', s.kids, p, [c] + q);
  }

  lemma AttachedBackward(s: Heap, c: Ptr, p: Ptr, prev: Link, prev': Link)
    requires Wf(s) && AllBackward(prev, s.kids) && Over(s.live, prev) && Over(s.live, prev')
    requires c in s.live && s.up[c] == NULL && p in s.live && p != c && prev'[c] == NULL
    requires s.kids[p] != [] ==> s.kids[p][0] in prev' && prev'[s.kids[p][0]] == c
    requires forall x {:trigger s.up[x]} :: x in s.live && x != c && x != At(s.kids[p], 0) ==> prev'[x] == prev[x]
    ensures AllBackward(prev', Attached(s, c, p).kids)
  {
    var q := s.kids[p];
    forall j | 0 <= j < |q| ensures var k := q[j]; k in s.live && s.up[k] == p && IndexOf(q, k) == j && k != NULL { RowFacts(s, p, j); }
    assert Backward(prev, q);
    BackwardPush(prev, prev', q, c);
    ElsewhereByOwner(prev, prev', s.live, s.up, s.kids, p);
    AllBackwardUpdate(prev, prev', s.kids, p, [c] + q);
  }

  lemma AttachedHeaded(s: Heap, c: Ptr, p: Ptr, parent: Link, parent': Link)
    requires Wf(s) && AllHeaded(parent, s.kids) && Over(s.live, parent) && Over(s.live, parent')
    requires c in s.live && s.up[c] == NULL && p in s.live && p != c && parent'[c] == p
    requires s.kids[p] != [] ==> s.kids[p][0] in parent' && parent'[s.kids[p][0]] == NULL
    requires forall x {:trigger s.up[x]} :: x in s.live && x != c && x != At(s.kids[p], 0) ==> parent'[x] == parent[x]
    ensures AllHeaded(parent', Attached(s, c, p).kids)
  {
    var q := s.kids[p];
    forall j | 0 <= j < |q| ensures var k := q[j]; k in s.live && s.up[k] == p && IndexOf(q, k) == j && k != NULL { RowFacts(s, p, j); }
    assert Headed(parent, p, q);
    HeadedPush(parent, parent', p, q, c);
    ElsewhereByOwner(parent, parent', s.live, s.up, s.kids, p);
    AllHeadedUpdate(parent, parent', s.kids, p, [c] + q);
  }

  lemma AttachedRows(f: Fields, s: Heap, c: Ptr, p: Ptr)
    requires Represents(f, s) && c in s.live && s.up[c] == NULL && p in s.live && p != c
    ensures var f', t := Hooked(f, c, p), Attached(s, c, p);
            AllForward(f'.next, t.kids) && AllBackward(f'.prev, t.kids) && AllHeaded(f'.parent, t.kids)
  {
    var f' := Hooked(f, c, p);
    if s.kids[p] != [] { RowFacts(s, p, 0); }
    AttachedForward(s, c, p, f.next, f'.next);
    AttachedBackward(s, c, p, f.prev, f'.prev);
    AttachedHeaded(s, c, p, f.parent, f'.parent);
  }

  lemma RootedRows(f: Fields, s: Heap, c: Ptr)
    requires Represents(f, s) && c in s.live && s.up[c] == NULL
    ensures var f' := Hooked(f, c, NULL);
            AllForward(f'.next, s.kids) && AllBackward(f'.prev, s.kids) && AllHeaded(f'.parent, s.kids)
  {
    var f' := Hooked(f, c, NULL);
    ElsewhereByOwner(f.next, f'.next, s.live, s.up, s.kids, NULL);
    ElsewhereByOwner(f.prev, f'.prev, s.live, s.up, s.kids, NULL);
    ElsewhereByOwner(f.parent, f'.parent, s.live, s.up, s.kids, NULL);
    forall q | q in s.kids
      ensures Forward(f'.next, s.kids[q]) && Backward(f'.prev, s.kids[q]) && Headed(f'.parent, q, s.kids[q])
    {
      ForwardFrame(f.next, f'.next, s.kids[q]);
      BackwardFrame(f.prev, f'.prev, s.kids[q]);
      HeadedFrame(f.parent, f'.parent, q, s.kids[q]);
    }
  }

  lemma HookedRepresents(f: Fields, s: Heap, c: Ptr, p: Ptr)
    requires Represents(f, s) && c in s.live && s.up[c] == NULL
    requires p == NULL || (p in s.live && p != c && !IsHandle(s, p))
    ensures Represents(Hooked(f, c, p), Attached(s, c, p))
  {
    AttachedWf(s, c, p);
    if p == NULL {
      RootedRows(f, s, c);
    } else {
      AttachedRows(f, s, c, p);
      if s.kids[p] != [] { RowFacts(s, p, 0); }
    }
    HookedOutside(f, s, c, p);
  }

  lemma HookedOutside(f: Fields, s: Heap, c: Ptr, p: Ptr)
    requires Represents(f, s) && c in s.live && s.up[c] == NULL
    requires (p == NULL || (p in s.live && p != c)) && Domains(Attached(s, c, p))
    ensures var f' := Hooked(f, c, p); Outside(Attached(s, c, p), f'.next, f'.prev, f'.parent)
  {
    var f', t := Hooked(f, c, p), Attached(s, c, p);
    if p != NULL && s.kids[p] != [] { RowFacts(s, p, 0); }
    forall x | x in t.live
      ensures match t.place[x]
              case Unlinked(b, d) => f'.prev[x] == b && f'.parent[x] == d
              case InList => t.up[x] == NULL ==> f'.next[x] == NULL && f'.prev[x] == NULL && f'.parent[x] == NULL
    {
      assert s.place[x] == s.place[x];
    }
  }

  /** The end of _talloc_steal: the unlinked chunk tc becomes a root. */
  method MakeRoot(m: Memory, tc: Ptr)
    requires m.Linked() && tc in m.heap.live && m.heap.up[tc] == NULL
    modifies m
    ensures m.heap == Attached(old(m.heap), tc, NULL) && m.Linked()
  {
    assert Look(0);
    var f := m.f;
    HookedRepresents(f, m.heap, tc, NULL);
    f := f.(parent := f.parent[tc := NULL], next := f.next[tc := NULL], prev := f.prev[tc := NULL]);
    Install(m, f, Attached(m.heap, tc, NULL));
  }

  /** The end of _talloc_steal: the unlinked chunk tc becomes the first child of newTc. */
  method MakeFirst(m: Memory, newTc: Ptr, tc: Ptr)
    requires m.Linked() && tc in m.heap.live && m.heap.up[tc] == NULL
    requires newTc in m.heap.live && newTc != tc && !IsHandle(m.heap, newTc)
    modifies m
    ensures m.heap == Attached(old(m.heap), tc, newTc) && m.Linked()
  {
    assert Look(0);
    var f := m.f;
    if m.heap.kids[newTc] != [] { RowFacts(m.heap, newTc, 0); }
    HookedRepresents(f, m.heap, tc, newTc);
    f := f.(parent := f.parent[tc := newTc]);
    if f.child[newTc] != NULL { f := f.(parent := f.parent[f.child[newTc] := NULL]); }
    var next, prev, list := ListAdd(f.next, f.prev, f.child[newTc], tc);
    f := f.(next := next, prev := prev, child := f.child[newTc := list]);
    Install(m, f, Attached(m.heap, tc, newTc));
  }

  /** tc->parent == newTc */
  method HasParentField(m: Memory, tc: Ptr, newTc: Ptr) returns (b: bool)
    requires m.Linked() && tc in m.heap.live && m.heap.place[tc] == InList && newTc in m.heap.live
    ensures b <==> m.heap.up[tc] == newTc && m.heap.kids[newTc][0] == tc
  {
    assert Look(0);
    FirstChild(m.f, m.heap, tc);
    b := m.f.parent[tc] == newTc;
  }

  /** The heap between the two halves of _talloc_steal. */
  lemma Between(s: Heap, c: Ptr, p: Ptr)
    requires Wf(s) && c in s.live && (p == NULL || (p in s.live && !IsHandle(s, p)))
    ensures var t := Detached(s, c);
            && Wf(t) && t.live == s.live && t.up[c] == NULL && (p == NULL || !IsHandle(t, p))
            && (!StaysPut(s, c, p) ==> Stolen(s, c, p) == Attached(t, c, p))
  {
    DetachedWf(s, c);
  }

  /** _talloc_steal, for a ptr that is not NULL. */
  method Steal(m: Memory, newCtx: Ptr, tc: Ptr)
    requires m.Linked() && tc in m.heap.live && m.heap.place[tc] == InList
    requires newCtx == NULL || (newCtx in m.heap.live && !IsHandle(m.heap, newCtx))
    modifies m
    ensures m.heap == Stolen(old(m.heap), tc, newCtx) && m.Linked()
  {
    Between(m.heap, tc, newCtx);
    if newCtx == NULL {
      Detach(m, tc);
      MakeRoot(m, tc);
      return;
    }
    var there := HasParentField(m, tc, newCtx);
    if tc == newCtx || there {
      return;
    }
    Detach(m, tc);
    MakeFirst(m, newCtx, tc);
  }

  /** A listed chunk's parent field is its parent exactly when it is the first child. */
  lemma FirstChild(f: Fields, s: Heap, c: Ptr)
    requires Represents(f, s) && c in s.live && s.place[c] == InList
    ensures forall p :: p != NULL && p in s.live ==> (f.parent[c] == p <==> s.up[c] == p && s.kids[p][0] == c)
  {
    assert s.place[c] == InList;
    if s.up[c] != NULL {
      var i := Neighbours(s, f.next, f.prev, f.parent, c);
      assert IndexOf(s.kids[s.up[c]], s.kids[s.up[c]][0]) == 0;
    }
  }
}
