/** The parts of _talloc_free in lib/talloc/talloc.c around its loop: running the
    destructor, unlinking and flagging the chunk, and releasing its memory. */
module TallocFreeSteps {
  import opened Hiding
  import opened TallocHeap
  import opened TallocLists
  import opened TallocLinks
  import opened TallocSteps
  import opened TallocWalks
  import opened TallocAlloc

  // ---------- running a destructor ----------

  /** The heap after the destructor of c has returned 0. */
  ghost function Accepted(s: Heap, c: Ptr): Heap
    requires Wf(s) && c in s.live
  {
    if IsHandle(s, c) then Released(s, c) else s.(dtor := s.dtor[c := NoDestructor])
  }

  /** The call of tc's destructor d, with the writes of tc->destructor around it.  The
      destructors modelled here do not look at that field while they run. */
  method RunDestructor(m: Memory, tc: Ptr, d: Destructor) returns (rc: int)
    requires m.Linked() && tc in m.heap.live && d == m.heap.dtor[tc] && d != NoDestructor && d != Running
    modifies m
    ensures rc == if d == Refuses then -1 else 0
    ensures m.Linked() && m.heap == if rc == -1 then old(m.heap) else Accepted(old(m.heap), tc)
  {
    if d == ReleasesReference {
      ReleaseReference(m, tc);
      return 0;
    }
    assert Look(0);
    var f := m.f;
    f := f.(destructor := f.destructor[tc := Running]);
    rc := if d == Refuses then -1 else 0;
    if rc == -1 {
      f := f.(destructor := f.destructor[tc := d]);
      assert f.destructor == m.f.destructor;
      return;
    }
    f := f.(destructor := f.destructor[tc := NoDestructor]);
    assert f.destructor == m.f.destructor[tc := NoDestructor];
    m.f, m.heap := f, m.heap.(dtor := m.heap.dtor[tc := NoDestructor]);
  }

  // ---------- releasing the memory ----------

  ghost function Gone(f: Fields, c: Ptr): Fields {
    Fields(f.next - {c}, f.prev - {c}, f.parent - {c}, f.child - {c}, f.refs - {c}, f.destructor - {c},
           f.size - {c}, f.loop - {c}, f.refNext - {c}, f.refPrev - {c}, f.ptr - {c})
  }

  lemma GoneRow(l: Link, c: Ptr, q: seq<Ptr>)
    requires Covers(l, q) && c !in q
    ensures Agree(l, l - {c}, q, -1, -1)
  {
    forall i | 0 <= i < |q| ensures q[i] in l && q[i] in l - {c} && (l - {c})[q[i]] == l[q[i]] {
      var k := q[i];
      assert k in q;
    }
  }

  lemma GoneRows(f: Fields, s: Heap, c: Ptr)
    requires Represents(f, s) && c in s.live && s.up[c] == NULL && s.target[c] == NULL
    ensures var f' := Gone(f, c);
            forall p {:trigger s.kids[p]} {:trigger s.refs[p]} :: p in s.live && p != c ==>
              && Forward(f'.next, s.kids[p]) && Backward(f'.prev, s.kids[p]) && Headed(f'.parent, p, s.kids[p])
              && Forward(f'.refNext, s.refs[p]) && Backward(f'.refPrev, s.refs[p])
  {
    var f' := Gone(f, c);
    forall p | p in s.live && p != c
      ensures && Forward(f'.next, s.kids[p]) && Backward(f'.prev, s.kids[p]) && Headed(f'.parent, p, s.kids[p])
              && Forward(f'.refNext, s.refs[p]) && Backward(f'.refPrev, s.refs[p])
    {
      assert c !in s.kids[p] && c !in s.refs[p] && p != NULL;
      GoneRow(f.next, c, s.kids[p]);
      GoneRow(f.prev, c, s.kids[p]);
      GoneRow(f.parent, c, s.kids[p]);
      GoneRow(f.refNext, c, s.refs[p]);
      GoneRow(f.refPrev, c, s.refs[p]);
      ForwardFrame(f.next, f'.next, s.kids[p]);
      BackwardFrame(f.prev, f'.prev, s.kids[p]);
      HeadedFrame(f.parent, f'.parent, p, s.kids[p]);
      ForwardFrame(f.refNext, f'.refNext, s.refs[p]);
      BackwardFrame(f.refPrev, f'.refPrev, s.refs[p]);
    }
  }

  lemma GoneRepresents(f: Fields, s: Heap, c: Ptr)
    requires Represents(f, s) && c in s.live && s.up[c] == NULL && s.kids[c] == [] && s.refs[c] == []
             && s.target[c] == NULL
    ensures Represents(Gone(f, c), Removed(s, c))
  {
    RemovedWf(s, c);
    GoneRows(f, s, c);
  }

  /** free(tc): the chunk's fields are no longer there to be read. */
  method Release(m: Memory, tc: Ptr)
    requires m.Linked() && tc in m.heap.live && m.heap.up[tc] == NULL && m.heap.target[tc] == NULL
    requires m.heap.kids[tc] == [] && m.heap.refs[tc] == []
    modifies m
    ensures m.Linked() && m.heap == Removed(old(m.heap), tc)
  {
    assert Look(0);
    GoneRepresents(m.f, m.heap, tc);
    var f := m.f;
    m.f := Fields(f.next - {tc}, f.prev - {tc}, f.parent - {tc}, f.child - {tc}, f.refs - {tc}, f.destructor - {tc},
                  f.size - {tc}, f.loop - {tc}, f.refNext - {tc}, f.refPrev - {tc}, f.ptr - {tc});
    m.heap := Removed(m.heap, tc);
  }

  /** tc->flags |= TALLOC_FLAG_LOOP */
  method Flag(m: Memory, tc: Ptr)
    requires m.Linked() && tc in m.heap.live
    modifies m
    ensures m.Linked() && m.heap == old(m.heap).(loop := old(m.heap).loop[tc := true])
  {
    assert Look(0);
    m.f, m.heap := m.f.(loop := m.f.loop[tc := true]), m.heap.(loop := m.heap.loop[tc := true]);
  }

  // ---------- the heap when the loop starts ----------

  /** The heap when the children of the ordinary chunk c are about to be freed. */
  ghost function Opened(s: Heap, c: Ptr): Heap
    requires Wf(s) && c in s.live
  {
    AcceptedWf(s, c);
    var t := Detached(Accepted(s, c), c);
    t.(loop := t.loop[c := true])
  }

  lemma AcceptedWf(s: Heap, c: Ptr)
    requires Wf(s) && c in s.live
    ensures Wf(Accepted(s, c)) && Accepted(s, c).live == s.live
  {
    if IsHandle(s, c) { ReleasedWf(s, c); }
  }

  /** What has changed since the start of talloc_free: c is out of its list, and flagged. */
  lemma OpenedIs(s: Heap, c: Ptr)
    requires Wf(s) && c in s.live && !IsHandle(s, c)
    ensures var t := Opened(s, c);
            && Wf(t) && t.live == s.live && t.up[c] == NULL && t.loop[c] && t.place[c].Unlinked?
            && t.kids[c] == s.kids[c]
            && t.refs == s.refs && t.target == s.target && t.size == s.size
            && forall x {:trigger x in t.live} :: x in t.live && x != c ==>
                 && t.up[x] == s.up[x] && t.dtor[x] == s.dtor[x] && t.loop[x] == s.loop[x] && t.place[x] == s.place[x]
                 && t.kids[x] == (if x == s.up[c] then Without(s.kids[x], c) else s.kids[x])
  {
    AcceptedWf(s, c);
    DetachedWf(Accepted(s, c), c);
  }

  lemma OpenedAbove(s: Heap, c: Ptr)
    requires Wf(s) && c in s.live && !IsHandle(s, c) && s.place[c] == InList
    ensures var t := Opened(s, c);
            && c in t.live && Above(t, c) == s.up[c] && Anchored(t, c) && t.place[c].Unlinked?
            && t.place[c].prev == if s.up[c] == NULL || IndexOf(s.kids[s.up[c]], c) == 0 then NULL else s.kids[s.up[c]][IndexOf(s.kids[s.up[c]], c) - 1]
  {
    OpenedIs(s, c);
    var p := s.up[c];
    if p != NULL {
      var i := IndexOf(s.kids[p], c);
      assert c in s.kids[p];
      if i > 0 {
        RowFacts(s, p, i - 1);
        RowFacts(s, p, i);
        var b := s.kids[p][i - 1];
        assert s.place[b] == InList;
        assert b in Opened(s, c).live && b != c;
      }
    }
  }
}
