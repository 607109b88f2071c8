/** talloc_unlink of lib/talloc/talloc.c: a chunk loses exactly one of its owners. */
module TallocUnlink {
  import opened Hiding
  import opened TallocHeap
  import opened TallocLists
  import opened TallocLinks
  import opened TallocSteps
  import opened TallocWalks
  import opened TallocAlloc
  import opened TallocSweep
  import opened TallocSweepSteps
  import opened TallocEffects
  import opened TallocZones
  import opened TallocFree
  import opened TallocFreeTheorems
  import opened TallocForest

  // ---------- the owners of a chunk ----------

  /** The holders of the handles of q. */
  ghost function Holders(s: Heap, q: seq<Ptr>): multiset<Ptr>
    requires Domains(s)
  {
    if q == [] then multiset{}
    else
      var h := q[0];
      multiset{if h in s.live then s.up[h] else NULL} + Holders(s, q[1..])
  }

  /** The parent of x and the holders of its references. */
  ghost function Owners(s: Heap, x: Ptr): multiset<Ptr>
    requires Domains(s) && x in s.live
  {
    multiset{s.up[x]} + Holders(s, s.refs[x])
  }

  lemma {:induction false} HoldersFrame(s: Heap, t: Heap, q: seq<Ptr>)
    requires Domains(s) && Domains(t)
    requires forall h :: h in q ==> h in s.live && h in t.live && s.up[h] == t.up[h]
    ensures Holders(s, q) == Holders(t, q)
  {
    if q != [] {
      var h := q[0];
      assert h in q;
      HoldersFrame(s, t, q[1..]);
    }
  }

  lemma {:induction false} HoldersCut(s: Heap, q: seq<Ptr>, i: nat)
    requires Domains(s) && i < |q|
    ensures var h := q[i]; Holders(s, q) == Holders(s, CutAt(q, i)) + multiset{if h in s.live then s.up[h] else NULL}
  {
    if i == 0 {
      assert CutAt(q, i) == q[1..];
    } else {
      CutBehind(q, i);
      HoldersCut(s, q[1..], i - 1);
    }
  }

  lemma CutBehind(q: seq<Ptr>, i: nat)
    requires 0 < i < |q|
    ensures CutAt(q, i) == [q[0]] + CutAt(q[1..], i - 1)
  {
    var r := CutAt(q, i);
    assert r[0] == q[0];
    forall j | 0 <= j < |r| - 1 ensures r[1..][j] == CutAt(q[1..], i - 1)[j] {
      assert r[j + 1] == q[if j + 1 < i then j + 1 else j + 2];
    }
    assert r == [r[0]] + r[1..] && r[1..] == CutAt(q[1..], i - 1);
  }

  lemma {:induction false} HolderAt(s: Heap, q: seq<Ptr>, o: Ptr)
    requires Domains(s) && forall h :: h in q ==> h in s.live
    ensures o in Holders(s, q) <==> exists h :: h in q && h in s.live && s.up[h] == o
  {
    if q != [] {
      var g := q[0];
      assert g in q;
      HolderAt(s, q[1..], o);
      if h :| h in q && h in s.live && s.up[h] == o { assert h == g || h in q[1..]; }
    }
  }

  /** Dropping a handle takes its holder once from the owners of its target. */
  lemma DropOwners(s: Heap, h: Ptr, x: Ptr)
    requires Wf(s) && IsHandle(s, h) && x in s.live && x != h
    ensures Wf(DropHandle(s, h)) && x in DropHandle(s, h).live
    ensures x == s.target[h] ==> Owners(s, x) == Owners(DropHandle(s, h), x) + multiset{s.up[h]}
    ensures x != s.target[h] ==> Owners(DropHandle(s, h), x) == Owners(s, x)
  {
    var u := DropHandle(s, h);
    DropHandleIs(s, h);
    assert x in u.live;
    forall g | g in u.refs[x] ensures g in s.live && g in u.live && s.up[g] == u.up[g] {
      assert u.target[g] == x && g in u.live;
    }
    HoldersFrame(s, u, u.refs[x]);
    if x == s.target[h] { HoldersCut(s, s.refs[x], IndexOf(s.refs[x], h)); }
  }

  // ---------- finding a reference ----------

  /** The first handle of q that is held by context, from position i on. */
  ghost function FirstHeld(s: Heap, q: seq<Ptr>, context: Ptr): Ptr
    requires Domains(s)
  {
    if q == [] then NULL
    else var h := q[0]; if h in s.live && s.up[h] == context then h else FirstHeld(s, q[1..], context)
  }

  /** Nobody holds one of the first i handles of q for context. */
  ghost predicate NoneBefore(s: Heap, q: seq<Ptr>, context: Ptr, i: nat)
    requires Domains(s) && i <= |q|
  {
    forall j {:trigger q[j]} :: 0 <= j < i ==> var k := q[j]; k in s.live && s.up[k] != context
  }

  lemma {:induction false} FirstHeldFirst(s: Heap, q: seq<Ptr>, context: Ptr) returns (i: nat)
    requires Domains(s) && NULL !in s.live && forall j :: 0 <= j < |q| ==> q[j] in s.live
    ensures i <= |q| && NoneBefore(s, q, context, i)
    ensures var h := FirstHeld(s, q, context);
            if i == |q| then h == NULL else h == q[i] && h in s.live && s.up[h] == context
  {
    i := 0;
    if q != [] && var h := q[0]; h in s.live && s.up[h] != context {
      var k := FirstHeldFirst(s, q[1..], context);
      i := k + 1;
      forall j | 0 <= j < i ensures var k := q[j]; k in s.live && s.up[k] != context {
        if j > 0 { assert q[j] == q[1..][j - 1]; }
      }
    }
  }

  lemma {:induction false} FirstHeldIs(s: Heap, q: seq<Ptr>, context: Ptr)
    requires Domains(s) && NULL !in s.live && forall h :: h in q ==> h in s.live
    ensures var h := FirstHeld(s, q, context);
            && (h != NULL ==> h in q && s.up[h] == context)
            && (h != NULL <==> context in Holders(s, q))
  {
    if q != [] { var g := q[0]; assert g in q; FirstHeldIs(s, q[1..], context); }
  }

  /** The loop of talloc_unreference. */
  method FindReference(m: Memory, context: Ptr, ptr: Ptr) returns (h: Ptr)
    requires m.Linked() && AtRest(m.heap) && ptr in m.heap.live
    ensures h == FirstHeld(m.heap, m.heap.refs[ptr], context)
  {
    ghost var q := m.heap.refs[ptr];
    ghost var i := 0;
    h := NewestRef(m, ptr);
    while h != NULL
      invariant 0 <= i <= |q| && h == At(q, i)
      invariant FirstHeld(m.heap, q, context) == FirstHeld(m.heap, q[i..], context)
      decreases |q| - i
    {
      RefRowFacts(m.heap, ptr, i);
      assert m.heap.place[h] == InList;
      var p := ParentChunk(m, h);
      if p == context {
        return;
      }
      h := NextRef(m, h, ptr, i);
      i := i + 1;
    }
    if i < |q| { RefRowFacts(m.heap, ptr, i); }
  }

  method NextRef(m: Memory, h: Ptr, ghost t: Ptr, ghost i: nat) returns (n: Ptr)
    requires m.Linked() && t in m.heap.live && i < |m.heap.refs[t]| && m.heap.refs[t][i] == h
    ensures n == At(m.heap.refs[t], i + 1)
  {
    assert Look(0);
    RefRowFacts(m.heap, t, i);
    ghost var j := RefNeighbours(m.f, m.heap, h);
    n := m.f.refNext[h];
  }

  // ---------- talloc_unlink ----------

  /** talloc_unreference. */
  method Unreference(m: Memory, context: Ptr, ptr: Ptr) returns (res: int)
    requires m.Linked() && AtRest(m.heap) && ptr in m.heap.live
    modifies m
    ensures m.Linked()
    ensures var s := old(m.heap);
            var h := FirstHeld(s, s.refs[ptr], context);
            if h == NULL then res == -1 && m.heap == s else res == 0 && IsHandle(s, h) && m.heap == DropHandle(s, h)
  {
    ghost var s := m.heap;
    var h := FindReference(m, context, ptr);
    forall g | g in s.refs[ptr] ensures IsHandle(s, g) {
      assert s.target[g] == ptr;
    }
    FirstHeldIs(s, s.refs[ptr], context);
    if h == NULL {
      return -1;
    }
    RestSettled(s);
    res := Free(m, h, x => 0, {}, {h});
    DropResult(s, m.heap, h, x => 0, {}, res);
  }

  lemma RestSettled(s: Heap)
    requires AtRest(s)
    ensures Settled(s)
  {
    forall c | c in s.live ensures s.place[c] == InList && !s.loop[c] {
    }
  }

  /** What talloc_unlink(context, ptr) answers and leaves. */
  ghost predicate UnlinkSpec(s: Heap, t: Heap, context: Ptr, c: Ptr, res: int)
    requires Wf(s) && Wf(t) && c in s.live
  {
    var h := FirstHeld(s, s.refs[c], context);
    if h != NULL then
      res == 0 && IsHandle(s, h) && t == DropHandle(s, h)
    else if s.up[c] != context then
      res == -1 && t == s
    else if s.refs[c] == [] then
      if Refusing(s, c) then res == -1 && t == s else res == 0 && FreedExactly(s, t, c)
    else
      var g := s.refs[c][0];
      && res == 0 && IsHandle(s, g) && c in DropHandle(s, g).live && Wf(DropHandle(s, g))
      && (s.up[g] == NULL || s.up[g] in DropHandle(s, g).live)
      && t == Stolen(DropHandle(s, g), c, s.up[g])
  }

  /** g is the newest of the handles of c that context holds. */
  ghost predicate NewestHeld(s: Heap, c: Ptr, context: Ptr, g: Ptr)
    requires Domains(s) && c in s.live
  {
    exists i {:trigger s.refs[c][i]} :: 0 <= i < |s.refs[c]| && s.refs[c][i] == g && g in s.live && s.up[g] == context
      && NoneBefore(s, s.refs[c], context, i)
  }

  ghost predicate HoldsNone(s: Heap, c: Ptr, context: Ptr)
    requires Domains(s) && c in s.live
  {
    forall h {:trigger h in s.refs[c]} :: h in s.refs[c] ==> h in s.live && s.up[h] != context
  }

  /** What talloc_unlink(context, c) changes: the newest handle goes that context holds; if
      there is none and context is the parent, the holder of the newest reference takes its
      place; and if there is no reference either the chunk is freed, unless it refuses. */
  ghost predicate Unlinks(s: Heap, t: Heap, context: Ptr, c: Ptr, res: int)
    requires Wf(s) && Wf(t) && c in s.live
  {
    && (forall g :: NewestHeld(s, c, context, g) ==> res == 0 && HandleGone(s, t, g))
    && (HoldsNone(s, c, context) ==>
          if s.up[c] != context then res == -1 && t == s
          else if s.refs[c] != [] then res == 0 && Promotes(s, t, c, s.refs[c][0])
          else if Refusing(s, c) then res == -1 && t == s
          else res == 0 && c !in t.live && FreedExactly(s, t, c))
    && (HoldsNone(s, c, context) || exists g :: NewestHeld(s, c, context, g))
  }

  /** The left neighbour matters only where the chunk is freed because it loses its last owner. */
  ghost predicate UnlinkOk(s: Heap, context: Ptr, c: Ptr)
    requires Wf(s) && c in s.live
  {
    s.refs[c] == [] && s.up[c] == context ==> LeftOk(s, c)
  }

  method Unlink(m: Memory, context: Ptr, ptr: Ptr) returns (res: int)
    requires m.Linked() && Good(m.heap)
    requires ptr != NULL ==> ptr in m.heap.live && !IsHandle(m.heap, ptr) && UnlinkOk(m.heap, context, ptr)
    modifies m
    ensures m.Linked() && Good(m.heap)
    ensures if ptr == NULL then res == -1 && m.heap == old(m.heap)
            else UnlinkSpec(old(m.heap), m.heap, context, ptr, res) && Unlinks(old(m.heap), m.heap, context, ptr, res)
  {
    if ptr == NULL {
      return -1;
    }
    ghost var s := m.heap;
    ghost var r: Ptr -> nat :| OwnersRanked(s, r, NULL);
    var rc := Unreference(m, context, ptr);
    if rc == 0 {
      DropGood(s, FirstHeld(s, s.refs[ptr], context));
      UnlinkFields(s, m.heap, context, ptr, 0);
      return 0;
    }
    UnlinkFails(s, context, ptr);
    assert s.place[ptr] == InList;
    var p := ParentChunk(m, ptr);
    if p != context {
      return -1;
    }
    var refs := NewestRef(m, ptr);
    if refs == NULL {
      RankedBut(s, r, ptr);
      res := FreePtr(m, ptr);
      UnlinkFields(s, m.heap, context, ptr, res);
      return;
    }
    RefRowFacts(s, ptr, 0);
    assert s.place[refs] == InList && Anchored(s, refs);
    var newParent := ParentChunk(m, refs);
    rc := Unreference(m, newParent, ptr);
    PromoteUnlinked(s, ptr, r);
    DropGood(s, refs);
    ghost var u := m.heap;
    PromoteRanked(s, ptr, r);
    Steal(m, newParent, ptr);
    StolenRanked(u, ptr, newParent, r);
    StolenRest(u, ptr, newParent);
    UnlinkFields(s, m.heap, context, ptr, 0);
    return 0;
  }

  lemma UnlinkFails(s: Heap, context: Ptr, c: Ptr)
    requires Good(s) && c in s.live && s.target[c] == NULL && FirstHeld(s, s.refs[c], context) == NULL
    ensures s.up[c] != context ==> Unlinks(s, s, context, c, -1)
  {
    if s.up[c] != context { UnlinkFields(s, s, context, c, -1); }
  }

  lemma RankedBut(s: Heap, r: Ptr -> nat, c: Ptr)
    requires Wf(s) && OwnersRanked(s, r, NULL)
    ensures OwnersRanked(s, r, c)
  {
  }

  /** The newest holder can adopt the chunk whose parent is unlinked. */
  lemma PromoteUnlinked(s: Heap, c: Ptr, r: Ptr -> nat)
    requires AtRest(s) && Held(s) && OwnersRanked(s, r, NULL) && c in s.live && s.target[c] == NULL && s.refs[c] != []
    ensures var g := s.refs[c][0];
            && IsHandle(s, g) && s.target[g] == c && FirstHeld(s, s.refs[c], s.up[g]) == g
            && var u := DropHandle(s, g);
               && Wf(u) && c in u.live && u.place[c] == InList && s.up[g] in u.live && !IsHandle(u, s.up[g])
  {
    RestSound(s, NULL, r);
    assert s.place[c] == InList;
    RefRowFacts(s, c, 0);
    PromoteReady(s, c, r);
  }

  lemma DropGood(s: Heap, h: Ptr)
    requires Good(s) && IsHandle(s, h)
    ensures Good(DropHandle(s, h))
  {
    var r: Ptr -> nat :| OwnersRanked(s, r, NULL);
    DropRanked(s, h, r);
  }

  lemma DropRanked(s: Heap, h: Ptr, r: Ptr -> nat)
    requires AtRest(s) && Held(s) && OwnersRanked(s, r, NULL) && IsHandle(s, h)
    ensures AtRest(DropHandle(s, h)) && Held(DropHandle(s, h)) && OwnersRanked(DropHandle(s, h), r, NULL)
  {
    var t := DropHandle(s, h);
    RestSound(s, NULL, r);
    DropSound(s, h, r, NULL);
    DropHandleIs(s, h);
    forall x | x in t.live ensures t.place[x] == InList && !t.loop[x] {
      assert s.place[x] == InList && !s.loop[x];
    }
  }

  /** The newest holder ranks below the chunk that it is to adopt. */
  lemma PromoteRanked(s: Heap, c: Ptr, r: Ptr -> nat)
    requires AtRest(s) && Held(s) && OwnersRanked(s, r, NULL) && c in s.live && s.target[c] == NULL && s.refs[c] != []
    ensures var g := s.refs[c][0];
            && IsHandle(s, g) && s.up[g] != NULL && r(s.up[g]) < r(c)
            && var u := DropHandle(s, g); AtRest(u) && Held(u) && OwnersRanked(u, r, NULL) && c in u.live && u.target[c] == NULL
  {
    RefRowFacts(s, c, 0);
    var g := s.refs[c][0];
    DropRanked(s, g, r);
    DropHandleIs(s, g);
  }

  /** t is s except that c has lost the owner o once. */
  ghost predicate LostOwner(s: Heap, t: Heap, c: Ptr, o: Ptr)
    requires Wf(s) && Wf(t) && c in s.live
  {
    && c in t.live && Owners(s, c) == Owners(t, c) + multiset{o}
    && forall x :: x in t.live && x != c ==> x in s.live && Owners(t, x) == Owners(s, x)
  }

  /** talloc_unlink removes one owner: it fails without effect when context is no owner, or
      when it is the only one and the chunk refuses; it frees the chunk when context is the
      only owner; and otherwise the chunk loses that owner once, nobody else loses any, and a
      parent that goes is replaced by the holder of the newest reference. */
  ghost predicate OneOwnerLeaves(s: Heap, t: Heap, context: Ptr, c: Ptr, res: int)
    requires Wf(s) && Wf(t) && c in s.live
  {
    && (context !in Owners(s, c) ==> res == -1 && t == s)
    && (Owners(s, c) == multiset{context} ==>
          if Refusing(s, c) then res == -1 && t == s else res == 0 && FreedExactly(s, t, c))
    && (context in Owners(s, c) && Owners(s, c) != multiset{context} ==>
          && res == 0 && LostOwner(s, t, c, context)
          && (context in Holders(s, s.refs[c]) ==> t.up[c] == s.up[c])
          && (context !in Holders(s, s.refs[c]) ==>
                s.refs[c] != [] && var g := s.refs[c][0]; g in s.live && t.up[c] == s.up[g]))
  }

  /** The owners change so, and the fields of the chunks as `Unlinks` says. */
  lemma UnlinkRemovesOneOwner(s: Heap, t: Heap, context: Ptr, c: Ptr, res: int, r: Ptr -> nat)
    requires AtRest(s) && Held(s) && OwnersRanked(s, r, NULL) && c in s.live && s.target[c] == NULL
    requires Wf(t) && UnlinkSpec(s, t, context, c, res)
    ensures OneOwnerLeaves(s, t, context, c, res) && Unlinks(s, t, context, c, res)
  {
    UnlinkOwners(s, t, context, c, res, r);
    UnlinkFields(s, t, context, c, res);
  }

  lemma UnlinkOwners(s: Heap, t: Heap, context: Ptr, c: Ptr, res: int, r: Ptr -> nat)
    requires AtRest(s) && Held(s) && OwnersRanked(s, r, NULL) && c in s.live && s.target[c] == NULL
    requires Wf(t) && UnlinkSpec(s, t, context, c, res)
    ensures OneOwnerLeaves(s, t, context, c, res)
  {
    var h := FirstHeld(s, s.refs[c], context);
    forall g | g in s.refs[c] ensures g in s.live && IsHandle(s, g) && s.target[g] == c {
    }
    FirstHeldIs(s, s.refs[c], context);
    if h != NULL {
      HoldersNotEmpty(s, s.refs[c]);
      UnlinkDrops(s, t, c, h);
    } else if s.up[c] == context && s.refs[c] != [] {
      HoldersNotEmpty(s, s.refs[c]);
      UnlinkPromotes(s, t, context, c, r);
    } else if s.up[c] == context {
      assert Owners(s, c) == multiset{context};
    }
  }

  lemma UnlinkDrops(s: Heap, t: Heap, c: Ptr, h: Ptr)
    requires Wf(s) && IsHandle(s, h) && s.target[h] == c && c in s.live && c != h && t == DropHandle(s, h)
    ensures Wf(t) && LostOwner(s, t, c, s.up[h]) && t.up[c] == s.up[c]
  {
    DropHandleIs(s, h);
    DropOwners(s, h, c);
    forall x | x in t.live && x != c ensures x in s.live && Owners(t, x) == Owners(s, x) {
      DropOwners(s, h, x);
    }
  }

  lemma HoldersNotEmpty(s: Heap, q: seq<Ptr>)
    requires Domains(s)
    ensures |Holders(s, q)| == |q|
  {
  }

  /** The promotion of c by the holder x of its newest reference h changes the owners of c
      only, and those by its old parent. */
  lemma PromotionOwners(s: Heap, t: Heap, c: Ptr, h: Ptr, x: Ptr, y: Ptr)
    requires Promoted(s, t, c, h, x) && s.target[c] == NULL && y in t.live
    ensures if y == c then Owners(s, y) == Owners(t, y) + multiset{s.up[c]} else Owners(t, y) == Owners(s, y)
  {
    forall k | k in t.refs[y] ensures k in s.live && k in t.live && s.up[k] == t.up[k] {
      assert t.target[k] == y && k in t.live;
    }
    HoldersFrame(s, t, t.refs[y]);
    if y == c { HoldersFirst(s, s.refs[c], h, x, t.refs[c]); }
  }

  lemma HoldersFirst(s: Heap, q: seq<Ptr>, h: Ptr, x: Ptr, r: seq<Ptr>)
    requires Domains(s) && q != [] && q[0] == h && h in s.live && s.up[h] == x && r == q[1..]
    ensures Holders(s, q) == multiset{x} + Holders(s, r)
  {
  }

  lemma UnlinkPromotes(s: Heap, t: Heap, context: Ptr, c: Ptr, r: Ptr -> nat)
    requires AtRest(s) && Held(s) && OwnersRanked(s, r, NULL) && c in s.live && s.target[c] == NULL && s.refs[c] != []
    requires Wf(t) && s.up[c] == context && UnlinkSpec(s, t, context, c, 0) && FirstHeld(s, s.refs[c], context) == NULL
    ensures LostOwner(s, t, c, context) && t.up[c] == s.up[s.refs[c][0]]
  {
    RefRowFacts(s, c, 0);
    var h := s.refs[c][0];
    assert s.place[c] == InList && s.target[h] == c && r(s.up[h]) < r(c);
    PromotedIs(s, c);
    assert Promoted(s, t, c, h, s.up[h]);
    forall x | x in t.live ensures x in s.live
        && if x == c then Owners(s, x) == Owners(t, x) + multiset{context} else Owners(t, x) == Owners(s, x) {
      PromotionOwners(s, t, c, h, s.up[h], x);
    }
  }

  lemma HeldUnique(s: Heap, c: Ptr, context: Ptr, g: Ptr, i: nat)
    requires Wf(s) && c in s.live && NewestHeld(s, c, context, g)
    requires i <= |s.refs[c]| && NoneBefore(s, s.refs[c], context, i)
    requires i < |s.refs[c]| ==> var h := s.refs[c][i]; h in s.live && s.up[h] == context
    ensures i < |s.refs[c]| && g == s.refs[c][i]
  {
    var k :| 0 <= k < |s.refs[c]| && s.refs[c][k] == g && s.up[g] == context && NoneBefore(s, s.refs[c], context, k);
  }

  lemma NoneHeld(s: Heap, c: Ptr, context: Ptr)
    requires Wf(s) && c in s.live && NoneBefore(s, s.refs[c], context, |s.refs[c]|)
    ensures HoldsNone(s, c, context)
  {
    var q := s.refs[c];
    forall h | h in q ensures h in s.live && s.up[h] != context {
      var j :| 0 <= j < |q| && q[j] == h;
    }
  }

  lemma HandlesOf(s: Heap, c: Ptr)
    requires Wf(s) && c in s.live
    ensures forall j :: 0 <= j < |s.refs[c]| ==> s.refs[c][j] in s.live && IsHandle(s, s.refs[c][j])
  {
    forall j | 0 <= j < |s.refs[c]| ensures s.refs[c][j] in s.live && IsHandle(s, s.refs[c][j]) {
      RefRowFacts(s, c, j);
    }
  }

  lemma UnlinkFields(s: Heap, t: Heap, context: Ptr, c: Ptr, res: int)
    requires Good(s) && c in s.live && s.target[c] == NULL && Wf(t) && UnlinkSpec(s, t, context, c, res)
    ensures Unlinks(s, t, context, c, res)
  {
    HandlesOf(s, c);
    var i := FirstHeldFirst(s, s.refs[c], context);
    if i < |s.refs[c]| {
      UnlinkDropsFields(s, t, context, c, res, i);
    } else {
      NoneHeld(s, c, context);
      forall g ensures !NewestHeld(s, c, context, g) {
        if NewestHeld(s, c, context, g) { HeldUnique(s, c, context, g, i); }
      }
      if s.up[c] == context && s.refs[c] != [] { UnlinkPromotesFields(s, t, context, c); }
    }
  }

  lemma UnlinkDropsFields(s: Heap, t: Heap, context: Ptr, c: Ptr, res: int, i: nat)
    requires Wf(s) && c in s.live && s.target[c] == NULL && Wf(t) && UnlinkSpec(s, t, context, c, res)
    requires i < |s.refs[c]| && IsHandle(s, s.refs[c][i]) && FirstHeld(s, s.refs[c], context) == s.refs[c][i]
    requires NoneBefore(s, s.refs[c], context, i) && s.up[s.refs[c][i]] == context
    ensures Unlinks(s, t, context, c, res)
  {
    var g := s.refs[c][i];
    assert g in s.refs[c] && g != NULL && NewestHeld(s, c, context, g);
    forall k | NewestHeld(s, c, context, k) ensures k == g { HeldUnique(s, c, context, k, i); }
    DropHandleGone(s, g);
  }

  lemma UnlinkPromotesFields(s: Heap, t: Heap, context: Ptr, c: Ptr)
    requires Good(s) && c in s.live && s.target[c] == NULL && s.refs[c] != [] && Wf(t)
    requires s.up[c] == context && UnlinkSpec(s, t, context, c, 0) && FirstHeld(s, s.refs[c], context) == NULL
    requires s.refs[c][0] in s.live && s.up[s.refs[c][0]] != context
    ensures Promotes(s, t, c, s.refs[c][0])
  {
    var g := s.refs[c][0];
    var r: Ptr -> nat :| OwnersRanked(s, r, NULL);
    PromoteUnlinked(s, c, r);
    DropHandleGone(s, g);
    StolenMoves(DropHandle(s, g), c, s.up[g]);
    PromotesBoth(s, DropHandle(s, g), t, c, g);
  }
}
