/** talloc_total_size and talloc_total_blocks of lib/talloc/talloc.c: what they count, and
    how talloc_steal moves it from one tree to another. */
module TallocSize {
  import opened Hiding
  import opened TallocHeap
  import opened TallocLists
  import opened TallocLinks
  import opened TallocSteps
  import opened TallocAlloc
  import opened TallocWalks
  import opened TallocSweepSteps
  import opened TallocFreeTheorems
  import opened TallocForest

  /** The values of a size_t of 64 bits. */
  const SIZE_T: nat := 0x1_0000_0000_0000_0000

  // ---------- sums over sets of chunks ----------

  lemma NonEmpty(S: set<Ptr>)
    ensures S == {} || exists x :: x in S
  {
    if !(exists x :: x in S) { assert S == {}; }
  }

  ghost function Sum(w: map<Ptr, nat>, S: set<Ptr>): nat
    requires forall x :: x in S ==> x in w
    decreases |S|
  {
    if S == {} then 0 else NonEmpty(S); var x :| x in S; w[x] + Sum(w, S - {x})
  }

  lemma {:induction false} SumWithout(w: map<Ptr, nat>, S: set<Ptr>, x: Ptr)
    requires (forall y :: y in S ==> y in w) && x in S
    ensures Sum(w, S) == w[x] + Sum(w, S - {x})
    decreases |S|
  {
    var y :| y in S && Sum(w, S) == w[y] + Sum(w, S - {y});
    if y != x {
      SumWithout(w, S - {y}, x);
      SumWithout(w, S - {x}, y);
      assert S - {y} - {x} == S - {x} - {y};
    }
  }

  lemma {:induction false} SumUnion(w: map<Ptr, nat>, S: set<Ptr>, T: set<Ptr>)
    requires (forall y :: y in S || y in T ==> y in w) && S !! T
    ensures Sum(w, S + T) == Sum(w, S) + Sum(w, T)
    decreases |S|
  {
    if S == {} {
      assert S + T == T;
    } else {
      NonEmpty(S);
      var x :| x in S;
      SumWithout(w, S + T, x);
      SumWithout(w, S, x);
      assert S + T - {x} == (S - {x}) + T;
      SumUnion(w, S - {x}, T);
    }
  }

  // ---------- subtrees ----------

  /** The sum of the sizes of c and of everything below it. */
  ghost function Total(s: Heap, c: Ptr): nat
    requires Domains(s)
  {
    Sum(s.size, Below(s, c))
  }

  /** No chunk is above two siblings at once. */
  lemma SiblingsApart(s: Heap, r: Ptr -> nat, a: Ptr, b: Ptr, x: Ptr)
    requires AtRest(s) && Climbs(s, r) && a in s.live && b in s.live && x in s.live
    requires s.up[a] == s.up[b] && s.up[a] != NULL && Contains(s, a, x) && Contains(s, b, x)
    ensures a == b
  {
    var n: nat :| AboveBy(s, x, n) == a;
    var k: nat :| AboveBy(s, x, k) == b;
    if n <= k { OneLine(s, r, a, b, x, n, k); } else { OneLine(s, r, b, a, x, k, n); }
  }

  lemma {:induction false} OneLine(s: Heap, r: Ptr -> nat, a: Ptr, b: Ptr, x: Ptr, n: nat, k: nat)
    requires AtRest(s) && Climbs(s, r) && a in s.live && b in s.live && x in s.live
    requires s.up[a] == s.up[b] && s.up[a] != NULL && n <= k && AboveBy(s, x, n) == a && AboveBy(s, x, k) == b
    ensures a == b
    decreases n
  {
    if n > 0 {
      var o := Above(s, x);
      assert Anchored(s, x) && AboveBy(s, o, n - 1) == a && AboveBy(s, o, k - 1) == b;
      OneLine(s, r, a, b, o, n - 1, k - 1);
    } else if k > 0 {
      assert Anchored(s, a) && s.place[a] == InList && Above(s, a) == s.up[a];
      assert Anchored(s, b) && s.place[b] == InList && Above(s, b) == s.up[b];
      InsideRank(s, r, b, s.up[a], k - 1);
    }
  }

  ghost predicate BelowChild(s: Heap, c: Ptr, n: nat, x: Ptr)
    requires Wf(s) && c in s.live && n <= |s.kids[c]|
  {
    exists i {:trigger s.kids[c][i]} :: 0 <= i < n && Contains(s, s.kids[c][i], x)
  }

  /** c, and what lies below one of its first n children. */
  ghost function Visited(s: Heap, c: Ptr, n: nat): set<Ptr>
    requires Wf(s) && c in s.live && n <= |s.kids[c]|
  {
    set x | x in s.live && (x == c || BelowChild(s, c, n, x))
  }

  ghost function SizeVisited(s: Heap, c: Ptr, n: nat): nat
    requires Wf(s) && c in s.live && n <= |s.kids[c]|
  {
    Sum(s.size, Visited(s, c, n))
  }

  lemma VisitedStep(s: Heap, c: Ptr, n: nat)
    requires Wf(s) && c in s.live && n < |s.kids[c]|
    ensures Visited(s, c, n + 1) == Visited(s, c, n) + Below(s, s.kids[c][n])
  {
    forall x | x in s.live ensures BelowChild(s, c, n + 1, x)
        <==> BelowChild(s, c, n, x) || Contains(s, s.kids[c][n], x) {
      if Contains(s, s.kids[c][n], x) { assert s.kids[c][n] == s.kids[c][n]; }
    }
  }

  /** The children that have not been visited share nothing with those that have. */
  lemma VisitedApart(s: Heap, r: Ptr -> nat, c: Ptr, n: nat)
    requires AtRest(s) && Climbs(s, r) && c in s.live && n < |s.kids[c]|
    ensures Visited(s, c, n) !! Below(s, s.kids[c][n])
  {
    RowFacts(s, c, n);
    var k := s.kids[c][n];
    forall x | x in Below(s, k) ensures x !in Visited(s, c, n) {
      assert Anchored(s, k) && s.place[k] == InList && Above(s, k) == c;
      RankInside(s, r, k, x);
      if i :| 0 <= i < n && Contains(s, s.kids[c][i], x) {
        RowFacts(s, c, i);
        SiblingsApart(s, r, s.kids[c][i], k, x);
      }
    }
  }

  /** A chunk below c is c or lies below one of its children. */
  lemma {:induction false} BelowSomeChild(s: Heap, c: Ptr, x: Ptr, n: nat)
    requires AtRest(s) && c in s.live && x in s.live && AboveBy(s, x, n) == c && x != c
    ensures exists i {:trigger s.kids[c][i]} :: 0 <= i < |s.kids[c]| && Contains(s, s.kids[c][i], x)
    decreases n
  {
    var o := Above(s, x);
    assert s.place[x] == InList && AboveBy(s, o, n - 1) == c;
    if o == c {
      assert x in s.kids[c];
      assert AboveBy(s, x, 0) == x;
      assert Contains(s, s.kids[c][IndexOf(s.kids[c], x)], x);
    } else {
      assert o in s.live;
      BelowSomeChild(s, c, o, n - 1);
      var i :| 0 <= i < |s.kids[c]| && Contains(s, s.kids[c][i], o);
      RowFacts(s, c, i);
      AboveContains(s, s.kids[c][i], x);
    }
  }

  lemma AboveContains(s: Heap, a: Ptr, x: Ptr)
    requires Wf(s) && x in s.live && Contains(s, a, Above(s, x))
    ensures Contains(s, a, x)
  {
    var n: nat :| AboveBy(s, Above(s, x), n) == a;
    assert AboveBy(s, x, n + 1) == a;
  }

  lemma {:induction false} ContainsUp(s: Heap, a: Ptr, b: Ptr, x: Ptr, n: nat)
    requires Wf(s) && x in s.live && AboveBy(s, x, n) == a && Contains(s, b, a)
    ensures Contains(s, b, x)
    decreases n
  {
    if n > 0 {
      if Above(s, x) in s.live { ContainsUp(s, a, b, Above(s, x), n - 1); }
      AboveContains(s, b, x);
    }
  }

  /** When all children have been visited the whole subtree has been. */
  lemma VisitedAll(s: Heap, c: Ptr)
    requires AtRest(s) && c in s.live
    ensures Visited(s, c, |s.kids[c]|) == Below(s, c)
  {
    forall x ensures x in Visited(s, c, |s.kids[c]|) <==> x in Below(s, c) {
      assert AboveBy(s, c, 0) == c;
      if x in s.live && x != c {
        if Contains(s, c, x) {
          var n: nat :| AboveBy(s, x, n) == c;
          BelowSomeChild(s, c, x, n);
        }
        if i :| 0 <= i < |s.kids[c]| && Contains(s, s.kids[c][i], x) {
          RowFacts(s, c, i);
          var k := s.kids[c][i];
          assert s.place[k] == InList && AboveBy(s, k, 1) == AboveBy(s, c, 0);
          var n: nat :| AboveBy(s, x, n) == k;
          ContainsUp(s, k, c, x, n);
        }
      }
    }
  }

  // ---------- the two counting functions ----------

  /** What the next child adds. */
  lemma VisitNext(s: Heap, r: Ptr -> nat, c: Ptr, n: nat)
    requires AtRest(s) && Climbs(s, r) && c in s.live && n < |s.kids[c]|
    ensures Visited(s, c, n) <= s.live && Visited(s, c, n + 1) <= s.live
    ensures Sum(s.size, Visited(s, c, n + 1)) == Sum(s.size, Visited(s, c, n)) + Total(s, s.kids[c][n])
    ensures |Visited(s, c, n + 1)| == |Visited(s, c, n)| + |Below(s, s.kids[c][n])|
    ensures var k := s.kids[c][n]; k in s.live && Below(s, k) < Below(s, c) && c !in Below(s, k)
  {
    VisitedStep(s, c, n);
    VisitedApart(s, r, c, n);
    SumUnion(s.size, Visited(s, c, n), Below(s, s.kids[c][n]));
    RowFacts(s, c, n);
    VisitedAll(s, c);
    assert Below(s, s.kids[c][n]) <= Below(s, c) by {
      forall x | x in Below(s, s.kids[c][n]) ensures x in Below(s, c) {
        assert BelowChild(s, c, |s.kids[c]|, x);
        assert x in Visited(s, c, |s.kids[c]|);
      }
    }
    assert AboveBy(s, c, 0) == c;
    assert c in Below(s, c);
  }

  /** f represents s, which is at rest and ranked by r, but for loop flags, none of which is
      set below c.  As with `Memory.Linked`, the details come with `Look`. */
  ghost predicate Countable(f: Fields, s: Heap, r: Ptr -> nat, c: Ptr) {
    && Wf(s) && c in s.live
    && forall k: int {:trigger Look(k)} :: Look(k) ==>
         && AtRest(s) && Climbs(s, r) && Represents(f.(loop := s.loop), s) && Over(s.live, f.loop)
         && forall x {:trigger f.loop[x]} :: x in Below(s, c) ==> !f.loop[x]
  }

  /** Before the children of c are visited. */
  lemma CountableStart(f: Fields, s: Heap, r: Ptr -> nat, c: Ptr)
    requires Countable(f, s, r, c)
    ensures c != NULL && c in f.loop && !f.loop[c] && c in f.size && c in f.child
    ensures f.child[c] == At(s.kids[c], 0) && f.size[c] == s.size[c]
    ensures |Visited(s, c, 0)| == 1 && SizeVisited(s, c, 0) == s.size[c]
    ensures |Visited(s, c, |s.kids[c]|)| == |Below(s, c)| && SizeVisited(s, c, |s.kids[c]|) == Total(s, c)
  {
    assert Look(0);
    assert AboveBy(s, c, 0) == c;
    assert c in Below(s, c);
    assert f.loop[c] == f.loop[c];
    VisitedAll(s, c);
    assert Visited(s, c, 0) == {c};
    SumWithout(s.size, {c}, c);
    assert AllFirst(f.child, s.kids);
  }

  /** The n-th child of c, which is about to be visited. */
  lemma CountableChild(f: Fields, s: Heap, r: Ptr -> nat, c: Ptr, n: nat)
    requires Countable(f, s, r, c) && n < |s.kids[c]|
    ensures var k := s.kids[c][n];
            && k in s.live && k != NULL && k != c && c in f.loop && k in f.loop && !f.loop[k]
            && Below(s, k) < Below(s, c)
            && k in f.next && f.next[k] == At(s.kids[c], n + 1)
            && Countable(f.(loop := f.loop[c := true]), s, r, k)
            && SizeVisited(s, c, n + 1) == SizeVisited(s, c, n) + Total(s, k)
            && |Visited(s, c, n + 1)| == |Visited(s, c, n)| + |Below(s, k)|
  {
    assert Look(0);
    RowFacts(s, c, n);
    VisitNext(s, r, c, n);
    CountableStart(f.(loop := f.loop[c := true]), s, r, s.kids[c][n]);
    assert Forward(f.next, s.kids[c]);
    assert f.next[s.kids[c][n]] == At(s.kids[c], n + 1);
  }

  /** What a size_t holds of n.  (As a recursion the verifier is quicker with it than with
      the remainder that it is.) */
  ghost function Low(n: nat): nat {
    if n < SIZE_T then n else Low(n - SIZE_T)
  }

  lemma {:induction false} LowIs(n: nat)
    ensures Low(n) == n % SIZE_T
  {
    if n >= SIZE_T { LowIs(n - SIZE_T); }
  }

  method AsSizeT(n: nat) returns (low: nat)
    ensures low == Low(n)
  {
    LowIs(n);
    low := n % SIZE_T;
  }

  /** Low depends only on what is left after taking away a multiple of the modulus. */
  lemma {:induction false} LowPlus(n: nat, k: nat)
    ensures Low(n + k) == Low(Low(n) + k) && Low(n) < SIZE_T
  {
    if n >= SIZE_T { LowPlus(n - SIZE_T, k); }
  }

  /** An addition of two size_t values, which are below the modulus. */
  method Add(a: nat, b: nat, ghost n: nat, ghost k: nat) returns (sum: nat, ghost exact: nat)
    requires a == Low(n) && b == Low(k)
    ensures sum == Low(exact) && exact == n + k
  {
    LowPlus(n, k);
    LowPlus(k, a);
    exact := n + k;
    sum := if a + b < SIZE_T then a + b else a + b - SIZE_T;
  }

  /** A flag that was clear, has been set and is cleared. */
  lemma FlagRestored(f: Fields, c: Ptr)
    requires c in f.loop && !f.loop[c]
    ensures f.(loop := f.loop[c := true][c := false]) == f
  {
    assert f.loop[c := true][c := false] == f.loop;
  }

  /** talloc_total_size, on the fields of a heap that is s apart from the flags of the calls under way. */
  method CountSize(f: Fields, ptr: Ptr, ghost s: Heap, ghost r: Ptr -> nat) returns (total: nat, f': Fields)
    requires Wf(s) && (ptr != NULL ==> ptr in f.loop && (!f.loop[ptr] ==> Countable(f, s, r, ptr)))
    ensures total == if ptr == NULL || f.loop[ptr] then 0 else Low(Total(s, ptr))
    ensures f' == f
    decreases if ptr == NULL then {} else Below(s, ptr)
  {
    f' := f;
    if ptr == NULL {
      return 0, f;
    }
    if f'.loop[ptr] {
      return 0, f;
    }
    CountableStart(f, s, r, ptr);
    FlagRestored(f, ptr);
    f' := f'.(loop := f'.loop[ptr := true]);
    ghost var flagged, kids := f', s.kids[ptr];
    total := AsSizeT(f'.size[ptr]);
    var c := f'.child[ptr];
    ghost var i, exact: nat := 0, f.size[ptr];
    while c != NULL
      invariant f' == flagged && 0 <= i <= |kids| && c == At(kids, i)
      invariant total == Low(exact) && exact == SizeVisited(s, ptr, i)
      decreases |kids| - i
    {
      CountableChild(f, s, r, ptr, i);
      var n;
      n, f' := CountSize(f', c, s, r);
      total, exact := Add(total, n, exact, Total(s, c));
      c := f'.next[c];
      i := i + 1;
    }
    if i < |kids| { CountableChild(f, s, r, ptr, i); }
    f' := f'.(loop := f'.loop[ptr := false]);
  }

  /** talloc_total_blocks, on the fields of a heap that is s apart from the flags of the calls under way. */
  method CountBlocks(f: Fields, ptr: Ptr, ghost s: Heap, ghost r: Ptr -> nat) returns (total: nat, f': Fields)
    requires Wf(s) && ptr in f.loop && (!f.loop[ptr] ==> Countable(f, s, r, ptr))
    ensures total == if f.loop[ptr] then 0 else Low(|Below(s, ptr)|)
    ensures f' == f
    decreases Below(s, ptr)
  {
    f' := f;
    if f'.loop[ptr] {
      return 0, f;
    }
    CountableStart(f, s, r, ptr);
    FlagRestored(f, ptr);
    f' := f'.(loop := f'.loop[ptr := true]);
    ghost var flagged, kids := f', s.kids[ptr];
    total := 1;
    var c := f'.child[ptr];
    ghost var i, exact: nat := 0, 1;
    while c != NULL
      invariant f' == flagged && 0 <= i <= |kids| && c == At(kids, i)
      invariant total == Low(exact) && exact == |Visited(s, ptr, i)|
      decreases |kids| - i
    {
      CountableChild(f, s, r, ptr, i);
      var n;
      n, f' := CountBlocks(f', c, s, r);
      total, exact := Add(total, n, exact, |Below(s, c)|);
      c := f'.next[c];
      i := i + 1;
    }
    if i < |kids| { CountableChild(f, s, r, ptr, i); }
    f' := f'.(loop := f'.loop[ptr := false]);
  }

  /** talloc_total_size of a heap at rest: the sum of the sizes of the chunk and of all that
      lies below it, as a size_t; all flags are as they were. */
  method TotalSize(m: Memory, ptr: Ptr) returns (total: nat)
    requires m.Linked() && Forest(m.heap) && (ptr != NULL ==> ptr in m.heap.live)
    modifies m
    ensures total == if ptr == NULL then 0 else Total(old(m.heap), ptr) % 0x1_0000_0000_0000_0000
    ensures m.f == old(m.f) && m.heap == old(m.heap) && m.Linked()
  {
    ghost var r: Ptr -> nat :| Climbs(m.heap, r);
    if ptr != NULL {
      CountableAtRest(m.f, m.heap, r, ptr) by { assert Look(0); }
      LowIs(Total(m.heap, ptr));
    }
    var f;
    total, f := CountSize(m.f, ptr, m.heap, r);
    m.f := f;
  }

  /** talloc_total_blocks of a heap at rest: the number of chunks at and below ptr. */
  method TotalBlocks(m: Memory, ptr: Ptr) returns (total: nat)
    requires m.Linked() && Forest(m.heap) && ptr in m.heap.live
    modifies m
    ensures total == |Below(old(m.heap), ptr)| % 0x1_0000_0000_0000_0000
    ensures m.f == old(m.f) && m.heap == old(m.heap) && m.Linked()
  {
    ghost var r: Ptr -> nat :| Climbs(m.heap, r);
    CountableAtRest(m.f, m.heap, r, ptr) by { assert Look(0); }
    LowIs(|Below(m.heap, ptr)|);
    var f;
    total, f := CountBlocks(m.f, ptr, m.heap, r);
    m.f := f;
  }

  /** At rest, any chunk can be counted. */
  lemma CountableAtRest(f: Fields, s: Heap, r: Ptr -> nat, c: Ptr)
    requires Represents(f, s) && AtRest(s) && Climbs(s, r) && c in s.live
    ensures Countable(f, s, r, c) && c in f.loop && !f.loop[c]
  {
    assert forall x :: x in s.live ==> !s.loop[x];
    assert f.(loop := s.loop) == f;
  }

  // ---------- what __talloc adds ----------

  lemma {:induction false} SumFrame(w: map<Ptr, nat>, v: map<Ptr, nat>, S: set<Ptr>)
    requires forall x :: x in S ==> x in w && x in v && w[x] == v[x]
    ensures Sum(w, S) == Sum(v, S)
    decreases |S|
  {
    if S != {} {
      NonEmpty(S);
      var x :| x in S;
      SumWithout(w, S, x);
      SumWithout(v, S, x);
      SumFrame(w, v, S - {x});
    }
  }

  /** The chunks above an old one are what they were. */
  lemma {:induction false} NewAbove(s: Heap, t: Heap, c: Ptr, p: Ptr, size: nat, x: Ptr, n: nat)
    requires AtRest(s) && Wf(t) && NewChunk(s, t, c, p, size) && (x == NULL || x in s.live)
    ensures AboveBy(t, x, n) == AboveBy(s, x, n) && (AboveBy(s, x, n) == NULL || AboveBy(s, x, n) in s.live)
    decreases n
  {
    if n > 0 && x in s.live {
      assert s.place[x] == InList && x in t.live;
      NewAbove(s, t, c, p, size, s.up[x], n - 1);
    }
  }

  lemma NewContains(s: Heap, t: Heap, c: Ptr, p: Ptr, size: nat, a: Ptr, x: Ptr)
    requires AtRest(s) && Wf(t) && c != NULL && NewChunk(s, t, c, p, size) && a in s.live && x in s.live
    ensures (Contains(t, a, x) <==> Contains(s, a, x)) && !Contains(t, c, x)
  {
    forall n: nat ensures AboveBy(t, x, n) == AboveBy(s, x, n) && AboveBy(t, x, n) != c {
      NewAbove(s, t, c, p, size, x, n);
    }
  }

  lemma NewInside(s: Heap, t: Heap, c: Ptr, p: Ptr, size: nat, a: Ptr)
    requires AtRest(s) && Wf(t) && c != NULL && NewChunk(s, t, c, p, size) && (p == NULL || p in s.live) && a in s.live
    ensures (Contains(t, a, c) <==> p != NULL && Contains(s, a, p)) && Contains(t, c, c)
  {
    assert c in t.live && Above(t, c) == p && AboveBy(t, c, 0) == c;
    ContainsStep(t, a, c);
    if p != NULL { NewContains(s, t, c, p, size, a, p); } else { NothingAboveNull(t, a); }
  }

  /** A new chunk adds its size, and one block, to the totals of exactly the chunks at and
      above its parent, and its own total is its size. */
  lemma NewChunkTotals(s: Heap, t: Heap, c: Ptr, p: Ptr, size: nat, a: Ptr)
    requires AtRest(s) && Wf(t) && c != NULL && (p == NULL || p in s.live) && NewChunk(s, t, c, p, size) && a in s.live
    ensures Total(t, c) == size && |Below(t, c)| == 1
    ensures if p != NULL && Contains(s, a, p) then Total(t, a) == Total(s, a) + size && |Below(t, a)| == |Below(s, a)| + 1
            else Total(t, a) == Total(s, a) && |Below(t, a)| == |Below(s, a)|
  {
    forall x | x in s.live ensures (Contains(t, a, x) <==> Contains(s, a, x)) && !Contains(t, c, x) {
      NewContains(s, t, c, p, size, a, x);
    }
    NewInside(s, t, c, p, size, a);
    assert Below(t, c) == {c};
    SumWithout(t.size, {c}, c);
    SumFrame(s.size, t.size, Below(s, a));
    if p != NULL && Contains(s, a, p) {
      assert Below(t, a) == Below(s, a) + {c};
      SumUnion(t.size, Below(s, a), {c});
    } else {
      assert Below(t, a) == Below(s, a);
    }
  }

  // ---------- what talloc_steal moves ----------

  /** c can be stolen by p in the forest s. */
  ghost predicate CanSteal(s: Heap, c: Ptr, p: Ptr) {
    AtRest(s) && c in s.live && (p == NULL || (p in s.live && !IsHandle(s, p) && !Contains(s, c, p)))
  }

  /** After a steal a is above x if it was and c was not between them, or if x has moved with
      c and a is above the new parent. */
  lemma {:induction false} StolenContains(s: Heap, r: Ptr -> nat, c: Ptr, p: Ptr, a: Ptr, x: Ptr)
    requires CanSteal(s, c, p) && Climbs(s, r) && a in s.live && x in s.live
    ensures Wf(Stolen(s, c, p))
    ensures Contains(Stolen(s, c, p), a, x) <==>
              || (Contains(s, a, x) && (Contains(s, c, x) ==> Contains(s, c, a)))
              || (Contains(s, c, x) && p != NULL && Contains(s, a, p))
    decreases r(x)
  {
    var t := Stolen(s, c, p);
    assert AboveBy(s, c, 0) == c && AboveBy(s, x, 0) == x && AboveBy(t, x, 0) == x;
    assert s.place[c] == InList;
    StolenIs(s, c, p);
    assert Anchored(s, x) && s.place[x] == InList && t.place[x] == InList && Above(s, x) == s.up[x]
        && Above(t, x) == t.up[x];
    NothingAboveNull(s, a);
    NothingAboveNull(s, c);
    NothingAboveNull(t, a);
    if x == c {
      if Contains(s, c, a) && Contains(s, a, c) { RankInside(s, r, c, a); RankInside(s, r, a, c); }
      if a != c {
        ContainsStep(t, a, c);
        if p != NULL { OutsideContains(s, r, c, p, a, p); }
      }
    } else {
      if x == a && Contains(s, c, x) && p != NULL && Contains(s, a, p) { Inherited(s, c, a, p); }
      if x != a {
        ContainsStep(s, a, x);
        ContainsStep(t, a, x);
      }
      ContainsStep(s, c, x);
      if s.up[x] != NULL { StolenContains(s, r, c, p, a, s.up[x]); }
    }
  }

  lemma Inherited(s: Heap, a: Ptr, b: Ptr, x: Ptr)
    requires Wf(s) && x in s.live && Contains(s, a, b) && Contains(s, b, x)
    ensures Contains(s, a, x)
  {
    var n: nat :| AboveBy(s, x, n) == b;
    ContainsUp(s, b, a, x, n);
  }

  /** Above a chunk outside the subtree of c nothing changes. */
  lemma {:induction false} OutsideContains(s: Heap, r: Ptr -> nat, c: Ptr, p: Ptr, a: Ptr, x: Ptr)
    requires CanSteal(s, c, p) && Climbs(s, r) && a in s.live && x in s.live && !Contains(s, c, x)
    ensures Wf(Stolen(s, c, p)) && (Contains(Stolen(s, c, p), a, x) <==> Contains(s, a, x))
    decreases r(x)
  {
    var t := Stolen(s, c, p);
    assert AboveBy(s, x, 0) == x && AboveBy(t, x, 0) == x;
    assert s.place[c] == InList;
    assert AboveBy(s, c, 0) == c;
    StolenIs(s, c, p);
    assert Anchored(s, x) && s.place[x] == InList && t.place[x] == InList && Above(s, x) == s.up[x]
        && Above(t, x) == t.up[x];
    if a != x {
      ContainsStep(s, a, x);
      ContainsStep(t, a, x);
      ContainsStep(s, c, x);
      NothingAboveNull(s, a);
      NothingAboveNull(t, a);
      if s.up[x] != NULL { OutsideContains(s, r, c, p, a, s.up[x]); }
    }
  }

  /** What lies below a after c has been stolen by p. */
  lemma BelowStolen(s: Heap, r: Ptr -> nat, c: Ptr, p: Ptr, a: Ptr)
    requires CanSteal(s, c, p) && Climbs(s, r) && a in s.live
    ensures var t := Stolen(s, c, p);
            && Wf(t) && t.live == s.live && t.size == s.size
            && Below(t, a) == if Contains(s, c, a) then Below(s, a)
                              else if p != NULL && Contains(s, a, p) then Below(s, a) + Below(s, c)
                              else Below(s, a) - Below(s, c)
  {
    var t := Stolen(s, c, p);
    assert s.place[c] == InList;
    assert AboveBy(s, c, 0) == c;
    StolenIs(s, c, p);
    forall x | x in s.live
      ensures Contains(t, a, x) <==>
                || (Contains(s, a, x) && (Contains(s, c, x) ==> Contains(s, c, a)))
                || (Contains(s, c, x) && p != NULL && Contains(s, a, p))
    {
      StolenContains(s, r, c, p, a, x);
    }
    forall x | x in s.live && Contains(s, c, a) && Contains(s, a, x)
        ensures Contains(s, c, x) { Inherited(s, c, a, x); }
    if Contains(s, c, a) && p != NULL && Contains(s, a, p) { Inherited(s, c, a, p); }
  }

  /** talloc_steal conserves sizes: the trees that c leaves lose exactly the total of its
      subtree, the trees that it enters gain it, and all others, among them its own, keep
      theirs.  So it is with the numbers of blocks. */
  lemma StealMovesTotal(s: Heap, c: Ptr, p: Ptr, a: Ptr)
    requires Forest(s) && CanSteal(s, c, p) && a in s.live
    ensures var t := Stolen(s, c, p);
            && Forest(t)
            && (if Contains(s, a, c) && a != c && !(p != NULL && Contains(s, a, p)) then
                  Total(s, a) == Total(t, a) + Total(s, c) && |Below(s, a)| == |Below(t, a)| + |Below(s, c)|
                else if !Contains(s, a, c) && p != NULL && Contains(s, a, p) then
                  Total(t, a) == Total(s, a) + Total(s, c) && |Below(t, a)| == |Below(s, a)| + |Below(s, c)|
                else
                  Total(t, a) == Total(s, a) && |Below(t, a)| == |Below(s, a)|)
  {
    var r: Ptr -> nat :| Climbs(s, r);
    StealForestIff(s, c, p);
    BelowStolen(s, r, c, p, a);
    Subtrees(s, r, c, a);
    TotalsMove(s, Stolen(s, c, p), c, p, a);
  }

  lemma TotalsMove(s: Heap, t: Heap, c: Ptr, p: Ptr, a: Ptr)
    requires Domains(s) && Domains(t) && t.size == s.size
    requires Below(t, a) == if Contains(s, c, a) then Below(s, a)
                            else if p != NULL && Contains(s, a, p) then Below(s, a) + Below(s, c)
                            else Below(s, a) - Below(s, c)
    requires Contains(s, a, c) ==> Below(s, c) <= Below(s, a) && (a != c ==> !Contains(s, c, a))
    requires !Contains(s, a, c) && !Contains(s, c, a) ==> Below(s, a) !! Below(s, c)
    requires Contains(s, c, a) && p != NULL ==> !Contains(s, a, p)
    requires Contains(s, c, c)
    ensures if Contains(s, a, c) && a != c && !(p != NULL && Contains(s, a, p)) then
              Total(s, a) == Total(t, a) + Total(s, c) && |Below(s, a)| == |Below(t, a)| + |Below(s, c)|
            else if !Contains(s, a, c) && p != NULL && Contains(s, a, p) then
              Total(t, a) == Total(s, a) + Total(s, c) && |Below(t, a)| == |Below(s, a)| + |Below(s, c)|
            else
              Total(t, a) == Total(s, a) && |Below(t, a)| == |Below(s, a)|
  {
    AddedAndTaken(s.size, Below(s, a), Below(s, c));
  }

  /** Two subtrees are disjoint or one is in the other. */
  lemma Subtrees(s: Heap, r: Ptr -> nat, c: Ptr, a: Ptr)
    requires AtRest(s) && Climbs(s, r) && c in s.live && a in s.live
    ensures Contains(s, a, c) ==> Below(s, c) <= Below(s, a) && (a != c ==> !Contains(s, c, a))
    ensures !Contains(s, a, c) && !Contains(s, c, a) ==> Below(s, a) !! Below(s, c)
    ensures Contains(s, c, c)
    ensures forall p :: p in s.live && Contains(s, c, a) && Contains(s, a, p) ==> Contains(s, c, p)
  {
    forall p | p in s.live && Contains(s, c, a) && Contains(s, a, p)
        ensures Contains(s, c, p) { Inherited(s, c, a, p); }
    assert AboveBy(s, c, 0) == c;
    if Contains(s, a, c) {
      forall x | x in Below(s, c) ensures x in Below(s, a) { Inherited(s, a, c, x); }
      if Contains(s, c, a) { RankInside(s, r, c, a); RankInside(s, r, a, c); }
    } else if !Contains(s, c, a) {
      forall x | x in Below(s, a) ensures x !in Below(s, c) {
        if x in Below(s, c) { Line(s, a, c, x); }
      }
    }
  }

  lemma AddedAndTaken(w: map<Ptr, nat>, A: set<Ptr>, B: set<Ptr>)
    requires forall x :: x in A || x in B ==> x in w
    ensures B <= A ==> A + B == A && Sum(w, A) == Sum(w, A - B) + Sum(w, B) && |A| == |A - B| + |B|
    ensures A !! B ==> A - B == A && Sum(w, A + B) == Sum(w, A) + Sum(w, B) && |A + B| == |A| + |B|
  {
    if B <= A {
      assert A == (A - B) + B && A + B == A;
      SumUnion(w, A - B, B);
    }
    if A !! B {
      assert A - B == A;
      SumUnion(w, A, B);
    }
  }

  /** Of two chunks above a third one is above the other. */
  lemma Line(s: Heap, a: Ptr, b: Ptr, x: Ptr)
    requires Wf(s) && x in s.live && Contains(s, a, x) && Contains(s, b, x)
    ensures Contains(s, a, b) || Contains(s, b, a)
  {
    var n: nat :| AboveBy(s, x, n) == a;
    var k: nat :| AboveBy(s, x, k) == b;
    if n <= k { Further(s, x, n, k); } else { Further(s, x, k, n); }
  }

  lemma {:induction false} Further(s: Heap, x: Ptr, n: nat, k: nat)
    requires Wf(s) && n <= k
    ensures Contains(s, AboveBy(s, x, k), AboveBy(s, x, n))
    decreases n
  {
    if n == 0 || x !in s.live {
      assert AboveBy(s, AboveBy(s, x, n), if x !in s.live then 0 else k) == AboveBy(s, x, k);
    } else {
      Further(s, Above(s, x), n - 1, k - 1);
    }
  }
}
