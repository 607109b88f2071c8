/** What the calls of lib/talloc/talloc.c change, field by field: which chunks come and go,
    and which parents, child lists, references, sizes, destructors and flags are as they
    were. */
module TallocEffects {
  import opened TallocHeap
  import opened TallocAlloc
  import opened TallocSteps
  import opened TallocSweep
  import opened TallocSweepSteps

  /** r is q without its one element x, in the same order. */
  ghost predicate Loses(q: seq<Ptr>, x: Ptr, r: seq<Ptr>) {
    exists i {:trigger q[i]} :: 0 <= i < |q| && q[i] == x && r == q[..i] + q[i + 1..]
  }

  /** What is no link of x is the same in s and t. */
  ghost predicate SameData(s: Heap, t: Heap, x: Ptr)
    requires Domains(s) && Domains(t)
  {
    && x in s.live && x in t.live && t.size[x] == s.size[x] && t.dtor[x] == s.dtor[x] && t.loop[x] == s.loop[x]
    && t.target[x] == s.target[x] && t.place[x] == s.place[x]
  }

  lemma WithoutLoses(q: seq<Ptr>, x: Ptr)
    requires x in q
    ensures Loses(q, x, Without(q, x))
  {
    var i := IndexOf(q, x);
    var r := CutAt(q, i);
    assert r == q[..i] + q[i + 1..];
    assert q[i] == x;
  }

  // ---------- a handle is freed ----------

  /** The handle g is gone, and its target and its holder have lost it. */
  ghost predicate HandleGone(s: Heap, t: Heap, g: Ptr)
    requires Domains(s) && Domains(t)
  {
    && g in s.live && t.live == s.live - {g}
    && forall x {:trigger x in t.live} :: x in t.live ==>
         && SameData(s, t, x) && t.up[x] == s.up[x]
         && (if x == s.up[g] then Loses(s.kids[x], g, t.kids[x]) else t.kids[x] == s.kids[x])
         && (if x == s.target[g] then Loses(s.refs[x], g, t.refs[x]) else t.refs[x] == s.refs[x])
  }

  lemma DropHandleGone(s: Heap, g: Ptr)
    requires Wf(s) && IsHandle(s, g)
    ensures Wf(DropHandle(s, g)) && HandleGone(s, DropHandle(s, g), g)
  {
    var t := DropHandle(s, g);
    DropHandleIs(s, g);
    forall x | x in t.live
      ensures && SameData(s, t, x) && t.up[x] == s.up[x]
              && (if x == s.up[g] then Loses(s.kids[x], g, t.kids[x]) else t.kids[x] == s.kids[x])
              && (if x == s.target[g] then Loses(s.refs[x], g, t.refs[x]) else t.refs[x] == s.refs[x])
    {
      if x == s.up[g] { WithoutLoses(s.kids[x], g); }
      if x == s.target[g] { WithoutLoses(s.refs[x], g); }
    }
  }

  // ---------- talloc_steal ----------

  /** c is now the first child of p, or a root, and nothing else has changed but the list
      that it has left: a later child of p moves to the front. */
  ghost predicate MovedTo(s: Heap, t: Heap, c: Ptr, p: Ptr)
    requires Domains(s) && Domains(t)
  {
    && c in s.live && t.live == s.live && t.up[c] == p
    && forall x {:trigger x in t.live} :: x in t.live ==>
         && SameData(s, t, x) && t.refs[x] == s.refs[x] && (x != c ==> t.up[x] == s.up[x])
         && (if x == p then t.kids[x] != [] && t.kids[x][0] == c
                            && (if s.up[c] == p then Loses(s.kids[x], c, t.kids[x][1..]) else t.kids[x][1..] == s.kids[x])
             else if x == s.up[c] then Loses(s.kids[x], c, t.kids[x])
             else t.kids[x] == s.kids[x])
  }

  lemma StolenMoves(s: Heap, c: Ptr, p: Ptr)
    requires Wf(s) && c in s.live && s.place[c] == InList
             && (p == NULL || (p in s.live && !IsHandle(s, p) && p != c))
    ensures Wf(Stolen(s, c, p)) && MovedTo(s, Stolen(s, c, p), c, p)
  {
    var t := Stolen(s, c, p);
    StolenIs(s, c, p);
    forall x | x in t.live
      ensures && SameData(s, t, x) && t.refs[x] == s.refs[x] && (x != c ==> t.up[x] == s.up[x])
              && (if x == p then t.kids[x] != [] && t.kids[x][0] == c
                                 && (if s.up[c] == p then Loses(s.kids[x], c, t.kids[x][1..])
                                     else t.kids[x][1..] == s.kids[x])
                  else if x == s.up[c] then Loses(s.kids[x], c, t.kids[x])
                  else t.kids[x] == s.kids[x])
    {
      if x == p || x == s.up[c] { StolenRow(s, c, p, x); }
    }
  }

  lemma StolenRow(s: Heap, c: Ptr, p: Ptr, x: Ptr)
    requires Wf(s) && c in s.live && s.place[c] == InList
             && (p == NULL || (p in s.live && !IsHandle(s, p) && p != c))
    requires x in s.live && (x == p || x == s.up[c])
    ensures var t := Stolen(s, c, p);
            && x in t.kids
            && (if x == p then t.kids[x] != [] && t.kids[x][0] == c
                               && (if s.up[c] == p then Loses(s.kids[x], c, t.kids[x][1..])
                                   else t.kids[x][1..] == s.kids[x])
                else Loses(s.kids[x], c, t.kids[x]))
  {
    if x == s.up[c] { WithoutLoses(s.kids[x], c); }
    if StaysPut(s, c, p) {
      var q := s.kids[p];
      assert q[..0] + q[1..] == q[1..];
    } else if x == p {
      var q := if s.up[c] == p then Without(s.kids[p], c) else s.kids[p];
      assert ([c] + q)[1..] == q;
    }
  }

  // ---------- a parent is replaced by the holder of a reference ----------

  /** The newest handle g of c is gone, and c has become the first child of the chunk that
      held it. */
  ghost predicate Promotes(s: Heap, t: Heap, c: Ptr, g: Ptr)
    requires Domains(s) && Domains(t)
  {
    && c in s.live && s.refs[c] != [] && g == s.refs[c][0] && g in s.live && t.live == s.live - {g}
    && c in t.live && t.up[c] == s.up[g]
    && forall x {:trigger x in t.live} :: x in t.live ==>
         && SameData(s, t, x) && (x != c ==> t.up[x] == s.up[x])
         && t.refs[x] == (if x == c then s.refs[x][1..] else s.refs[x])
         && (if x == s.up[g] then t.kids[x] != [] && t.kids[x][0] == c && Loses(s.kids[x], g, t.kids[x][1..])
             else if x == s.up[c] then Loses(s.kids[x], c, t.kids[x])
             else t.kids[x] == s.kids[x])
  }

  lemma LosesFirst(q: seq<Ptr>, x: Ptr, r: seq<Ptr>)
    requires Distinct(q) && q != [] && q[0] == x && Loses(q, x, r)
    ensures r == q[1..]
  {
    DistinctPairs(q);
    var i :| 0 <= i < |q| && q[i] == x && r == q[..i] + q[i + 1..];
    assert i == 0;
  }

  lemma PromotesBoth(s: Heap, u: Heap, t: Heap, c: Ptr, g: Ptr)
    requires Wf(s) && Domains(u) && Domains(t) && c in s.live && s.refs[c] != [] && g == s.refs[c][0] && IsHandle(s, g)
    requires s.target[g] == c && s.up[g] != s.up[c] && HandleGone(s, u, g) && MovedTo(u, t, c, s.up[g])
    ensures Promotes(s, t, c, g)
  {
    var o := s.up[g];
    assert c in u.live && u.up[c] == s.up[c];
    forall x | x in t.live
      ensures && SameData(s, t, x) && (x != c ==> t.up[x] == s.up[x])
              && t.refs[x] == (if x == c then s.refs[x][1..] else s.refs[x])
              && (if x == o then t.kids[x] != [] && t.kids[x][0] == c && Loses(s.kids[x], g, t.kids[x][1..])
                  else if x == s.up[c] then Loses(s.kids[x], c, t.kids[x])
                  else t.kids[x] == s.kids[x])
    {
      assert x in u.live;
      if x == c { LosesFirst(s.refs[c], g, t.refs[c]); }
    }
  }

  // ---------- several handles are freed ----------

  ghost function Minus(q: seq<Ptr>, gone: set<Ptr>): seq<Ptr> {
    if q == [] then [] else (if q[0] in gone then [] else [q[0]]) + Minus(q[1..], gone)
  }

  ghost function Among(q: seq<Ptr>): set<Ptr> {
    set x | x in q
  }

  /** The n newest handles of c are gone, and nothing else has changed. */
  ghost predicate HandlesGone(s: Heap, t: Heap, c: Ptr, n: nat)
    requires Domains(s) && Domains(t)
  {
    && c in s.live && n <= |s.refs[c]| && t.live == s.live - Among(s.refs[c][..n])
    && forall x {:trigger x in t.live} :: x in t.live ==>
         && SameData(s, t, x) && t.up[x] == s.up[x]
         && t.refs[x] == (if x == c then s.refs[x][n..] else s.refs[x])
         && t.kids[x] == Minus(s.kids[x], Among(s.refs[c][..n]))
  }

  lemma {:induction false} MinusNothing(q: seq<Ptr>, gone: set<Ptr>)
    requires forall x :: x in q ==> x !in gone
    ensures Minus(q, gone) == q
  {
    if q != [] {
      var h := q[0];
      assert q == [h] + q[1..] && h in q;
      MinusNothing(q[1..], gone);
    }
  }

  lemma Together(a: seq<Ptr>, b: seq<Ptr>, c: seq<Ptr>)
    ensures (a + b) + c == a + (b + c)
  {
  }

  lemma {:induction false} MinusSum(a: seq<Ptr>, b: seq<Ptr>, gone: set<Ptr>)
    ensures Minus(a + b, gone) == Minus(a, gone) + Minus(b, gone)
  {
    var q := a + b;
    if a == [] {
      assert q == b && Minus(a, gone) + Minus(b, gone) == Minus(b, gone);
    } else {
      assert q != [] && q[0] == a[0] && q[1..] == a[1..] + b;
      MinusSum(a[1..], b, gone);
      Together(if a[0] in gone then [] else [a[0]], Minus(a[1..], gone), Minus(b, gone));
    }
  }

  lemma {:induction false} MinusSame(q: seq<Ptr>, h: Ptr, gone: set<Ptr>)
    requires h !in q
    ensures Minus(q, gone + {h}) == Minus(q, gone)
  {
    if q != [] { MinusSame(q[1..], h, gone); }
  }

  lemma MinusPieces(a: seq<Ptr>, h: Ptr, b: seq<Ptr>, gone: set<Ptr>)
    requires h !in a && h !in b
    ensures Minus(a + ([h] + b), gone + {h}) == Minus(a + b, gone)
  {
    MinusSum(a, [h] + b, gone + {h});
    MinusSum(a, b, gone);
    assert ([h] + b)[1..] == b;
    MinusSame(a, h, gone);
    MinusSame(b, h, gone);
  }

  lemma MinusLoses(q: seq<Ptr>, h: Ptr, r: seq<Ptr>, gone: set<Ptr>)
    requires Distinct(q) && Loses(q, h, r)
    ensures Minus(q, gone + {h}) == Minus(r, gone)
  {
    var i :| 0 <= i < |q| && q[i] == h && r == q[..i] + q[i + 1..];
    DistinctPairs(q);
    assert q == q[..i] + ([h] + q[i + 1..]);
    MinusPieces(q[..i], h, q[i + 1..], gone);
  }

  lemma NothingGone(s: Heap, c: Ptr)
    requires Wf(s) && c in s.live
    ensures HandlesGone(s, s, c, 0)
  {
    forall x | x in s.live ensures Minus(s.kids[x], {}) == s.kids[x] { MinusNothing(s.kids[x], {}); }
    assert Among(s.refs[c][..0]) == {};
    assert s.refs[c][0..] == s.refs[c];
  }

  lemma OneMoreGone(s: Heap, u: Heap, t: Heap, c: Ptr, h: Ptr, n: nat)
    requires Wf(s) && Wf(u) && Wf(t) && c in s.live && s.refs[c] != [] && s.refs[c][0] == h && IsHandle(s, h)
    requires s.target[h] == c && HandleGone(s, u, h) && HandlesGone(u, t, c, n)
    ensures HandlesGone(s, t, c, n + 1)
  {
    assert c in u.live;
    LosesFirst(s.refs[c], h, u.refs[c]);
    var gone := Among(u.refs[c][..n]);
    assert s.refs[c][..n + 1] == [h] + u.refs[c][..n];
    assert Among(s.refs[c][..n + 1]) == gone + {h};
    forall x | x in t.live
      ensures && SameData(s, t, x) && t.up[x] == s.up[x]
              && t.refs[x] == (if x == c then s.refs[x][n + 1..] else s.refs[x])
              && t.kids[x] == Minus(s.kids[x], gone + {h})
    {
      assert x in u.live;
      if x == s.up[h] { MinusLoses(s.kids[x], h, u.kids[x], gone); } else { MinusSame(s.kids[x], h, gone); }
    }
  }
}
