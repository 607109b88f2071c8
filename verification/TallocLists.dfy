/** Doubly linked lists of chunks as the macros _TLIST_ADD and _TLIST_REMOVE of
    lib/talloc/talloc.c build them, on links given as maps. */
module TallocLists {
  import opened TallocHeap

  type Link = map<Ptr, Ptr>

  ghost function At(q: seq<Ptr>, i: int): Ptr {
    if 0 <= i < |q| then q[i] else NULL
  }

  ghost predicate Covers(l: Link, q: seq<Ptr>) {
    forall i {:trigger q[i] in l} :: 0 <= i < |q| ==> q[i] in l
  }

  ghost predicate Forward(next: Link, q: seq<Ptr>) {
    Covers(next, q) && forall i {:trigger next[q[i]]} :: 0 <= i < |q| ==> next[q[i]] == At(q, i + 1)
  }

  ghost predicate Backward(prev: Link, q: seq<Ptr>) {
    Covers(prev, q) && forall i {:trigger prev[q[i]]} :: 0 <= i < |q| ==> prev[q[i]] == At(q, i - 1)
  }

  /** Only the first chunk of the list points to the owner. */
  ghost predicate Headed(parent: Link, p: Ptr, q: seq<Ptr>) {
    Covers(parent, q) && forall i {:trigger parent[q[i]]} :: 0 <= i < |q| ==> parent[q[i]] == if i == 0 then p else NULL
  }

  /** The two link maps agree on the chunks of q, except at positions a and b. */
  ghost predicate Agree(l: Link, l': Link, q: seq<Ptr>, a: int, b: int) {
    forall i {:trigger q[i]} :: 0 <= i < |q| && i != a && i != b ==> q[i] in l && q[i] in l' && l'[q[i]] == l[q[i]]
  }

  lemma ForwardCut(next: Link, next': Link, q: seq<Ptr>, i: nat)
    requires i < |q| && Forward(next, q) && Agree(next, next', q, i - 1, i)
    requires 0 < i ==> q[i - 1] in next' && next'[q[i - 1]] == At(q, i + 1)
    ensures Forward(next', CutAt(q, i))
  {
    var r := CutAt(q, i);
    forall j | 0 <= j < |r| ensures r[j] in next' && next'[r[j]] == At(r, j + 1) {
      var n := if j < i then j else j + 1;
      assert r[j] == q[n] && next[q[n]] == At(q, n + 1);
    }
  }

  lemma BackwardCut(prev: Link, prev': Link, q: seq<Ptr>, i: nat)
    requires i < |q| && Backward(prev, q) && Agree(prev, prev', q, i, i + 1)
    requires i + 1 < |q| ==> q[i + 1] in prev' && prev'[q[i + 1]] == At(q, i - 1)
    ensures Backward(prev', CutAt(q, i))
  {
    var r := CutAt(q, i);
    forall j | 0 <= j < |r| ensures r[j] in prev' && prev'[r[j]] == At(r, j - 1) {
      var n := if j < i then j else j + 1;
      assert r[j] == q[n] && prev[q[n]] == At(q, n - 1);
    }
  }

  lemma HeadedCut(parent: Link, parent': Link, p: Ptr, q: seq<Ptr>, i: nat)
    requires i < |q| && Headed(parent, p, q) && Agree(parent, parent', q, i, if i == 0 then 1 else i)
    requires i == 0 && 1 < |q| ==> q[1] in parent' && parent'[q[1]] == p
    ensures Headed(parent', p, CutAt(q, i))
  {
    var r := CutAt(q, i);
    forall j | 0 <= j < |r| ensures r[j] in parent' && parent'[r[j]] == if j == 0 then p else NULL {
      var n := if j < i then j else j + 1;
      assert r[j] == q[n] && parent[q[n]] == if n == 0 then p else NULL;
    }
  }

  lemma ForwardPush(next: Link, next': Link, q: seq<Ptr>, c: Ptr)
    requires Forward(next, q) && Agree(next, next', q, -1, -1) && c in next' && next'[c] == At(q, 0)
    ensures Forward(next', [c] + q)
  {
    var r := [c] + q;
    forall j | 0 <= j < |r| ensures r[j] in next' && next'[r[j]] == At(r, j + 1) {
      if j > 0 { assert r[j] == q[j - 1] && next[q[j - 1]] == At(q, j); }
    }
  }

  lemma BackwardPush(prev: Link, prev': Link, q: seq<Ptr>, c: Ptr)
    requires Backward(prev, q) && Agree(prev, prev', q, 0, 0) && c in prev' && prev'[c] == NULL
    requires q != [] ==> q[0] in prev' && prev'[q[0]] == c
    ensures Backward(prev', [c] + q)
  {
    var r := [c] + q;
    forall j | 0 <= j < |r| ensures r[j] in prev' && prev'[r[j]] == At(r, j - 1) {
      if j > 0 { assert r[j] == q[j - 1] && prev[q[j - 1]] == At(q, j - 2); }
    }
  }

  lemma HeadedPush(parent: Link, parent': Link, p: Ptr, q: seq<Ptr>, c: Ptr)
    requires Headed(parent, p, q) && Agree(parent, parent', q, 0, 0) && c in parent' && parent'[c] == p
    requires q != [] ==> q[0] in parent' && parent'[q[0]] == NULL
    ensures Headed(parent', p, [c] + q)
  {
    var r := [c] + q;
    forall j | 0 <= j < |r| ensures r[j] in parent' && parent'[r[j]] == if j == 0 then p else NULL {
      if j > 0 { assert r[j] == q[j - 1] && parent[q[j - 1]] == if j == 1 then p else NULL; }
    }
  }

  lemma ForwardFrame(next: Link, next': Link, q: seq<Ptr>)
    requires Forward(next, q) && Agree(next, next', q, -1, -1)
    ensures Forward(next', q)
  {
    forall i | 0 <= i < |q| ensures next'[q[i]] == At(q, i + 1) {
      assert next[q[i]] == At(q, i + 1);
    }
  }

  lemma BackwardFrame(prev: Link, prev': Link, q: seq<Ptr>)
    requires Backward(prev, q) && Agree(prev, prev', q, -1, -1)
    ensures Backward(prev', q)
  {
    forall i | 0 <= i < |q| ensures prev'[q[i]] == At(q, i - 1) {
      assert prev[q[i]] == At(q, i - 1);
    }
  }

  lemma HeadedFrame(parent: Link, parent': Link, p: Ptr, q: seq<Ptr>)
    requires Headed(parent, p, q) && Agree(parent, parent', q, -1, -1)
    ensures Headed(parent', p, q)
  {
    forall i | 0 <= i < |q| ensures parent'[q[i]] == if i == 0 then p else NULL {
      assert parent[q[i]] == if i == 0 then p else NULL;
    }
  }
}
