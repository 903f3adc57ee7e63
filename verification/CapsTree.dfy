// Flattening a capability tree into the list of its root-to-leaf paths.
module CapsTree {
  import opened VplTypes

  // ---- specification: nested in-order concatenation -----------------------------------

  function MemLeaves<A, B, C, D>(a: A, b: B, n: Node<C, D>, from: nat): seq<Leaf<A, B, C, D>>
    decreases |n.kids| - from
  {
    if from >= |n.kids| then [] else [Leaf(a, b, n.info, n.kids[from])] + MemLeaves(a, b, n, from + 1)
  }

  function ProfileLeaves<A, B, C, D>(a: A, n: Node<B, Node<C, D>>, from: nat): seq<Leaf<A, B, C, D>>
    decreases |n.kids| - from
  {
    if from >= |n.kids| then []
    else MemLeaves(a, n.info, n.kids[from], 0) + ProfileLeaves(a, n, from + 1)
  }

  function CodecLeaves<A, B, C, D>(n: Node<A, Node<B, Node<C, D>>>, from: nat): seq<Leaf<A, B, C, D>>
    decreases |n.kids| - from
  {
    if from >= |n.kids| then []
    else ProfileLeaves(n.info, n.kids[from], 0) + CodecLeaves(n, from + 1)
  }

  function LeavesFrom<A, B, C, D>(t: Tree<A, B, C, D>, from: nat): seq<Leaf<A, B, C, D>>
    decreases |t| - from
  {
    if from >= |t| then [] else CodecLeaves(t[from], 0) + LeavesFrom(t, from + 1)
  }

  function Leaves<A, B, C, D>(t: Tree<A, B, C, D>): seq<Leaf<A, B, C, D>> { LeavesFrom(t, 0) }

  // What a cursor (i, j, k, l) into the tree has still to visit.
  ghost function Rest<A, B, C, D>(t: Tree<A, B, C, D>, i: nat, j: nat, k: nat, l: nat): seq<Leaf<A, B, C, D>>
    requires Cursor(t, i, j, k, l)
  {
    if i == |t| then [] else
      var codec := t[i];
      if j == |codec.kids| then LeavesFrom(t, i + 1) else
        var profile := codec.kids[j];
        var later := CodecLeaves(codec, j + 1) + LeavesFrom(t, i + 1);
        if k == |profile.kids| then later else
          var mem := profile.kids[k];
          MemLeaves(codec.info, profile.info, mem, l)
          + (ProfileLeaves(codec.info, profile, k + 1) + later)
  }

  // The positions the four counters can take: a counter that has run off the end of its
  // level has all the counters below it at zero.
  ghost predicate Cursor<A, B, C, D>(t: Tree<A, B, C, D>, i: nat, j: nat, k: nat, l: nat) {
    && i <= |t|
    && (i == |t| ==> j == k == l == 0)
    && (i < |t| ==>
          && j <= |t[i].kids|
          && (j == |t[i].kids| ==> k == l == 0)
          && (j < |t[i].kids| ==>
                && k <= |t[i].kids[j].kids|
                && (k == |t[i].kids[j].kids| ==> l == 0)
                && (k < |t[i].kids[j].kids| ==> l <= |t[i].kids[j].kids[k].kids|)))
  }

  // Moving the cursor one place, at each level where it can run off the end.
  lemma RestCarry<A, B, C, D>(t: Tree<A, B, C, D>, i: nat, j: nat, k: nat, l: nat)
    requires Cursor(t, i, j, k, l) && i < |t|
    ensures j == |t[i].kids| ==> Cursor(t, i + 1, 0, 0, 0) && Rest(t, i + 1, 0, 0, 0) == Rest(t, i, j, k, l)
    ensures j < |t[i].kids| && k == |t[i].kids[j].kids| ==>
              Cursor(t, i, j + 1, 0, 0) && Rest(t, i, j + 1, 0, 0) == Rest(t, i, j, k, l)
  {
    if j == |t[i].kids| {
      if i + 1 < |t| { RestAtCodec(t, i + 1, 0); }
    } else if k == |t[i].kids[j].kids| {
      RestAtCodec(t, i, j + 1);
    }
  }

  lemma RestAtCodec<A, B, C, D>(t: Tree<A, B, C, D>, i: nat, j: nat)
    requires i < |t| && j <= |t[i].kids|
    ensures Cursor(t, i, j, 0, 0) && Rest(t, i, j, 0, 0) == CodecLeaves(t[i], j) + LeavesFrom(t, i + 1)
  {
    if j < |t[i].kids| {
      var codec, profile := t[i], t[i].kids[j];
      var later := CodecLeaves(codec, j + 1) + LeavesFrom(t, i + 1);
      if |profile.kids| > 0 { RestAtProfile(t, i, j, 0); }
      assert CodecLeaves(codec, j) + LeavesFrom(t, i + 1) == ProfileLeaves(codec.info, profile, 0) + later;
    }
  }

  lemma RestAtProfile<A, B, C, D>(t: Tree<A, B, C, D>, i: nat, j: nat, k: nat)
    requires i < |t| && j < |t[i].kids| && k <= |t[i].kids[j].kids|
    ensures Cursor(t, i, j, k, 0)
    ensures Rest(t, i, j, k, 0) ==
            ProfileLeaves(t[i].info, t[i].kids[j], k) + (CodecLeaves(t[i], j + 1) + LeavesFrom(t, i + 1))
  {
    if k < |t[i].kids[j].kids| {
      var codec, profile := t[i], t[i].kids[j];
      var later := CodecLeaves(codec, j + 1) + LeavesFrom(t, i + 1);
      assert ProfileLeaves(codec.info, profile, k) + later ==
             MemLeaves(codec.info, profile.info, profile.kids[k], 0)
               + (ProfileLeaves(codec.info, profile, k + 1) + later);
    }
  }

  lemma RestAtMem<A, B, C, D>(t: Tree<A, B, C, D>, i: nat, j: nat, k: nat, l: nat)
    requires Cursor(t, i, j, k, l) && i < |t| && j < |t[i].kids| && k < |t[i].kids[j].kids|
    requires l == |t[i].kids[j].kids[k].kids|
    ensures Cursor(t, i, j, k + 1, 0) && Rest(t, i, j, k + 1, 0) == Rest(t, i, j, k, l)
  {
    hide CodecLeaves, LeavesFrom, ProfileLeaves;
    RestAtProfile(t, i, j, k + 1);
  }

  lemma ConcatAssociates<T>(a: seq<T>, b: seq<T>, c: seq<T>)
    ensures (a + b) + c == a + (b + c)
  {}

  lemma RestAtLeaf<A, B, C, D>(t: Tree<A, B, C, D>, i: nat, j: nat, k: nat, l: nat)
    requires Cursor(t, i, j, k, l) && i < |t| && j < |t[i].kids| && k < |t[i].kids[j].kids|
    requires l < |t[i].kids[j].kids[k].kids|
    ensures Cursor(t, i, j, k, l + 1)
    ensures var mem := t[i].kids[j].kids[k];
            Rest(t, i, j, k, l) ==
            [Leaf(t[i].info, t[i].kids[j].info, mem.info, mem.kids[l])] + Rest(t, i, j, k, l + 1)
  {
    hide CodecLeaves, LeavesFrom, ProfileLeaves;
    var codec, profile, mem := t[i], t[i].kids[j], t[i].kids[j].kids[k];
    ConcatAssociates([Leaf(codec.info, profile.info, mem.info, mem.kids[l])],
                     MemLeaves(codec.info, profile.info, mem, l + 1),
                     ProfileLeaves(codec.info, profile, k + 1) + (CodecLeaves(codec, j + 1) + LeavesFrom(t, i + 1)));
  }

  lemma RestEnds<A, B, C, D>(t: Tree<A, B, C, D>)
    ensures Cursor(t, 0, 0, 0, 0) && Rest(t, 0, 0, 0, 0) == Leaves(t)
    ensures Cursor(t, |t|, 0, 0, 0) && Rest(t, |t|, 0, 0, 0) == []
  {
    if |t| > 0 { RestAtCodec(t, 0, 0); }
  }

  // The dispatcher's single loop over four counters. Each counter that reaches the count of
  // its level is reset and carries into the one above, then the loop starts over.
  method Flatten<A, B, C, D>(t: Tree<A, B, C, D>) returns (sts: Status, leaves: seq<Leaf<A, B, C, D>>)
    ensures leaves == Leaves(t)
    ensures sts == if Leaves(t) == [] then ErrInvalidVideoParam else ErrNone
  {
    hide Rest, Leaves;
    leaves := [];
    var i, j, k, l := 0, 0, 0, 0;
    RestEnds(t);
    while i < |t|
      invariant Cursor(t, i, j, k, l)
      invariant leaves + Rest(t, i, j, k, l) == Leaves(t)
      decreases |t| - i,
                if i < |t| then |t[i].kids| - j else 0,
                if i < |t| && j < |t[i].kids| then |t[i].kids[j].kids| - k else 0,
                if i < |t| && j < |t[i].kids| && k < |t[i].kids[j].kids| then |t[i].kids[j].kids[k].kids| - l else 0
    {
      RestCarry(t, i, j, k, l);
      var codec := t[i];
      if j == |codec.kids| {
        i := i + 1;
        j := 0;
        continue;
      }
      var profile := codec.kids[j];
      if k == |profile.kids| {
        j := j + 1;
        k := 0;
        continue;
      }
      var mem := profile.kids[k];
      if l == |mem.kids| {
        RestAtMem(t, i, j, k, l);
        k := k + 1;
        l := 0;
        continue;
      }
      RestAtLeaf(t, i, j, k, l);
      leaves := leaves + [Leaf(codec.info, profile.info, mem.info, mem.kids[l])];
      l := l + 1;
    }
    sts := if leaves == [] then ErrInvalidVideoParam else ErrNone;
  }

  // ---- the flat list and the tree paths agree ------------------------------------------

  ghost predicate HasPath<A, B, C, D>(t: Tree<A, B, C, D>, x: Leaf<A, B, C, D>) {
    exists i, j, k, l :: PathAt(t, i, j, k, l, x)
  }

  ghost predicate PathAt<A, B, C, D>(t: Tree<A, B, C, D>, i: nat, j: nat, k: nat, l: nat, x: Leaf<A, B, C, D>) {
    && i < |t| && j < |t[i].kids| && k < |t[i].kids[j].kids| && l < |t[i].kids[j].kids[k].kids|
    && x == Leaf(t[i].info, t[i].kids[j].info, t[i].kids[j].kids[k].info, t[i].kids[j].kids[k].kids[l])
  }

  lemma {:induction false} MemLeavesAre<A, B, C, D>(a: A, b: B, n: Node<C, D>, from: nat, x: Leaf<A, B, C, D>)
    ensures x in MemLeaves(a, b, n, from) <==> exists l | from <= l < |n.kids| :: x == Leaf(a, b, n.info, n.kids[l])
    decreases |n.kids| - from
  {
    if from < |n.kids| { MemLeavesAre(a, b, n, from + 1, x); }
  }

  lemma {:induction false} ProfileLeavesAre<A, B, C, D>(a: A, n: Node<B, Node<C, D>>, from: nat, x: Leaf<A, B, C, D>)
    ensures x in ProfileLeaves(a, n, from) <==>
            exists k | from <= k < |n.kids| :: x in MemLeaves(a, n.info, n.kids[k], 0)
    decreases |n.kids| - from
  {
    hide MemLeaves;
    if from < |n.kids| { ProfileLeavesAre(a, n, from + 1, x); }
  }

  lemma {:induction false} CodecLeavesAre<A, B, C, D>(n: Node<A, Node<B, Node<C, D>>>, from: nat, x: Leaf<A, B, C, D>)
    ensures x in CodecLeaves(n, from) <==>
            exists j | from <= j < |n.kids| :: x in ProfileLeaves(n.info, n.kids[j], 0)
    decreases |n.kids| - from
  {
    hide ProfileLeaves;
    if from < |n.kids| { CodecLeavesAre(n, from + 1, x); }
  }

  lemma {:induction false} LeavesFromAre<A, B, C, D>(t: Tree<A, B, C, D>, from: nat, x: Leaf<A, B, C, D>)
    ensures x in LeavesFrom(t, from) <==> exists i | from <= i < |t| :: x in CodecLeaves(t[i], 0)
    decreases |t| - from
  {
    hide CodecLeaves;
    if from < |t| {
      LeavesFromAre(t, from + 1, x);
      assert LeavesFrom(t, from) == CodecLeaves(t[from], 0) + LeavesFrom(t, from + 1);
      if i :| from <= i < |t| && x in CodecLeaves(t[i], 0) { assert i == from || from + 1 <= i; }
    }
  }

  lemma LeavesArePaths<A, B, C, D>(t: Tree<A, B, C, D>, x: Leaf<A, B, C, D>)
    ensures x in Leaves(t) <==> HasPath(t, x)
  {
    LeavesFromAre(t, 0, x);
    if x in Leaves(t) {
      var i :| 0 <= i < |t| && x in CodecLeaves(t[i], 0);
      CodecLeavesAre(t[i], 0, x);
      var j :| 0 <= j < |t[i].kids| && x in ProfileLeaves(t[i].info, t[i].kids[j], 0);
      ProfileLeavesAre(t[i].info, t[i].kids[j], 0, x);
      var k :| 0 <= k < |t[i].kids[j].kids| && x in MemLeaves(t[i].info, t[i].kids[j].info, t[i].kids[j].kids[k], 0);
      MemLeavesAre(t[i].info, t[i].kids[j].info, t[i].kids[j].kids[k], 0, x);
      var mem := t[i].kids[j].kids[k];
      var l :| 0 <= l < |mem.kids| && x == Leaf(t[i].info, t[i].kids[j].info, mem.info, mem.kids[l]);
      assert PathAt(t, i, j, k, l, x);
    }
    if i: nat, j: nat, k: nat, l: nat :| PathAt(t, i, j, k, l, x) {
      MemLeavesAre(t[i].info, t[i].kids[j].info, t[i].kids[j].kids[k], 0, x);
      ProfileLeavesAre(t[i].info, t[i].kids[j], 0, x);
      CodecLeavesAre(t[i], 0, x);
    }
  }
}
