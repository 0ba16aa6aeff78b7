/**
 * The two intrusive lists of the object pool, seen as sequences of slot
 * indices read from the list head onwards, with the Linux-kernel `list.h`
 * semantics: `Without` is the unlink half of `list_move` (the other half, a
 * prepend, is in the pool's step functions), and `Kept`/`Deleted` describe
 * a `list_for_each_safe` walk whose handler may unlink the current node.
 */
module SlotLists {

  /** A slot of the pool's storage block, by index. */
  type Slot = nat

  /** Slots `0 .. n-1` in index order. */
  function Range(n: nat): (r: seq<Slot>)
    ensures |r| == n
    ensures forall i :: 0 <= i < n ==> r[i] == i
  {
    if n == 0 then [] else Range(n - 1) + [n - 1]
  }

  /** Appending one slot adds one to its count and leaves every other count alone. */
  lemma SnocCount(s: seq<Slot>, y: Slot, x: Slot)
    ensures multiset(s + [y])[x] == multiset(s)[x] + (if x == y then 1 else 0)
  {
    assert multiset(s + [y]) == multiset(s) + multiset{y};
  }

  /** `Range(n)` counts `x` once more than `Range(n - 1)` when `x` is its last slot. */
  lemma RangeSnocCount(n: nat, x: Slot)
    requires n > 0
    ensures multiset(Range(n))[x] == multiset(Range(n - 1))[x] + (if x == n - 1 then 1 else 0)
  {
    SnocCount(Range(n - 1), n - 1, x);
  }

  /** Every slot below `n` occurs in `Range(n)` exactly once, and no other value occurs. */
  lemma {:induction false} RangeMultiplicity(n: nat, x: Slot)
    ensures multiset(Range(n))[x] == if x < n then 1 else 0
  {
    if n > 0 {
      RangeMultiplicity(n - 1, x);
      RangeSnocCount(n, x);
    }
  }

  /** The list with the first node holding `x` unlinked. */
  function Without(s: seq<Slot>, x: Slot): (r: seq<Slot>)
    ensures x !in s ==> r == s
    ensures x in s ==> |r| == |s| - 1
  {
    if s == [] then []
    else if s[0] == x then s[1..]
    else [s[0]] + Without(s[1..], x)
  }

  /** Unlinking a node leaves every other slot where it was: in the list or not. */
  lemma {:induction false} WithoutKeepsOthers(s: seq<Slot>, x: Slot)
    ensures forall y :: y != x ==> (y in Without(s, x) <==> y in s)
  {
    if s != [] {
      assert s == [s[0]] + s[1..];
      WithoutKeepsOthers(s[1..], x);
    }
  }

  /** Unlinking a node of the list removes exactly one occurrence of its slot. */
  lemma {:induction false} WithoutRemovesOne(s: seq<Slot>, x: Slot)
    requires x in s
    ensures |Without(s, x)| == |s| - 1
    ensures multiset(Without(s, x)) == multiset(s) - multiset{x}
  {
    assert s == [s[0]] + s[1..];
    assert multiset(s) == multiset{s[0]} + multiset(s[1..]);
    if s[0] != x {
      WithoutRemovesOne(s[1..], x);
    }
  }

  /** Unlinking a node that does not occur earlier in the list removes exactly its position. */
  lemma {:induction false} WithoutAt(s: seq<Slot>, k: nat)
    requires k < |s| && s[k] !in s[..k]
    ensures Without(s, s[k]) == s[..k] + s[k + 1..]
  {
    if k == 0 {
      assert s[..0] + s[1..] == s[1..];
    } else {
      var tail := s[1..];
      var front := s[1..k];
      assert s[..k] == [s[0]] + front;
      assert tail[k - 1] == s[k] && tail[..k - 1] == front && tail[k..] == s[k + 1..];
      WithoutAt(tail, k - 1);
      assert [s[0]] + (front + s[k + 1..]) == ([s[0]] + front) + s[k + 1..];
    }
  }

  /** Unlinking a node that does not occur before the given position. */
  lemma WithoutMiddle(a: seq<Slot>, x: Slot, b: seq<Slot>)
    requires x !in a
    ensures Without(a + [x] + b, x) == a + b
  {
    var live := a + [x] + b;
    assert live[|a|] == x;
    assert live[..|a|] == a;
    WithoutAt(live, |a|);
    assert live[|a| + 1..] == b;
  }

  /** The slots of `s` that a traversal deciding by `del` leaves in the list, in list order. */
  function Kept(s: seq<Slot>, del: Slot -> bool): (r: seq<Slot>)
    decreases |s|
  {
    if s == [] then []
    else
      var last := s[|s| - 1];
      assert s == s[..|s| - 1] + [last];
      Kept(s[..|s| - 1], del) + (if del(last) then [] else [last])
  }

  /**
   * The slots of `s` that a traversal deciding by `del` moves to the idle
   * list: each is pushed onto the front as it is met, so the last one met
   * comes first.
   */
  function Deleted(s: seq<Slot>, del: Slot -> bool): (r: seq<Slot>)
    decreases |s|
  {
    if s == [] then []
    else
      var last := s[|s| - 1];
      assert s == s[..|s| - 1] + [last];
      (if del(last) then [last] else []) + Deleted(s[..|s| - 1], del)
  }

  /**
   * A traversal splits the list it walks: every slot is either kept or
   * deleted, according to `del`, and nothing else appears.
   */
  lemma {:induction false} KeptDeletedSplit(s: seq<Slot>, del: Slot -> bool)
    ensures forall x :: x in Kept(s, del) <==> x in s && !del(x)
    ensures forall x :: x in Deleted(s, del) <==> x in s && del(x)
    ensures multiset(Kept(s, del)) + multiset(Deleted(s, del)) == multiset(s)
    decreases |s|
  {
    if s != [] {
      var init := s[..|s| - 1];
      var last := s[|s| - 1];
      assert s == init + [last];
      KeptDeletedSplit(init, del);
    }
  }

  /** A traversal of two lists run back to back keeps and deletes what the two traversals do. */
  lemma {:induction false} KeptAppend(a: seq<Slot>, b: seq<Slot>, del: Slot -> bool)
    ensures Kept(a + b, del) == Kept(a, del) + Kept(b, del)
    ensures Deleted(a + b, del) == Deleted(b, del) + Deleted(a, del)
    decreases |b|
  {
    if b == [] {
      assert a + b == a;
    } else {
      var init := b[..|b| - 1];
      var last := b[|b| - 1];
      assert b == init + [last];
      assert a + b == (a + init) + [last];
      KeptAppend(a, init, del);
      KeptSnoc(a + init, last, del);
      KeptSnoc(init, last, del);
      var k := if del(last) then [] else [last];
      var d := if del(last) then [last] else [];
      assert (Kept(a, del) + Kept(init, del)) + k == Kept(a, del) + (Kept(init, del) + k);
      assert d + (Deleted(init, del) + Deleted(a, del)) == (d + Deleted(init, del)) + Deleted(a, del);
    }
  }

  /** Walking one more slot at the end keeps or deletes it, and changes nothing else. */
  lemma KeptSnoc(s: seq<Slot>, x: Slot, del: Slot -> bool)
    ensures Kept(s + [x], del) == Kept(s, del) + (if del(x) then [] else [x])
    ensures Deleted(s + [x], del) == (if del(x) then [x] else []) + Deleted(s, del)
  {
    assert (s + [x])[..|s|] == s;
  }

  /** A traversal that deletes nothing keeps the whole list. */
  lemma {:induction false} KeptNone(s: seq<Slot>, del: Slot -> bool)
    requires forall x :: x in s ==> !del(x)
    ensures Kept(s, del) == s && Deleted(s, del) == []
    decreases |s|
  {
    if s != [] {
      var init := s[..|s| - 1];
      assert s == init + [s[|s| - 1]];
      KeptNone(init, del);
    }
  }

  /** A traversal that deletes exactly the slot at position `p` keeps the others in order. */
  lemma KeptAllBut(s: seq<Slot>, p: nat, del: Slot -> bool)
    requires p < |s| && del(s[p])
    requires forall k :: 0 <= k < |s| && k != p ==> !del(s[k])
    ensures Kept(s, del) == s[..p] + s[p + 1..]
    ensures Deleted(s, del) == [s[p]]
  {
    var front, back := s[..p], s[p + 1..];
    assert forall y :: y in back ==> !del(y) by {
      forall y | y in back
        ensures !del(y)
      {
        var k :| 0 <= k < |back| && back[k] == y;
        assert s[p + 1 + k] == y;
      }
    }
    KeptAround(front, s[p], back, del);
    SplitAround(s, p);
  }

  /** A traversal of `front`, `x`, `back` that deletes `x` only. */
  lemma KeptAround(front: seq<Slot>, x: Slot, back: seq<Slot>, del: Slot -> bool)
    requires del(x)
    requires forall y :: y in front ==> !del(y)
    requires forall y :: y in back ==> !del(y)
    ensures Kept(front + [x] + back, del) == front + back
    ensures Deleted(front + [x] + back, del) == [x]
  {
    var fx := front + [x];
    assert Kept(fx, del) == front && Deleted(fx, del) == [x] by {
      KeptNone(front, del);
      KeptSingle(x, del);
      KeptAppend(front, [x], del);
      assert front + [] == front && [x] + [] == [x];
    }
    KeptNone(back, del);
    KeptAppend(fx, back, del);
    assert [] + [x] == [x];
  }

  /** A list cut around position `p`. */
  lemma SplitAround(s: seq<Slot>, p: nat)
    requires p < |s|
    ensures s == s[..p] + [s[p]] + s[p + 1..]
  {
  }

  /** A one-slot traversal deletes the slot when `del` holds of it. */
  lemma KeptSingle(x: Slot, del: Slot -> bool)
    ensures del(x) ==> Kept([x], del) == [] && Deleted([x], del) == [x]
  {
    assert [x][..0] == [];
    assert [x] + [] == [x];
  }

  /** The prefix of `s` one slot longer. */
  lemma PrefixSnoc(s: seq<Slot>, j: nat)
    requires j < |s|
    ensures s[..j + 1] == s[..j] + [s[j]]
  {
  }

  /** Visiting one more slot extends what is kept or what is deleted, and nothing else. */
  lemma VisitOne(s: seq<Slot>, j: nat, del: Slot -> bool)
    requires j < |s|
    ensures Kept(s[..j + 1], del) == Kept(s[..j], del) + (if del(s[j]) then [] else [s[j]])
    ensures Deleted(s[..j + 1], del) == (if del(s[j]) then [s[j]] else []) + Deleted(s[..j], del)
  {
    assert s[..j + 1][..j] == s[..j];
  }

  /** The cursor of a traversal that has walked `u[..j]` stands on `u[j]`. */
  lemma CursorAt(u: seq<Slot>, j: nat, del: Slot -> bool, live: seq<Slot>)
    requires j < |u| && live == Kept(u[..j], del) + u[j..]
    ensures |Kept(u[..j], del)| < |live| && live[|Kept(u[..j], del)|] == u[j]
  {
  }

  /** A traversal step that keeps the slot under the cursor: the cursor moves past it. */
  lemma KeepStep(u: seq<Slot>, j: nat, del: Slot -> bool)
    requires j < |u| && !del(u[j])
    ensures Kept(u[..j], del) + u[j..] == Kept(u[..j + 1], del) + u[j + 1..]
    ensures |Kept(u[..j + 1], del)| == |Kept(u[..j], del)| + 1
    ensures Deleted(u[..j + 1], del) == Deleted(u[..j], del)
  {
    VisitOne(u, j, del);
    assert u[j..] == [u[j]] + u[j + 1..];
  }

  /** A slot that occurs once in a list does not occur before that occurrence. */
  lemma OnceNotBefore(a: seq<Slot>, x: Slot, b: seq<Slot>)
    requires multiset(a + [x] + b)[x] == 1
    ensures x !in a
  {
    assert multiset(a + [x] + b) == multiset(a) + multiset{x} + multiset(b);
  }

  /** Unlinking the slot under the cursor of a traversal, past the slots `kept`, leaves the cursor on its successor. */
  lemma UnlinkAtCursor(kept: seq<Slot>, u: seq<Slot>, j: nat)
    requires j < |u|
    requires multiset(kept + u[j..])[u[j]] == 1
    ensures Without(kept + u[j..], u[j]) == kept + u[j + 1..]
  {
    assert u[j..] == [u[j]] + u[j + 1..];
    assert kept + u[j..] == kept + [u[j]] + u[j + 1..];
    OnceNotBefore(kept, u[j], u[j + 1..]);
    WithoutMiddle(kept, u[j], u[j + 1..]);
  }

  /**
   * A traversal step that deletes the slot under the cursor: what is kept
   * does not grow, and the slot goes to the front of what has been deleted.
   */
  lemma DelStep(u: seq<Slot>, j: nat, del: Slot -> bool)
    requires j < |u| && del(u[j])
    ensures Kept(u[..j + 1], del) == Kept(u[..j], del)
    ensures Deleted(u[..j + 1], del) == [u[j]] + Deleted(u[..j], del)
  {
    VisitOne(u, j, del);
    assert Kept(u[..j], del) + [] == Kept(u[..j], del);
  }

  /**
   * The idle and used lists together hold every slot below `n` exactly once
   * (and nothing else).
   */
  ghost predicate Partition(idle: seq<Slot>, used: seq<Slot>, n: nat) {
    multiset(idle + used) == multiset(Range(n))
  }

  /** A slot of a partition lies in exactly one of the two lists, and only once there. */
  lemma PartitionAt(idle: seq<Slot>, used: seq<Slot>, n: nat, x: Slot)
    requires Partition(idle, used, n)
    ensures multiset(idle)[x] + multiset(used)[x] == if x < n then 1 else 0
    ensures x < n <==> x in idle || x in used
    ensures !(x in idle && x in used)
  {
    RangeMultiplicity(n, x);
    assert multiset(idle + used) == multiset(idle) + multiset(used);
  }

  /** The two lists of a partition of `n` slots have `n` nodes between them. */
  lemma PartitionSize(idle: seq<Slot>, used: seq<Slot>, n: nat)
    requires Partition(idle, used, n)
    ensures |idle| + |used| == n
  {
    assert |multiset(idle + used)| == |idle + used|;
    assert |multiset(Range(n))| == |Range(n)|;
  }

  /** Every slot below `n` is in one of the two lists and no slot is in both. */
  lemma PartitionCovers(idle: seq<Slot>, used: seq<Slot>, n: nat)
    requires Partition(idle, used, n)
    ensures forall x: Slot :: x < n ==> x in idle || x in used
    ensures forall x :: x in idle ==> x < n && x !in used
    ensures forall x :: x in used ==> x < n
  {
    forall x: Slot {
      PartitionAt(idle, used, n, x);
    }
  }

  /** Moving a node from one list of a partition to the other keeps it a partition. */
  lemma MovePreservesPartition(idle: seq<Slot>, used: seq<Slot>, n: nat, x: Slot)
    requires Partition(idle, used, n)
    ensures x in idle ==> Partition(Without(idle, x), [x] + used, n) && |Without(idle, x)| == |idle| - 1
    ensures x in used ==> Partition([x] + idle, Without(used, x), n) && |Without(used, x)| == |used| - 1
  {
    if x in idle {
      WithoutRemovesOne(idle, x);
      MoveAcross(idle, used, Without(idle, x), x);
      assert multiset(idle + used) == multiset(idle) + multiset(used);
      assert multiset(Without(idle, x) + ([x] + used)) == multiset(Without(idle, x)) + multiset([x] + used);
    }
    if x in used {
      WithoutRemovesOne(used, x);
      MoveAcross(used, idle, Without(used, x), x);
      assert multiset(idle + used) == multiset(idle) + multiset(used);
      assert multiset([x] + idle + Without(used, x)) == multiset([x] + idle) + multiset(Without(used, x));
    }
  }

  /** Taking one occurrence of `x` out of `from` and putting it on `onto` keeps the multiset union. */
  lemma MoveAcross(from: seq<Slot>, onto: seq<Slot>, rest: seq<Slot>, x: Slot)
    requires x in from && multiset(rest) == multiset(from) - multiset{x}
    ensures multiset(rest) + multiset([x] + onto) == multiset(from) + multiset(onto)
  {
    assert multiset([x] + onto) == multiset{x} + multiset(onto);
    assert multiset(rest) + multiset{x} == multiset(from);
  }
}
