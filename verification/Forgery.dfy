/** What Merkle proofs of the wrong length can show about a list of ids: exactly when an id that is
    not in the list, or not at the claimed position, can be proved. */
module Forgery {
  import opened Arith
  import opened Hashing
  import opened Merkle

  function Size(h: H256): nat {
    match h
    case OfPair(l, r) => 1 + Size(l) + Size(r)
    case _ => 1
  }

  /** Some node below the root, on the path of `pos`, is `x`. */
  ghost predicate Below(root: H256, pos: nat, x: H256) {
    exists k: nat :: k > 0 && NodeAt(root, pos, k) == Some(x)
  }

  /** Some proof shows `x` at position `pos` of the tree over `s`. */
  ghost predicate Shows(s: seq<H256>, pos: nat, x: H256)
    requires s != []
  {
    Below(MerkleRoot(s), pos, x)
  }

  /** An item is the hash of a pair with a part that is not an item. */
  ghost predicate HasOpenPair(s: seq<H256>) {
    exists t :: t in s && t.OfPair? && (t.left !in s || t.right !in s)
  }

  // ---- ids that are not in the list ----

  /** Above two items, every item is smaller than the larger child of the root. */
  lemma {:induction false} ItemsBelowRoot(s: seq<H256>)
    requires |s| > 2
    ensures MerkleRoot(s).OfPair?
    ensures var root := MerkleRoot(s);
            forall t :: t in s ==> Size(t) < Max(Size(root.left), Size(root.right))
    decreases |s|
  {
    var up, root := NextLevel(s), MerkleRoot(s);
    if |up| > 2 {
      ItemsBelowRoot(up);
    } else {
      PairRoot(up);
    }
    forall t | t in s ensures Size(t) < Max(Size(root.left), Size(root.right)) {
      var n := ParentOf(s, t);
    }
  }

  lemma ParentOf(s: seq<H256>, t: H256) returns (n: H256)
    requires t in s
    ensures n in NextLevel(s) && Size(t) < Size(n)
  {
    var j :| 0 <= j < |s| && s[j] == t;
    LevelParent(s, j);
    n := NextLevel(s)[j / 2];
  }

  lemma PairRoot(s: seq<H256>)
    requires |s| == 2
    ensures MerkleRoot(s) == OfPair(s[0], s[1])
  {
    assert NextLevel(s)[0] == OfPair(s[0], s[1]);
  }

  lemma OneStep(h: H256, pos: nat)
    requires h.OfPair? && pos < 2
    ensures NodeAt(h, pos, 1) == Some(if pos == 0 then h.left else h.right)
  {
  }

  /** An item that is a pair has its children one level further down. */
  lemma BelowItem(s: seq<H256>, j: nat, right: bool)
    requires j < |s| && s[j].OfPair?
    ensures Below(MerkleRoot(s), 2 * j + (if right then 1 else 0), if right then s[j].right else s[j].left)
  {
    ProofComplete(s, j);
    RootLeadsBack(s[j], j, Proof(s, j).value);
    ChildBelow(MerkleRoot(s), j, Depth(|s|), s[j], right);
  }

  lemma ChildBelow(root: H256, pos: nat, k: nat, t: H256, right: bool)
    requires NodeAt(root, pos, k) == Some(t) && t.OfPair?
    ensures Below(root, 2 * pos + (if right then 1 else 0), if right then t.right else t.left)
  {
    var next := 2 * pos + if right then 1 else 0;
    assert next / 2 == pos && next % 2 == if right then 1 else 0;
    assert NodeAt(root, next, k + 1) == Some(if right then t.right else t.left);
  }

  lemma ForeignNode(s: seq<H256>) returns (pos: nat, x: H256)
    requires |s| > 0 && (|s| > 2 || HasOpenPair(s))
    ensures pos < 4 && x !in s && Below(MerkleRoot(s), pos, x)
  {
    var root := MerkleRoot(s);
    if |s| > 2 {
      ItemsBelowRoot(s);
      pos := if Size(root.left) >= Size(root.right) then 0 else 1;
      OneStep(root, pos);
      x := NodeAt(root, pos, 1).value;
    } else {
      var t :| t in s && t.OfPair? && (t.left !in s || t.right !in s);
      var j :| 0 <= j < |s| && s[j] == t;
      BelowItem(s, j, t.left in s);
      pos, x := 2 * j + (if t.left in s then 1 else 0), if t.left in s then t.right else t.left;
    }
  }

  lemma {:induction false} ShortListsAreClosed(s: seq<H256>, pos: nat, k: nat)
    requires 0 < |s| <= 2 && !HasOpenPair(s) && k > 0 && NodeAt(MerkleRoot(s), pos, k).Some?
    ensures NodeAt(MerkleRoot(s), pos, k).value in s
    decreases k
  {
    var up := NodeAt(MerkleRoot(s), pos / 2, k - 1).value;
    if k > 1 {
      ShortListsAreClosed(s, pos / 2, k - 1);
    } else if |s| == 2 {
      PairRoot(s);
    }
  }

  /** An id outside the list can be proved, at some position, if and only if the list has more than
      two items or an item that is a pair with a part that is not an item; four positions are enough
      for it. */
  lemma ForeignIff(s: seq<H256>, limit: nat)
    requires |s| > 0 && limit >= 4
    ensures (exists x: H256, pos: nat :: pos < limit && x !in s && Shows(s, pos, x))
            <==> |s| > 2 || HasOpenPair(s)
  {
    if |s| > 2 || HasOpenPair(s) {
      var pos, x := ForeignNode(s);
      assert pos < limit && x !in s && Shows(s, pos, x);
    }
    if x: H256, pos: nat :| pos < limit && x !in s && Shows(s, pos, x) {
      var k: nat :| k > 0 && NodeAt(MerkleRoot(s), pos, k) == Some(x);
      if |s| <= 2 && !HasOpenPair(s) {
        ShortListsAreClosed(s, pos, k);
      }
    }
  }

  // ---- ids at another position than claimed ----

  lemma WrongNode(s: seq<H256>) returns (x: H256)
    requires |s| > 0 && (|s| > 2 || s[0].OfPair?)
    ensures x != s[0] && Below(MerkleRoot(s), 0, x)
  {
    var k: nat := if |s| > 2 then 1 else Depth(|s|) + 1;
    TreeLeftDepth(s);
    LeftNodes(MerkleRoot(s), k);
    x := NodeAt(MerkleRoot(s), 0, k).value;
  }

  lemma ShortListsAreRight(s: seq<H256>, i: nat, k: nat)
    requires i < |s| <= 2 && !s[0].OfPair? && k > 0 && NodeAt(MerkleRoot(s), i, k).Some?
    ensures NodeAt(MerkleRoot(s), i, k) == Some(s[i])
  {
    TreeLeftDepth(s);
    LeftNodes(MerkleRoot(s), k - 1);
    if |s| == 2 {
      PairRoot(s);
      if k == 1 {
        OneStep(MerkleRoot(s), i);
      }
    }
  }

  /** An id other than the one at a claimed position of the list can be proved if and only if the
      list has more than two items or its first item is the hash of a pair. */
  lemma MismatchIff(s: seq<H256>)
    requires |s| > 0
    ensures (exists x: H256, i: nat :: i < |s| && x != s[i] && Shows(s, i, x))
            <==> |s| > 2 || s[0].OfPair?
  {
    if |s| > 2 || s[0].OfPair? {
      var x := WrongNode(s);
      assert x != s[0] && Shows(s, 0, x);
    }
    if x: H256, i: nat :| i < |s| && x != s[i] && Shows(s, i, x) {
      var k: nat :| k > 0 && NodeAt(MerkleRoot(s), i, k) == Some(x);
      if |s| <= 2 && !s[0].OfPair? {
        ShortListsAreRight(s, i, k);
      }
    }
  }
}
