/** AVL insertion on values: trees with stored heights, rotations and the four cases. */
module AvlModel {

  datatype Tree = Leaf | Fork(left: Tree, val: int, height: nat, right: Tree)

  function Max(a: int, b: int): int { if a > b then a else b }

  /** Height */
  function Height(t: Tree): nat {
    if t.Leaf? then 0 else t.height
  }

  /** GetBalance */
  function Balance(t: Tree): int {
    if t.Leaf? then 0 else Height(t.left) - Height(t.right)
  }

  /** A node with its height computed from its children. */
  function Join(l: Tree, v: int, r: Tree): Tree {
    Fork(l, v, Max(Height(l), Height(r)) + 1, r)
  }

  /** LeftRotate */
  function RotateLeft(t: Tree): Tree
    requires t.Fork? && t.right.Fork?
  {
    Join(Join(t.left, t.val, t.right.left), t.right.val, t.right.right)
  }

  /** RightRotate */
  function RotateRight(t: Tree): Tree
    requires t.Fork? && t.left.Fork?
  {
    Join(t.left.left, t.left.val, Join(t.left.right, t.val, t.right))
  }

  /** The four cases after an insertion below a node, in the order they are tested. */
  function Rebalance(t: Tree): Tree
    requires t.Fork?
  {
    var b := Balance(t);
    if b > 1 && Balance(t.left) > 0 then RotateRight(t)
    else if b < -1 && Balance(t.right) < 0 then RotateLeft(t)
    else if b > 1 && Balance(t.left) < 0 then
      RotateRight(t.(left := RotateLeft(t.left)))
    else if b < -1 && Balance(t.right) > 0 then
      RotateLeft(t.(right := RotateRight(t.right)))
    else t
  }

  /** InsertNode */
  function Insert(t: Tree, v: int): (r: Tree)
    ensures r.Fork?
  {
    match t
    case Leaf => Fork(Leaf, v, 1, Leaf)
    case Fork(l, w, _, r) =>
      if v < w then Rebalance(Join(Insert(l, v), w, r))
      else if v > w then Rebalance(Join(l, w, Insert(r, v)))
      else t
  }

  // ---- What a tree should be ----

  function Keys(t: Tree): set<int> {
    if t.Leaf? then {} else Keys(t.left) + {t.val} + Keys(t.right)
  }

  ghost predicate Below(t: Tree, v: int) { forall k :: k in Keys(t) ==> k < v }

  ghost predicate Above(t: Tree, v: int) { forall k :: k in Keys(t) ==> k > v }

  ghost predicate Search(t: Tree) {
    t.Fork? ==> Search(t.left) && Search(t.right) && Below(t.left, t.val) && Above(t.right, t.val)
  }

  /** The longest path down. */
  function Depth(t: Tree): nat {
    if t.Leaf? then 0 else Max(Depth(t.left), Depth(t.right)) + 1
  }

  /** Stored heights are the real ones. */
  ghost predicate Exact(t: Tree) {
    t.Fork? ==> Exact(t.left) && Exact(t.right) && t.height == Max(Height(t.left), Height(t.right)) + 1
  }

  ghost predicate Balanced(t: Tree) {
    t.Fork? ==> Balanced(t.left) && Balanced(t.right) && -1 <= Balance(t) <= 1
  }

  ghost predicate Avl(t: Tree) {
    Search(t) && Exact(t) && Balanced(t)
  }

  lemma {:induction false} ExactDepth(t: Tree)
    requires Exact(t)
    ensures Height(t) == Depth(t)
  {
    if t.Fork? {
      ExactDepth(t.left);
      ExactDepth(t.right);
    }
  }

  // ---- Keys and order ----

  lemma ForkKeys(l: Tree, v: int, h: nat, r: Tree)
    ensures Keys(Fork(l, v, h, r)) == Keys(l) + {v} + Keys(r)
    ensures Search(Fork(l, v, h, r)) <==> Search(l) && Search(r) && Below(l, v) && Above(r, v)
  {
  }

  lemma ForkBounds(l: Tree, v: int, h: nat, r: Tree, k: int)
    ensures Below(Fork(l, v, h, r), k) <==> Below(l, k) && v < k && Below(r, k)
    ensures Above(Fork(l, v, h, r), k) <==> Above(l, k) && v > k && Above(r, k)
  {
    var t := Fork(l, v, h, r);
    assert Keys(t) == Keys(l) + {v} + Keys(r);
    assert v in Keys(t) && Keys(l) <= Keys(t) && Keys(r) <= Keys(t);
  }

  lemma BoundsChain(a: Tree, v: int, w: int, b: Tree)
    requires v < w
    ensures Below(a, v) ==> Below(a, w)
    ensures Above(b, w) ==> Above(b, v)
  {
  }

  /** Two keys around a middle tree: whichever of them is the root, the keys and the order are the same. */
  lemma Reassociate(a: Tree, v: int, g: nat, m: Tree, w: int, h: nat, b: Tree, i: nat, j: nat)
    ensures Keys(Fork(Fork(a, v, g, m), w, h, b)) == Keys(Fork(a, v, i, Fork(m, w, j, b)))
    ensures Search(Fork(Fork(a, v, g, m), w, h, b)) <==> Search(Fork(a, v, i, Fork(m, w, j, b)))
  {
    hide *;
    ForkKeys(a, v, g, m);
    ForkKeys(Fork(a, v, g, m), w, h, b);
    ForkKeys(m, w, j, b);
    ForkKeys(a, v, i, Fork(m, w, j, b));
    ForkBounds(a, v, g, m, w);
    ForkBounds(m, w, j, b, v);
    if v < w {
      BoundsChain(a, v, w, b);
    }
    assert Keys(a) + {v} + Keys(m) + {w} + Keys(b) == Keys(a) + {v} + (Keys(m) + {w} + Keys(b));
  }

  lemma RotateLeftKeeps(t: Tree)
    requires t.Fork? && t.right.Fork?
    ensures Keys(RotateLeft(t)) == Keys(t) && (Search(t) <==> Search(RotateLeft(t)))
  {
    hide Keys, Search;
    var r := RotateLeft(t);
    Reassociate(t.left, t.val, r.left.height, t.right.left, t.right.val, r.height, t.right.right, t.height, t.right.height);
  }

  lemma RotateRightKeeps(t: Tree)
    requires t.Fork? && t.left.Fork?
    ensures Keys(RotateRight(t)) == Keys(t) && (Search(t) <==> Search(RotateRight(t)))
  {
    hide Keys, Search;
    var r := RotateRight(t);
    Reassociate(t.left.left, t.left.val, t.left.height, t.left.right, t.val, t.height, t.right, r.height, r.right.height);
  }

  lemma ReplaceLeft(t: Tree, l: Tree)
    requires t.Fork? && Keys(l) == Keys(t.left) && (Search(t.left) ==> Search(l))
    ensures Keys(t.(left := l)) == Keys(t) && (Search(t) ==> Search(t.(left := l)))
  {
  }

  lemma ReplaceRight(t: Tree, r: Tree)
    requires t.Fork? && Keys(r) == Keys(t.right) && (Search(t.right) ==> Search(r))
    ensures Keys(t.(right := r)) == Keys(t) && (Search(t) ==> Search(t.(right := r)))
  {
  }

  lemma RebalanceKeeps(t: Tree)
    requires t.Fork?
    ensures Keys(Rebalance(t)) == Keys(t) && (Search(t) ==> Search(Rebalance(t)))
  {
    hide Keys, Search, RotateLeft, RotateRight;
    if t.left.Fork? {
      RotateRightKeeps(t);
      if t.left.right.Fork? {
        RotateLeftKeeps(t.left);
        ReplaceLeft(t, RotateLeft(t.left));
        RotatedIsFork(t.left);
        RotateRightKeeps(t.(left := RotateLeft(t.left)));
      }
    }
    if t.right.Fork? {
      RotateLeftKeeps(t);
      if t.right.left.Fork? {
        RotateRightKeeps(t.right);
        ReplaceRight(t, RotateRight(t.right));
        RotatedIsFork(t.right);
        RotateLeftKeeps(t.(right := RotateRight(t.right)));
      }
    }
  }

  lemma RotatedIsFork(t: Tree)
    ensures t.Fork? && t.right.Fork? ==> RotateLeft(t).Fork?
    ensures t.Fork? && t.left.Fork? ==> RotateRight(t).Fork?
  {
  }

  /** Insertion adds the key and keeps the order, balanced or not. */
  lemma {:induction false} InsertKeys(t: Tree, v: int)
    ensures Keys(Insert(t, v)) == Keys(t) + {v}
    ensures Search(t) ==> Search(Insert(t, v))
  {
    hide Rebalance;
    match t
    case Leaf =>
    case Fork(l, w, _, r) =>
      InsertKeys(l, v);
      InsertKeys(r, v);
      if v < w {
        RebalanceKeeps(Join(Insert(l, v), w, r));
      } else if v > w {
        RebalanceKeeps(Join(l, w, Insert(r, v)));
      } else {
        assert v in Keys(t);
      }
  }

  // ---- Heights and balance ----

  /** Whenever a node is out of balance after an insertion below it, one of the four rotation cases applies. */
  predicate CaseApplies(t: Tree)
    requires t.Fork?
  {
    || (Balance(t) > 1 && Balance(t.left) > 0)
    || (Balance(t) < -1 && Balance(t.right) < 0)
    || (Balance(t) > 1 && Balance(t.left) < 0)
    || (Balance(t) < -1 && Balance(t.right) > 0)
  }

  /** A left side grown by one: the rotation restores balance at the height the node had before. */
  lemma LeftGrown(l: Tree, v: int, r: Tree)
    requires Exact(l) && Balanced(l) && Exact(r) && Balanced(r)
    requires Height(l) == Height(r) + 2 && Balance(l) != 0
    ensures var t := Join(l, v, r);
            CaseApplies(t) && Exact(Rebalance(t)) && Balanced(Rebalance(t)) && Height(Rebalance(t)) == Height(r) + 2
  {
  }

  lemma RightGrown(l: Tree, v: int, r: Tree)
    requires Exact(l) && Balanced(l) && Exact(r) && Balanced(r)
    requires Height(r) == Height(l) + 2 && Balance(r) != 0
    ensures var t := Join(l, v, r);
            CaseApplies(t) && Exact(Rebalance(t)) && Balanced(Rebalance(t)) && Height(Rebalance(t)) == Height(l) + 2
  {
  }

  lemma StillBalanced(l: Tree, v: int, r: Tree)
    requires Exact(l) && Balanced(l) && Exact(r) && Balanced(r) && -1 <= Height(l) - Height(r) <= 1
    ensures var t := Join(l, v, r);
            Rebalance(t) == t && Exact(t) && Balanced(t) && Height(t) == Max(Height(l), Height(r)) + 1
  {
  }

  /** What insertion does to a balanced tree: balanced again, exact, and at most one higher; a tree that grew
      leans to one side, unless it was empty. */
  ghost predicate Grown(t: Tree, r: Tree) {
    && Exact(r) && Balanced(r)
    && Height(t) <= Height(r) <= Height(t) + 1
    && (Height(r) == Height(t) + 1 && t.Fork? ==> Balance(r) != 0)
  }

  lemma {:induction false} InsertGrows(t: Tree, v: int)
    requires Exact(t) && Balanced(t)
    ensures Grown(t, Insert(t, v))
  {
    hide Rebalance;
    match t
    case Leaf =>
    case Fork(l, w, _, r) =>
      if v < w {
        InsertGrows(l, v);
        GrowLeft(t, Insert(l, v));
      } else if v > w {
        InsertGrows(r, v);
        GrowRight(t, Insert(r, v));
      }
  }

  lemma GrowLeft(t: Tree, l: Tree)
    requires t.Fork? && Exact(t) && Balanced(t) && Grown(t.left, l) && l.Fork?
    ensures Grown(t, Rebalance(Join(l, t.val, t.right)))
    ensures !(-1 <= Balance(Join(l, t.val, t.right)) <= 1) ==> CaseApplies(Join(l, t.val, t.right))
  {
    if Height(l) == Height(t.right) + 2 {
      LeftGrown(l, t.val, t.right);
    } else {
      StillBalanced(l, t.val, t.right);
    }
  }

  lemma GrowRight(t: Tree, r: Tree)
    requires t.Fork? && Exact(t) && Balanced(t) && Grown(t.right, r) && r.Fork?
    ensures Grown(t, Rebalance(Join(t.left, t.val, r)))
    ensures !(-1 <= Balance(Join(t.left, t.val, r)) <= 1) ==> CaseApplies(Join(t.left, t.val, r))
  {
    if Height(r) == Height(t.left) + 2 {
      RightGrown(t.left, t.val, r);
    } else {
      StillBalanced(t.left, t.val, r);
    }
  }

  /** For every balanced search tree and key. */
  lemma InsertAvl(t: Tree, v: int)
    requires Avl(t)
    ensures Avl(Insert(t, v)) && Keys(Insert(t, v)) == Keys(t) + {v}
    ensures Depth(t) <= Depth(Insert(t, v)) <= Depth(t) + 1
    ensures Height(Insert(t, v)) == Depth(Insert(t, v))
  {
    InsertKeys(t, v);
    InsertGrows(t, v);
    ExactDepth(t);
    ExactDepth(Insert(t, v));
  }
}
