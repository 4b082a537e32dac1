/** The AVL tree as linked nodes: rotations relink in place, insertion recurses and rewrites heights. */
module AvlTree {
  import opened AvlModel

  class Node {
    var val: int
    var height: nat
    var left: Node?
    var right: Node?
    ghost var Repr: set<Node>
    ghost var shape: Tree

    /** The links form a tree: the two sides share no node, and `shape` is that tree as a value. */
    ghost predicate Valid()
      reads this, Repr
      decreases Repr
    {
      && this in Repr
      && (left != null ==> left in Repr && left.Repr <= Repr && this !in left.Repr && left.Valid())
      && (right != null ==> right in Repr && right.Repr <= Repr && this !in right.Repr && right.Valid())
      && (left != null && right != null ==> left.Repr !! right.Repr)
      && Repr == {this} + (if left == null then {} else left.Repr) + (if right == null then {} else right.Repr)
      && shape == Fork(if left == null then Leaf else left.shape, val, height,
                       if right == null then Leaf else right.shape)
    }

    /** CreateNode */
    constructor (v: int)
      ensures Valid() && Repr == {this} && shape == Fork(Leaf, v, 1, Leaf)
    {
      val, height, left, right := v, 1, null, null;
      Repr, shape := {this}, Fork(Leaf, v, 1, Leaf);
    }

    /** Bring the ghost view up to date with the links. */
    ghost method Refresh()
      requires left != null ==> left.Valid() && this !in left.Repr
      requires right != null ==> right.Valid() && this !in right.Repr
      requires left != null && right != null ==> left.Repr !! right.Repr
      modifies this`Repr, this`shape
      ensures Valid() && Repr == {this} + Footprint(left) + Footprint(right)
      ensures shape == Fork(Shape(left), val, height, Shape(right))
    {
      Repr := {this} + Footprint(left) + Footprint(right);
      shape := Fork(Shape(left), val, height, Shape(right));
    }
  }

  ghost function Footprint(n: Node?): set<Node>
    reads n
  {
    if n == null then {} else n.Repr
  }

  ghost function Shape(n: Node?): Tree
    reads n
  {
    if n == null then Leaf else n.shape
  }

  ghost predicate Linked(n: Node?)
    reads n, Footprint(n)
  {
    n != null ==> n.Valid()
  }

  /** One node opened up. */
  lemma Opened(n: Node)
    requires n.Valid()
    ensures n in n.Repr && Linked(n.left) && Linked(n.right)
    ensures Footprint(n.left) <= n.Repr && Footprint(n.right) <= n.Repr && Footprint(n.left) !! Footprint(n.right)
    ensures n !in Footprint(n.left) && n !in Footprint(n.right)
    ensures n.Repr == {n} + Footprint(n.left) + Footprint(n.right)
    ensures n.shape == Fork(Shape(n.left), n.val, n.height, Shape(n.right))
    ensures n.left != null <==> n.shape.left.Fork?
    ensures n.right != null <==> n.shape.right.Fork?
    ensures n.left != null ==> n.left in n.left.Repr
    ensures n.right != null ==> n.right in n.right.Repr
  {
  }

  lemma OwnsItself(n: Node?)
    requires Linked(n)
    ensures n != null ==> n in n.Repr
  {
  }

  /** Height */
  method HeightOf(n: Node?) returns (h: nat)
    requires Linked(n)
    ensures h == Height(Shape(n))
  {
    if n == null {
      h := 0;
    } else {
      h := n.height;
    }
  }

  method GetBalance(n: Node?) returns (b: int)
    requires Linked(n)
    ensures b == Balance(Shape(n))
  {
    if n == null {
      b := 0;
    } else {
      var l: int := HeightOf(n.left);
      var r: int := HeightOf(n.right);
      b := l - r;
    }
  }

  /** The height of a node from those of its children, as every caller rewrites it. */
  method UpdateHeight(n: Node)
    requires Linked(n.left) && Linked(n.right) && n !in Footprint(n.left) && n !in Footprint(n.right)
    requires Footprint(n.left) !! Footprint(n.right)
    modifies n`height, n`Repr, n`shape
    ensures n.Valid() && n.Repr == {n} + Footprint(n.left) + Footprint(n.right)
    ensures n.shape == Join(Shape(n.left), n.val, Shape(n.right))
  {
    hide Node.Valid;
    OwnsItself(n.left);
    OwnsItself(n.right);
    var a := HeightOf(n.left);
    var b := HeightOf(n.right);
    n.height := Max(a, b) + 1;
    n.Refresh();
  }

  /** LeftRotate: the right child becomes the root of the same nodes. */
  method LeftRotate(n: Node) returns (r: Node)
    requires n.Valid() && n.shape.right.Fork?
    modifies n.Repr
    ensures r.Valid() && r.Repr == old(n.Repr)
    ensures r == old(n.right) && r.left == n
    ensures r.shape == RotateLeft(old(n.shape))
  {
    hide Node.Valid;
    Opened(n);
    r := n.right;
    Opened(r);
    var t2 := r.left;
    r.left := n;
    n.right := t2;
    UpdateHeight(n);
    UpdateHeight(r);
  }

  /** RightRotate: the left child becomes the root of the same nodes. */
  method RightRotate(n: Node) returns (r: Node)
    requires n.Valid() && n.shape.left.Fork?
    modifies n.Repr
    ensures r.Valid() && r.Repr == old(n.Repr)
    ensures r == old(n.left) && r.right == n
    ensures r.shape == RotateRight(old(n.shape))
  {
    hide Node.Valid;
    Opened(n);
    r := n.left;
    Opened(r);
    var t2 := r.right;
    r.right := n;
    n.left := t2;
    UpdateHeight(n);
    UpdateHeight(r);
  }

  /** InsertNode after the recursive call: the height, then the four rotation cases. */
  method Settle(n: Node) returns (r: Node)
    requires Linked(n.left) && Linked(n.right) && n !in Footprint(n.left) && n !in Footprint(n.right)
    requires Footprint(n.left) !! Footprint(n.right)
    modifies n, Footprint(n.left), Footprint(n.right)
    ensures r.Valid() && r.Repr == old({n} + Footprint(n.left) + Footprint(n.right))
    ensures r.shape == Rebalance(old(Join(Shape(n.left), n.val, Shape(n.right))))
  {
    hide Node.Valid;
    UpdateHeight(n);
    Opened(n);
    var balance := GetBalance(n);
    var leans := GetBalance(n.left);
    if balance > 1 && leans > 0 {
      r := RightRotate(n);
      return;
    }
    var tilts := GetBalance(n.right);
    if balance < -1 && tilts < 0 {
      r := LeftRotate(n);
      return;
    }
    if balance > 1 && leans < 0 {
      var l := LeftRotate(n.left);
      n.left := l;
      n.Refresh();
      r := RightRotate(n);
      return;
    }
    if balance < -1 && tilts > 0 {
      var l := RightRotate(n.right);
      n.right := l;
      n.Refresh();
      r := LeftRotate(n);
      return;
    }
    r := n;
  }

  /** InsertNode: relinks the nodes in place, and keeps every one of them. */
  method InsertNode(n: Node?, v: int) returns (r: Node)
    requires Linked(n)
    modifies Footprint(n)
    ensures r.Valid() && old(Footprint(n)) <= r.Repr && fresh(r.Repr - old(Footprint(n)))
    ensures r.shape == Insert(old(Shape(n)), v)
    decreases Shape(n)
  {
    if n == null {
      r := new Node(v);
      return;
    }
    hide Node.Valid;
    Opened(n);
    if v < n.val {
      var l := InsertNode(n.left, v);
      n.left := l;
      r := Settle(n);
    } else if v > n.val {
      var l := InsertNode(n.right, v);
      n.right := l;
      r := Settle(n);
    } else {
      r := n;
    }
  }
}
