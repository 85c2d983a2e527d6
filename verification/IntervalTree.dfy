/** The parent-linked AVL tree of free intervals, updated in place. */
module IntervalTrees {
  import opened IntervalTreeShape

  datatype ChildDirection = Invalid | Left | Right

  datatype RotationDirection = Clockwise | AntiClockwise

  class Node {
    var parent: Node?
    var left: Node?
    var right: Node?
    var height: int
    var key: nat
    var interval: Interval

    constructor (interval: Interval)
      ensures parent == null && left == null && right == null
      ensures height == 1 && key == interval.first && this.interval == interval
    {
      parent, left, right := null, null, null;
      height := 1;
      key := interval.first;
      this.interval := interval;
    }
  }

  ghost function Top(t: Tree<Node>): Node? {
    if t.Leaf? then null else t.node
  }

  /** The parent of the hole. */
  ghost function Focus(p: Path<Node>): Node? {
    if p.Root? then null else p.node
  }

  /** The node the tree hangs from. */
  ghost function Base(p: Path<Node>, hole: Node?): Node? {
    if p.Root? then hole else Base(p.up, p.node)
  }

  ghost predicate Holds(n: Node, parent: Node?, left: Node?, right: Node?, height: int, item: Item)
    reads n
  {
    n.parent == parent && n.left == left && n.right == right && n.height == height &&
    n.key == item.key && n.interval == item.interval
  }

  /** The nodes of `t` hold exactly what `t` says, and every child points back to its parent. */
  ghost predicate Linked(t: Tree<Node>, parent: Node?)
    reads Nodes(t)
  {
    t.Branch? ==>
      && Holds(t.node, parent, Top(t.left), Top(t.right), t.height, t.item)
      && Linked(t.left, t.node) && Linked(t.right, t.node)
  }

  ghost predicate LinkedPath(p: Path<Node>, hole: Node?)
    reads PathNodes(p)
  {
    match p
    case Root => true
    case InLeft(up, n, h, it, r) =>
      Holds(n, Focus(up), hole, Top(r), h, it) && Linked(r, n) && LinkedPath(up, n)
    case InRight(up, l, n, h, it) =>
      Holds(n, Focus(up), Top(l), hole, h, it) && Linked(l, n) && LinkedPath(up, n)
  }

  lemma {:induction false} LinkedPlug(p: Path<Node>, t: Tree<Node>)
    ensures Linked(Plug(p, t), null) <==> LinkedPath(p, Top(t)) && Linked(t, Focus(p))
    ensures Top(Plug(p, t)) == Base(p, Top(t))
  {
    if !p.Root? {
      LinkedPlug(p.up, Fill(p, t));
    }
  }

  class IntervalTree {
    var root: Node?
    var size: nat
    ghost var tree: Tree<Node>
    ghost var nodes: set<Node>

    /** Linked both ways, balanced with exact heights, sorted by key, and counted. */
    ghost predicate Valid()
      reads this, nodes
    {
      nodes == Nodes(tree) && At(Root, tree) && Avl(tree) && Sorted(Contents()) && size == |Contents()|
    }

    /** The in-order traversal: which node carries which interval, by increasing key. */
    ghost function Contents(): seq<Entry<Node>>
      reads this
    {
      Entries(tree)
    }

    /** The size grows exponentially with the height kept at the root. */
    lemma HeightBound()
      requires Valid()
      ensures root == null <==> size == 0
      ensures root != null ==> root.height == Height(tree) >= 1 && Fib(root.height + 2) <= size + 1
    {
      AvlSize(tree);
      if tree.Branch? { AvlSize(tree.left); }
    }

    constructor (rootTree: Node)
      requires rootTree.parent == null && rootTree.left == null && rootTree.right == null && rootTree.height == 1
      ensures Valid()
      ensures Contents() == [Entry(rootTree, Item(rootTree.key, rootTree.interval))] && nodes == {rootTree}
    {
      root := rootTree;
      size := 1;
      tree := Branch(Leaf, rootTree, 1, Item(rootTree.key, rootTree.interval), Leaf);
      nodes := {rootTree};
      new;
      assert Entries(tree) == [] + [Entry(rootTree, tree.item)] + [];
      assert Nodes(tree) == {rootTree};
    }

    /** Take a new snapshot as the tree this object stands for. */
    ghost method Adopt(whole: Tree<Node>)
      requires At(Root, whole)
      modifies this`tree, this`nodes
      ensures tree == whole && nodes == Nodes(whole) && At(Root, whole)
    {
      tree, nodes := whole, Nodes(whole);
    }

    /** Insert a freshly initialised node. A key that is already there is an error: the
        program reports it and the tree keeps its contents. */
    method Insert(node: Node) returns (ok: bool)
      requires Valid() && root != null && node !in nodes
      requires node.left == null && node.right == null && node.height == 1
      modifies this, nodes, node
      ensures ok == !HasKey(old(Contents()), old(node.key)) && size == old(size) + 1
      ensures ok ==> Valid() && root != null
      ensures nodes == Nodes(tree) && At(Root, tree) && Avl(tree)
      ensures Contents() == if ok then Inserted(old(Contents()), Entry(node, Item(old(node.key), old(node.interval))))
                            else old(Contents())
      ensures nodes == old(nodes) + if ok then {node} else {}
    {
      size := size + 1;
      ghost var e := Entry(node, Item(node.key, node.interval));
      ghost var whole;
      ok, whole := InsertInTree(node, root, tree, Root, tree);
      if ok {
        InsertedKeeps(Contents(), e);
      }
      Adopt(whole);
    }

    /** Write new bounds straight into a node, as the queue model does. Sound as long as the new
        key keeps its place in the order. */
    method Rewrite(node: Node, interval: Interval, ghost i: nat)
      requires Valid() && i < |Contents()| && Contents()[i].node == node
      requires Sorted(Contents()[i := Entry(node, Item(interval.first, interval))])
      modifies this`tree, this`nodes, node
      ensures Valid() && nodes == old(nodes)
      ensures Contents() == old(Contents())[i := Entry(node, Item(interval.first, interval))]
    {
      ghost var it := Item(interval.first, interval);
      ghost var a, e, b := Contents()[..i], Contents()[i], Contents()[i + 1..];
      assert Contents() == a + [e] + b;
      ghost var p, s := Reassign(tree, a, e, b, it);
      AtPlug(p, s);
      node.interval := interval;
      node.key := interval.first;
      assert At(p, s.(item := it));
      AtPlug(p, s.(item := it));
      Adopt(Plug(p, s.(item := it)));
      assert a + [Entry(node, it)] + b == (a + [e] + b)[i := Entry(node, it)];
    }

    /** Remove the interval of `node`. The node handed back carries that interval and is no
        longer linked; it is `node` itself unless `node` had two children. */
    method Remove(node: Node) returns (removed: Node, ghost i: nat)
      requires Valid() && node in nodes
      modifies this, nodes
      ensures Valid()
      ensures i < |old(Contents())| && old(Contents())[i].node == node
      ensures Removed(Contents(), old(Contents())[..i], old(Contents())[i + 1..])
      ensures Item(removed.key, removed.interval) == old(Contents())[i].item
      ensures removed in old(nodes) && nodes == old(nodes) - {removed}
      ensures size == old(size) - 1
    {
      ghost var before, p, t := Contents(), Root, Leaf;
      p, t, i := Find(tree, node);
      AtPlug(p, t);
      size := size - 1;
      ghost var whole;
      removed, whole := RemoveFromTree(node, tree, p, t);
      RemovedSorted(before, i, Entries(whole));
      Adopt(whole);
    }

    /** `t` hangs in the hole of `p`, nothing is shared, and `root` is the base of the whole. */
    ghost predicate At(p: Path<Node>, t: Tree<Node>)
      reads this, PathNodes(p), Nodes(t)
    {
      && PathDistinct(p) && Distinct(t) && PathNodes(p) !! Nodes(t)
      && LinkedPath(p, Top(t)) && Linked(t, Focus(p))
      && root == Base(p, Top(t))
    }

    method UpdateParentPointer(node: Node?, parentNode: Node?)
      modifies this`root, (if node == null then {} else {node})`parent
      ensures node != null ==> node.parent == parentNode
      ensures root == if parentNode == null then node else old(root)
    {
      if node != null {
        node.parent := parentNode;
      }
      if parentNode == null {
        root := node;
      }
    }

    static method UpdateChildPointer(node: Node?, childNode: Node?, direction: ChildDirection)
      requires node != null && direction == Invalid ==> childNode != null
      modifies (if node == null then {} else {node})`left, (if node == null then {} else {node})`right
      ensures node != null ==>
                var toRight := direction == Right || (direction == Invalid && node.key < childNode.key);
                node.right == (if toRight then childNode else old(node.right)) &&
                node.left == (if toRight then old(node.left) else childNode)
    {
      if node != null {
        match direction
        case Invalid =>
          if node.key < childNode.key {
            node.right := childNode;
          } else {
            node.left := childNode;
          }
        case Left => node.left := childNode;
        case Right => node.right := childNode;
      }
    }

    static function GetHeight(n: Node?): int
      reads n
    {
      if n == null then 0 else n.height
    }

    static method UpdateHeight(node: Node)
      modifies node`height
      ensures node.height == Max(old(GetHeight(node.left)), old(GetHeight(node.right))) + 1
    {
      node.height := Max(GetHeight(node.left), GetHeight(node.right)) + 1;
    }

    static predicate HeightBalanced(node: Node)
      reads node, node.left, node.right
    {
      Abs(GetHeight(node.left) - GetHeight(node.right)) <= 1
    }

    /** The pair of pointer updates by which rotations and removals hang `child` under `parent`.
        With direction `Invalid` the side is chosen by comparing keys. */
    method Reattach(parent: Node?, child: Node?, direction: ChildDirection, ghost p: Path<Node>, ghost hole: Node?)
      requires LinkedPath(p, hole) && PathDistinct(p) && parent == Focus(p) && root == Base(p, hole)
      requires child != null ==> child !in PathNodes(p)
      requires !p.Root? ==>
                 match direction
                 case Invalid => child != null && (p.InRight? <==> p.item.key < child.key)
                 case Left => p.InLeft?
                 case Right => p.InRight?
      modifies this`root, (if child == null then {} else {child})`parent
      modifies (if p.Root? then {} else {p.node})`left, (if p.Root? then {} else {p.node})`right
      ensures LinkedPath(p, child) && root == Base(p, child)
      ensures child != null ==> child.parent == Focus(p)
    {
      assert allocated(PathNodes(p));
      UpdateParentPointer(child, parent);
      UpdateChildPointer(parent, child, direction);
    }

    method PerformRotation(y: Node, direction: RotationDirection, ghost p: Path<Node>, ghost t: Tree<Node>)
      requires At(p, t) && t.Branch? && y == t.node
      requires direction == Clockwise ==> t.left.Branch?
      requires direction == AntiClockwise ==> t.right.Branch?
      requires Sorted(Entries(Plug(p, t)))
      modifies this`root, PathNodes(p), Nodes(t)
      ensures At(p, if direction == Clockwise then RotateClockwise(t) else RotateAntiClockwise(t))
    {
      if direction == Clockwise {
        LiftLeftChild(y, p, t);
      } else {
        LiftRightChild(y, p, t);
      }
    }

    /** The rest of a rotation, once `x` hangs where `y` was: `y` takes over the inner
        subtree `b` of `x` and becomes a child of `x`. */
    method LowerLeft(y: Node, x: Node, ghost a: Tree<Node>, ghost b: Tree<Node>, ghost d: Tree<Node>)
      requires x != y && {x, y} !! Nodes(a) && {x, y} !! Nodes(b) && {x, y} !! Nodes(d)
      requires Nodes(a) !! Nodes(b) && Nodes(b) !! Nodes(d) && Distinct(b)
      requires x.left == Top(a) && x.right == Top(b) && y.right == Top(d)
      requires Linked(a, x) && Linked(b, x) && Linked(d, y)
      modifies x`right, x`height, y`left, y`parent, y`height, (if b.Branch? then {b.node} else {})`parent
      ensures Linked(a, x) && Linked(b, y) && Linked(d, y)
      ensures x.right == y && y.left == Top(b) && y.parent == x
      ensures y.height == Max(Height(b), Height(d)) + 1
      ensures x.height == Max(Height(a), y.height) + 1
    {
      y.left := x.right;
      if y.left != null {
        y.left.parent := y;
      }
      assert Linked(b, y);
      x.right := y;
      y.parent := x;
      y.height := Max(GetHeight(y.left), GetHeight(y.right)) + 1;
      x.height := Max(GetHeight(x.left), GetHeight(x.right)) + 1;
    }

    method LiftLeftChild(y: Node, ghost p: Path<Node>, ghost t: Tree<Node>)
      requires At(p, t) && t.Branch? && t.left.Branch? && y == t.node
      requires Sorted(Entries(Plug(p, t)))
      modifies this`root, PathNodes(p), Nodes(t)
      ensures At(p, RotateClockwise(t))
    {
      var x := y.left;
      ClockwiseKeeps(t);
      assert Linked(t.left, y) && Distinct(t.left);
      assert allocated(PathNodes(p)) && allocated(Nodes(t));
      ChildSide(p, t, t.left);
      Reattach(y.parent, x, Invalid, p, y);
      assert Linked(t.left.left, x) && Linked(t.left.right, x) && Linked(t.right, y);
      LowerLeft(y, x, t.left.left, t.left.right, t.right);
      assert LinkedPath(p, x);
      assert Linked(RotateClockwise(t).right, x);
    }

    /** The rest of a rotation, once `x` hangs where `y` was: `y` takes over the inner
        subtree `b` of `x` and becomes a child of `x`. */
    method LowerRight(y: Node, x: Node, ghost a: Tree<Node>, ghost b: Tree<Node>, ghost d: Tree<Node>)
      requires x != y && {x, y} !! Nodes(a) && {x, y} !! Nodes(b) && {x, y} !! Nodes(d)
      requires Nodes(a) !! Nodes(b) && Nodes(b) !! Nodes(d) && Distinct(b)
      requires x.right == Top(a) && x.left == Top(b) && y.left == Top(d)
      requires Linked(a, x) && Linked(b, x) && Linked(d, y)
      modifies x`left, x`height, y`right, y`parent, y`height, (if b.Branch? then {b.node} else {})`parent
      ensures Linked(a, x) && Linked(b, y) && Linked(d, y)
      ensures x.left == y && y.right == Top(b) && y.parent == x
      ensures y.height == Max(Height(d), Height(b)) + 1
      ensures x.height == Max(y.height, Height(a)) + 1
    {
      y.right := x.left;
      if y.right != null {
        y.right.parent := y;
      }
      assert Linked(b, y);
      x.left := y;
      y.parent := x;
      y.height := Max(GetHeight(y.left), GetHeight(y.right)) + 1;
      x.height := Max(GetHeight(x.left), GetHeight(x.right)) + 1;
    }

    method LiftRightChild(y: Node, ghost p: Path<Node>, ghost t: Tree<Node>)
      requires At(p, t) && t.Branch? && t.right.Branch? && y == t.node
      requires Sorted(Entries(Plug(p, t)))
      modifies this`root, PathNodes(p), Nodes(t)
      ensures At(p, RotateAntiClockwise(t))
    {
      var x := y.right;
      AntiClockwiseKeeps(t);
      assert Linked(t.right, y) && Distinct(t.right);
      assert allocated(PathNodes(p)) && allocated(Nodes(t));
      ChildSide(p, t, t.right);
      Reattach(y.parent, x, Invalid, p, y);
      assert Linked(t.right.right, x) && Linked(t.right.left, x) && Linked(t.left, y);
      LowerRight(y, x, t.right.right, t.right.left, t.left);
      assert LinkedPath(p, x);
      assert Linked(RotateAntiClockwise(t).left, x);
    }

    /** Moving the hole down to a child of `t` changes the view, not the tree. */
    lemma {:induction false} AtChild(p: Path<Node>, t: Tree<Node>)
      requires t.Branch?
      ensures At(p, t) <==> At(InLeft(p, t.node, t.height, t.item, t.right), t.left)
      ensures At(p, t) <==> At(InRight(p, t.left, t.node, t.height, t.item), t.right)
    {
    }

    lemma {:induction false} AtPlug(p: Path<Node>, t: Tree<Node>)
      ensures At(p, t) <==> At(Root, Plug(p, t))
      ensures Nodes(Plug(p, t)) == PathNodes(p) + Nodes(t)
    {
      PlugNodes(p, t);
      PlugDistinct(p, t);
      LinkedPlug(p, t);
    }

    method BalanceHeight(z: Node, ghost p: Path<Node>, ghost t: Tree<Node>) returns (top: Node)
      requires At(p, t) && t.Branch? && z == t.node && Sorted(Entries(Plug(p, t)))
      requires Avl(t.left) && Avl(t.right) && Abs(Height(t.left) - Height(t.right)) == 2
      modifies this`root, PathNodes(p), Nodes(t)
      ensures At(p, Balanced(t)) && top == Balanced(t).node
    {
      AtChild(p, t);
      if GetHeight(z.left) > GetHeight(z.right) {
        top := BalanceLeftHeavy(z, p, t);
      } else {
        top := BalanceRightHeavy(z, p, t);
      }
    }

    method BalanceLeftHeavy(z: Node, ghost p: Path<Node>, ghost t: Tree<Node>) returns (top: Node)
      requires At(p, t) && t.Branch? && z == t.node && Sorted(Entries(Plug(p, t)))
      requires Avl(t.left) && Avl(t.right) && Height(t.left) == Height(t.right) + 2
      modifies this`root, PathNodes(p), Nodes(t)
      ensures At(p, Balanced(t)) && top == Balanced(t).node
    {
      AvlHeightPositive(t.left);
      AvlHeightPositive(t.right);
      AvlHeightPositive(t.left.left);
      AvlHeightPositive(t.left.right);
      assert Linked(t.left, z);
      assert Linked(t.left.left, z.left) && Linked(t.left.right, z.left);
      if GetHeight(z.left.left) < GetHeight(z.left.right) {
        top := DoubleLeft(z, p, t);
      } else {
        top := z.left;
        PerformRotation(z, Clockwise, p, t);
      }
    }

    method DoubleLeft(z: Node, ghost p: Path<Node>, ghost t: Tree<Node>) returns (top: Node)
      requires At(p, t) && t.Branch? && z == t.node && Sorted(Entries(Plug(p, t)))
      requires t.left.Branch? && t.left.right.Branch?
      modifies this`root, PathNodes(p), Nodes(t)
      ensures At(p, RotateClockwise(t.(left := RotateAntiClockwise(t.left)))) && top == t.left.right.node
    {
      ghost var t' := t.(left := RotateAntiClockwise(t.left));
      InnerRotationKeeps(p, t);
      assert Linked(t.left, z);
      top := z.left.right;
      AtChild(p, t);
      PerformRotation(z.left, AntiClockwise, InLeft(p, z, t.height, t.item, t.right), t.left);
      AtChild(p, t');
      PerformRotation(z, Clockwise, p, t');
    }

    method BalanceRightHeavy(z: Node, ghost p: Path<Node>, ghost t: Tree<Node>) returns (top: Node)
      requires At(p, t) && t.Branch? && z == t.node && Sorted(Entries(Plug(p, t)))
      requires Avl(t.left) && Avl(t.right) && Height(t.right) == Height(t.left) + 2
      modifies this`root, PathNodes(p), Nodes(t)
      ensures At(p, Balanced(t)) && top == Balanced(t).node
    {
      AvlHeightPositive(t.left);
      AvlHeightPositive(t.right);
      AvlHeightPositive(t.right.left);
      AvlHeightPositive(t.right.right);
      assert Linked(t.right, z);
      assert Linked(t.right.left, z.right) && Linked(t.right.right, z.right);
      if GetHeight(z.right.right) < GetHeight(z.right.left) {
        top := DoubleRight(z, p, t);
      } else {
        top := z.right;
        PerformRotation(z, AntiClockwise, p, t);
      }
    }

    method DoubleRight(z: Node, ghost p: Path<Node>, ghost t: Tree<Node>) returns (top: Node)
      requires At(p, t) && t.Branch? && z == t.node && Sorted(Entries(Plug(p, t)))
      requires t.right.Branch? && t.right.left.Branch?
      modifies this`root, PathNodes(p), Nodes(t)
      ensures At(p, RotateAntiClockwise(t.(right := RotateClockwise(t.right)))) && top == t.right.left.node
    {
      ghost var t' := t.(right := RotateClockwise(t.right));
      InnerRotationKeeps(p, t);
      assert Linked(t.right, z);
      top := z.right.left;
      AtChild(p, t);
      PerformRotation(z.right, Clockwise, InRight(p, t.left, z, t.height, t.item), t.right);
      AtChild(p, t');
      PerformRotation(z, AntiClockwise, p, t');
    }

    /** The upward walk after the subtree in the hole of `p` went from height `h` to that of `t`.
        It stops at the first node whose height did not change, and by then the whole tree is
        balanced with exact heights; the traversal is the one the walk started from. */
    method RebalanceAvlTree(n: Node?, ghost p: Path<Node>, ghost t: Tree<Node>, ghost h: int)
      returns (ghost whole: Tree<Node>)
      requires At(p, t) && n == Focus(p) && Sorted(Entries(Plug(p, t)))
      requires Avl(t) && PathAvl(p, h) && Abs(Height(t) - h) <= 1
      modifies this`root, PathNodes(p), Nodes(t)
      ensures At(Root, whole) && Avl(whole)
      ensures Entries(whole) == Entries(Plug(p, t)) && Nodes(whole) == PathNodes(p) + Nodes(t)
      decreases p
    {
      if n == null {
        whole := t;
        return;
      }
      var oldHeight := n.height;
      var top := RestoreBalance(n, p, t, h);
      ghost var t' := Repaired(p, t);
      WalkStep(p, t, h);
      if top.height != oldHeight {
        whole := RebalanceAvlTree(top.parent, p.up, t', p.height);
      } else {
        whole := Plug(p.up, t');
        AtPlug(p.up, t');
        PlugAvl(p.up, t');
      }
    }

    method RecomputeHeight(n: Node, ghost p: Path<Node>, ghost t: Tree<Node>)
      requires At(p, t) && t.Branch? && n == t.node
      modifies n`height
      ensures At(p, t.(height := Max(Height(t.left), Height(t.right)) + 1))
    {
      BalanceRead(t, Focus(p));
      assert allocated(PathNodes(p)) && allocated(Nodes(t));
      UpdateHeight(n);
    }

    /** One iteration of the walk, at the parent of the hole. */
    method RestoreBalance(n: Node, ghost p: Path<Node>, ghost t: Tree<Node>, ghost h: int) returns (top: Node)
      requires At(p, t) && n == Focus(p) && Sorted(Entries(Plug(p, t)))
      requires Avl(t) && PathAvl(p, h) && Abs(Height(t) - h) <= 1
      modifies this`root, PathNodes(p), Nodes(t)
      ensures var f := Fill(p, t);
              Avl(f.left) && Avl(f.right) && Abs(Height(f.left) - Height(f.right)) <= 2
      ensures At(p.up, Repaired(p, t)) && top == Repaired(p, t).node
    {
      ghost var f := Fill(p, t);
      RepairedIsAvl(p, t, h);
      AtChild(p.up, f);
      BalanceRead(f, Focus(p.up));
      if HeightBalanced(n) {
        RecomputeHeight(n, p.up, f);
        top := n;
      } else {
        top := BalanceHeight(n, p.up, f);
      }
    }

    /** Descend to the free place for `node`, hang it there and walk back up. Returns false,
        with nothing changed, when the key is already present. */
    method InsertInTree(node: Node, sub: Node, ghost all: Tree<Node>, ghost p: Path<Node>, ghost t: Tree<Node>)
      returns (ok: bool, ghost whole: Tree<Node>)
      requires At(p, t) && t.Branch? && sub == t.node && all == Plug(p, t)
      requires Avl(all) && Sorted(Entries(all)) && Brackets(p, node.key) && node !in Nodes(all)
      requires node.left == null && node.right == null && node.height == 1
      modifies this`root, Nodes(all), node
      ensures ok == !HasKey(Entries(all), old(node.key))
      ensures At(Root, whole) && Avl(whole)
      ensures var e := Entry(node, Item(old(node.key), old(node.interval)));
              Entries(whole) == if ok then Inserted(Entries(all), e) else Entries(all)
      ensures Nodes(whole) == Nodes(all) + if ok then {node} else {}
      decreases t
    {
      BracketsChild(p, t, node.key);
      AtChild(p, t);
      if node.key < sub.key {
        ghost var down := InLeft(p, t.node, t.height, t.item, t.right);
        if sub.left != null {
          ok, whole := InsertInTree(node, sub.left, all, down, t.left);
        } else {
          ok := true;
          whole := AttachLeaf(sub, node, all, down);
        }
      } else if node.key > sub.key {
        ghost var down := InRight(p, t.left, t.node, t.height, t.item);
        if sub.right != null {
          ok, whole := InsertInTree(node, sub.right, all, down, t.right);
        } else {
          ok := true;
          whole := AttachLeaf(sub, node, all, down);
        }
      } else {
        ok, whole := false, all;
        AtPlug(p, t);
      }
    }

    /** Hang `node` in the empty hole below `sub`, on the side its key belongs. */
    method AttachLeaf(sub: Node, node: Node, ghost all: Tree<Node>, ghost p: Path<Node>)
      returns (ghost whole: Tree<Node>)
      requires At(p, Leaf) && !p.Root? && sub == p.node && all == Plug(p, Leaf)
      requires Avl(all) && Sorted(Entries(all)) && Brackets(p, node.key) && node !in Nodes(all)
      requires node.left == null && node.right == null && node.height == 1
      modifies this`root, Nodes(all), node
      ensures At(Root, whole) && Avl(whole)
      ensures !HasKey(Entries(all), old(node.key))
      ensures Entries(whole) == Inserted(Entries(all), Entry(node, Item(old(node.key), old(node.interval))))
      ensures Nodes(whole) == Nodes(all) + {node}
    {
      ghost var e := Entry(node, Item(node.key, node.interval));
      PlugAvl(p, Leaf);
      PlugNodes(p, Leaf);
      LeafEntries(p, e);
      BracketsParent(p, node.key);
      HangLeaf(sub, node, p, e.item);
      whole := RebalanceAvlTree(sub, p, Branch(Leaf, node, 1, e.item, Leaf), 0);
    }

    method HangLeaf(sub: Node, node: Node, ghost p: Path<Node>, ghost it: Item)
      requires At(p, Leaf) && !p.Root? && sub == p.node && node !in PathNodes(p)
      requires node.left == null && node.right == null && node.height == 1
      requires it == Item(node.key, node.interval) && (node.key < p.item.key <==> p.InLeft?)
      modifies sub`left, sub`right, node`parent
      ensures At(p, Branch(Leaf, node, 1, it, Leaf))
    {
      if node.key < sub.key {
        sub.left := node;
      } else {
        sub.right := node;
      }
      node.parent := sub;
    }

    /** Exchange the contents of two nodes, of which only the first is in the tree. */
    method Swap(node1: Node, node2: Node, ghost p: Path<Node>, ghost t: Tree<Node>)
      requires At(p, t) && t.Branch? && node1 == t.node && node2 !in PathNodes(p) && node2 !in Nodes(t)
      modifies node1`key, node1`interval, node2`key, node2`interval
      ensures node2.key == old(node1.key) && node2.interval == old(node1.interval)
      ensures At(p, t.(item := Item(old(node2.key), old(node2.interval))))
    {
      var key, interval := node1.key, node1.interval;
      node1.key := node2.key;
      node1.interval := node2.interval;
      node2.key := key;
      node2.interval := interval;
    }

    method FindMinKeyNode(n: Node, ghost p: Path<Node>, ghost t: Tree<Node>)
      returns (m: Node, ghost p': Path<Node>, ghost t': Tree<Node>)
      requires At(p, t) && t.Branch? && n == t.node
      ensures At(p', t') && t'.Branch? && m == t'.node && t'.left.Leaf?
      ensures Plug(p', t') == Plug(p, t) && Before(p') == Before(p)
      decreases t
    {
      if n.left != null {
        AtChild(p, t);
        m, p', t' := FindMinKeyNode(n.left, InLeft(p, t.node, t.height, t.item, t.right), t.left);
      } else {
        m, p', t' := n, p, t;
      }
    }

    /** Hang the only child of `node` in its place. */
    method Bypass(node: Node, child: Node?, direction: ChildDirection,
                  ghost p: Path<Node>, ghost t: Tree<Node>, ghost c: Tree<Node>)
      requires At(p, t) && t.Branch? && node == t.node && OnlyChild(t, c) && child == Top(c)
      requires !p.Root? ==>
                 match direction
                 case Invalid => child != null && (p.InRight? <==> p.item.key < c.item.key)
                 case Left => p.InLeft?
                 case Right => p.InRight?
      modifies this`root, (if child == null then {} else {child})`parent
      modifies (if p.Root? then {} else {p.node})`left, (if p.Root? then {} else {p.node})`right
      ensures At(p, c)
    {
      assert Linked(c, node) && Distinct(c);
      assert allocated(Nodes(t));
      Reattach(node.parent, child, direction, p, node);
      if c.Branch? {
        assert Linked(c.left, c.node) && Linked(c.right, c.node);
      }
    }

    /** Unlink a node without a left child; the side of its parent is found from the node's own key. */
    method UnlinkLeftless(node: Node, ghost all: Tree<Node>, ghost p: Path<Node>, ghost t: Tree<Node>)
      returns (ghost whole: Tree<Node>)
      requires At(p, t) && t.Branch? && node == t.node && t.left.Leaf? && all == Plug(p, t)
      requires Avl(all) && Sorted(Entries(all))
      modifies this`root, Nodes(all)
      ensures At(Root, whole) && Avl(whole) && Nodes(whole) == Nodes(all) - {node}
      ensures Entries(whole) == Before(p) + Entries(t.right) + After(p)
      ensures node.key == t.item.key && node.interval == t.item.interval
    {
      DropHeights(p, t, t.right);
      DropEntries(p, t, t.right);
      PlugNodes(p, t);
      ChildSide(p, t, t);
      var direction := if node.parent != null && node.parent.key < node.key then Right else Left;
      Bypass(node, node.right, direction, p, t, t.right);
      whole := RebalanceAvlTree(node.parent, p, t.right, t.height);
    }

    /** Unlink a node without a right child; the side of its parent is found from the left child's key. */
    method UnlinkRightless(node: Node, ghost all: Tree<Node>, ghost p: Path<Node>, ghost t: Tree<Node>)
      returns (ghost whole: Tree<Node>)
      requires At(p, t) && t.Branch? && node == t.node && t.left.Branch? && t.right.Leaf? && all == Plug(p, t)
      requires Avl(all) && Sorted(Entries(all))
      modifies this`root, Nodes(all)
      ensures At(Root, whole) && Avl(whole) && Nodes(whole) == Nodes(all) - {node}
      ensures Entries(whole) == Before(p) + Entries(t.left) + After(p)
      ensures node.key == t.item.key && node.interval == t.item.interval
    {
      DropHeights(p, t, t.left);
      DropEntries(p, t, t.left);
      PlugNodes(p, t);
      ChildSide(p, t, t.left);
      Bypass(node, node.left, Invalid, p, t, t.left);
      whole := RebalanceAvlTree(node.parent, p, t.left, t.height);
    }

    /** Exchange contents with `succ`, a node that is no longer part of the tree. */
    method TakeOver(node: Node, succ: Node, ghost t: Tree<Node>, ghost a: seq<Entry<Node>>, ghost it: Item,
                    ghost b: seq<Entry<Node>>)
      returns (ghost whole: Tree<Node>)
      requires At(Root, t) && Avl(t) && Entries(t) == a + [Entry(node, it)] + b && succ !in Nodes(t)
      modifies node`key, node`interval, succ`key, succ`interval
      ensures At(Root, whole) && Avl(whole) && Nodes(whole) == Nodes(t)
      ensures Entries(whole) == a + [Entry(node, Item(old(succ.key), old(succ.interval)))] + b
      ensures succ.key == it.key && succ.interval == it.interval
    {
      ghost var it' := Item(succ.key, succ.interval);
      ghost var p, s := Reassign(t, a, Entry(node, it), b, it');
      AtPlug(p, s);
      Swap(node, succ, p, s);
      whole := Plug(p, s.(item := it'));
      AtPlug(p, s.(item := it'));
    }

    /** A node with two children stays and takes over the contents of its successor, whose node
        is unlinked instead. Rotations on the way may have moved the node in the meantime. */
    method RemoveInner(node: Node, ghost all: Tree<Node>, ghost p: Path<Node>, ghost t: Tree<Node>)
      returns (removed: Node, ghost whole: Tree<Node>)
      requires At(p, t) && t.Branch? && t.left.Branch? && t.right.Branch? && node == t.node && all == Plug(p, t)
      requires Avl(all) && Sorted(Entries(all))
      modifies this`root, Nodes(all)
      ensures At(Root, whole) && Avl(whole)
      ensures removed in Nodes(all) && Nodes(whole) == Nodes(all) - {removed}
      ensures removed.key == t.item.key && removed.interval == t.item.interval
      ensures Removed(Entries(whole), Before(p) + Entries(t.left), Entries(t.right) + After(p))
    {
      AtChild(p, t);
      var succ, p', t' := FindMinKeyNode(node.right, InRight(p, t.left, node, t.height, t.item), t.right);
      PlugNodes(p', t');
      PlugNodes(p, t);
      ghost var rest := UnlinkLeftless(succ, all, p', t');
      SuccessorEntries(p, t, p', t');
      ghost var a, b := Before(p) + Entries(t.left), Entries(t'.right) + After(p');
      whole := TakeOver(node, succ, rest, a, t.item, b);
      removed := succ;
      SuccessorTakesOver(a, Entry(node, t.item), Entry(succ, t'.item), b);
    }

    method RemoveFromTree(node: Node, ghost all: Tree<Node>, ghost p: Path<Node>, ghost t: Tree<Node>)
      returns (removed: Node, ghost whole: Tree<Node>)
      requires At(p, t) && t.Branch? && node == t.node && all == Plug(p, t)
      requires Avl(all) && Sorted(Entries(all))
      modifies this`root, Nodes(all)
      ensures At(Root, whole) && Avl(whole)
      ensures removed in Nodes(all) && Nodes(whole) == Nodes(all) - {removed}
      ensures removed.key == t.item.key && removed.interval == t.item.interval
      ensures Removed(Entries(whole), Before(p) + Entries(t.left), Entries(t.right) + After(p))
    {
      PlugNodes(p, t);
      RemovedWhole(p, t);
      if node.left == null {
        removed := node;
        whole := UnlinkLeftless(node, all, p, t);
      } else if node.right == null {
        removed := node;
        whole := UnlinkRightless(node, all, p, t);
      } else {
        removed, whole := RemoveInner(node, all, p, t);
      }
    }

    /** The first interval that fits `[a, b]` in order of start time, found without visiting the
        left subtrees that cannot hold it. */
    method Search(a: nat, b: nat) returns (n: Node?, ghost i: nat)
      requires Valid() && Separated(Contents()) && a <= b
      ensures FirstFit(Contents(), a, b, i)
      ensures n == null <==> i == |Contents()|
      ensures n != null ==> n == Contents()[i].node && n in nodes
      ensures n == null <==> forall j :: 0 <= j < |Contents()| ==> !Fits(Contents()[j].item.interval, a, b)
    {
      n, i := SearchTree(a, b, root, tree, null);
      if n != null {
        EntryNodes(tree, i);
      }
    }

    static method SearchTree(a: nat, b: nat, sub: Node?, ghost t: Tree<Node>, ghost parent: Node?)
      returns (n: Node?, ghost i: nat)
      requires Linked(t, parent) && sub == Top(t) && Separated(Entries(t)) && a <= b
      ensures FirstFit(Entries(t), a, b, i)
      ensures n == null <==> i == |Entries(t)|
      ensures n != null ==> n == Entries(t)[i].node
      decreases t
    {
      if sub == null {
        return null, 0;
      }
      ghost var l, e, r := Entries(t.left), Entry(t.node, t.item), Entries(t.right);
      assert allocated(Nodes(t.right));
      SeparatedParts(l, e, r);
      if sub.interval.first <= b {
        LeftCannotFit(l, e, r, a, b);
      }
      if a >= sub.interval.first && b <= sub.interval.second {
        return sub, |l|;
      }
      if b < sub.interval.first {
        n, i := SearchTree(a, b, sub.left, t.left, sub);
        if n != null {
          return;
        }
      }
      if a < sub.interval.first && sub.interval.second - sub.interval.first >= b - a {
        return sub, |l|;
      }
      n, i := SearchTree(a, b, sub.right, t.right, sub);
      i := |l| + 1 + i;
    }
  }

  /** The entry after a node with a right subtree is the leftmost one of that subtree. */
  lemma {:induction false} SuccessorEntries(p: Path<Node>, t: Tree<Node>, p': Path<Node>, t': Tree<Node>)
    requires t.Branch? && t'.Branch? && t'.left.Leaf? && Plug(p', t') == Plug(p, t)
    requires Before(p') == Before(InRight(p, t.left, t.node, t.height, t.item))
    ensures Entries(t.right) + After(p) == [Entry(t'.node, t'.item)] + (Entries(t'.right) + After(p'))
    ensures Before(p') + Entries(t'.right) + After(p') ==
            (Before(p) + Entries(t.left)) + [Entry(t.node, t.item)] + (Entries(t'.right) + After(p'))
  {
    PlugSplit(p, t);
    PlugSplit(p', t');
    SameEnd(Before(p'), Entries(t.right) + After(p), Entry(t'.node, t'.item), Entries(t'.right) + After(p'));
    assert Before(p') + Entries(t'.right) + After(p') == Before(p') + (Entries(t'.right) + After(p'));
  }

  lemma {:induction false} BalanceRead(t: Tree<Node>, parent: Node?)
    requires t.Branch? && Linked(t, parent)
    ensures IntervalTree.GetHeight(t.node.left) == Height(t.left)
    ensures IntervalTree.GetHeight(t.node.right) == Height(t.right)
  {
    assert Linked(t.left, t.node) && Linked(t.right, t.node);
  }

  /** Rotating a child first leaves the whole sorted for the second rotation. */
  lemma {:induction false} InnerRotationKeeps(p: Path<Node>, t: Tree<Node>)
    requires t.Branch? && Sorted(Entries(Plug(p, t)))
    ensures t.left.Branch? && t.left.right.Branch? ==>
              var t' := t.(left := RotateAntiClockwise(t.left));
              Sorted(Entries(Plug(p, t'))) && Nodes(t') == Nodes(t)
    ensures t.right.Branch? && t.right.left.Branch? ==>
              var t' := t.(right := RotateClockwise(t.right));
              Sorted(Entries(Plug(p, t'))) && Nodes(t') == Nodes(t)
  {
    PlugEntries(p, t);
    if t.left.Branch? && t.left.right.Branch? {
      AntiClockwiseKeeps(t.left);
      PlugEntries(p, t.(left := RotateAntiClockwise(t.left)));
    }
    if t.right.Branch? && t.right.left.Branch? {
      ClockwiseKeeps(t.right);
      PlugEntries(p, t.(right := RotateClockwise(t.right)));
    }
  }

  /** Comparing the key of a child of `t` with the parent's key finds the side `t` hangs on. */
  lemma {:induction false} ChildSide(p: Path<Node>, t: Tree<Node>, child: Tree<Node>)
    requires t.Branch? && child.Branch? && (child == t || child == t.left || child == t.right)
    requires Sorted(Entries(Plug(p, t)))
    ensures !p.Root? ==> (p.InRight? <==> p.item.key < child.item.key)
  {
    var e := Entry(child.node, child.item);
    assert e in Entries(child);
    assert e in Entries(t);
    if !p.Root? {
      SidesOfParent(p, t, e);
    }
  }
}
