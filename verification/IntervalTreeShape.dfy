/** The values an interval tree passes through: what is stored at each node, the order it
    is visited in, and the one-hole contexts that the upward rebalancing walk moves along.
    Nothing in this module reads the heap; `IntervalTree` ties these values to linked nodes. */
module IntervalTreeShape {

  /** A free time interval, `pair<UInt64,UInt64>` in the source. */
  datatype Interval = Interval(first: nat, second: nat)

  /** The part of a node that `swap` exchanges. */
  datatype Item = Item(key: nat, interval: Interval)

  /** An entry of the in-order traversal: which node carries which item. */
  datatype Entry<N> = Entry(node: N, item: Item)

  /** A snapshot of a subtree, heights as stored. */
  datatype Tree<N> =
    | Leaf
    | Branch(left: Tree<N>, node: N, height: int, item: Item, right: Tree<N>)

  /** A tree with one subtree missing; the innermost frame is the parent of the hole. */
  datatype Path<N> =
    | Root
    | InLeft(up: Path<N>, node: N, height: int, item: Item, right: Tree<N>)
    | InRight(up: Path<N>, left: Tree<N>, node: N, height: int, item: Item)

  function Max(a: int, b: int): int {
    if a > b then a else b
  }

  function Abs(a: int): int {
    if a < 0 then -a else a
  }

  function Height<N>(t: Tree<N>): int {
    if t.Leaf? then 0 else t.height
  }

  ghost function Entries<N>(t: Tree<N>): seq<Entry<N>> {
    if t.Leaf? then [] else Entries(t.left) + [Entry(t.node, t.item)] + Entries(t.right)
  }

  ghost function Nodes<N>(t: Tree<N>): set<N> {
    if t.Leaf? then {} else Nodes(t.left) + {t.node} + Nodes(t.right)
  }

  /** No node occurs twice. */
  ghost predicate Distinct<N>(t: Tree<N>) {
    t.Branch? ==>
      && t.node !in Nodes(t.left) && t.node !in Nodes(t.right)
      && Nodes(t.left) !! Nodes(t.right)
      && Distinct(t.left) && Distinct(t.right)
  }

  /** Every stored height is exact and every node is balanced within one. */
  ghost predicate Avl<N>(t: Tree<N>) {
    t.Branch? ==>
      && Avl(t.left) && Avl(t.right)
      && Abs(Height(t.left) - Height(t.right)) <= 1
      && t.height == Max(Height(t.left), Height(t.right)) + 1
  }

  /** Strictly increasing keys, the search-tree order read in order. */
  ghost predicate Sorted<N>(s: seq<Entry<N>>) {
    forall i, j :: 0 <= i < j < |s| ==> s[i].item.key < s[j].item.key
  }

  ghost function Before<N>(p: Path<N>): seq<Entry<N>> {
    match p
    case Root => []
    case InLeft(up, _, _, _, _) => Before(up)
    case InRight(up, l, n, _, it) => Before(up) + Entries(l) + [Entry(n, it)]
  }

  ghost function After<N>(p: Path<N>): seq<Entry<N>> {
    match p
    case Root => []
    case InLeft(up, n, _, it, r) => [Entry(n, it)] + Entries(r) + After(up)
    case InRight(up, _, _, _, _) => After(up)
  }

  ghost function PathNodes<N>(p: Path<N>): set<N> {
    match p
    case Root => {}
    case InLeft(up, n, _, _, r) => PathNodes(up) + {n} + Nodes(r)
    case InRight(up, l, n, _, _) => PathNodes(up) + {n} + Nodes(l)
  }

  ghost predicate PathDistinct<N>(p: Path<N>) {
    match p
    case Root => true
    case InLeft(up, n, _, _, r) =>
      && n !in PathNodes(up) && n !in Nodes(r) && PathNodes(up) !! Nodes(r)
      && Distinct(r) && PathDistinct(up)
    case InRight(up, l, n, _, _) =>
      && n !in PathNodes(up) && n !in Nodes(l) && PathNodes(up) !! Nodes(l)
      && Distinct(l) && PathDistinct(up)
  }

  /** The context is balanced and exact, provided that its hole has height `h`. */
  ghost predicate PathAvl<N>(p: Path<N>, h: int) {
    match p
    case Root => true
    case InLeft(up, _, ph, _, r) =>
      Avl(r) && Abs(h - Height(r)) <= 1 && ph == Max(h, Height(r)) + 1 && PathAvl(up, ph)
    case InRight(up, l, _, ph, _) =>
      Avl(l) && Abs(h - Height(l)) <= 1 && ph == Max(h, Height(l)) + 1 && PathAvl(up, ph)
  }

  /** Put `t` under the parent of the hole. */
  ghost function Fill<N>(p: Path<N>, t: Tree<N>): Tree<N>
    requires !p.Root?
  {
    match p
    case InLeft(_, n, h, it, r) => Branch(t, n, h, it, r)
    case InRight(_, l, n, h, it) => Branch(l, n, h, it, t)
  }

  ghost function Plug<N>(p: Path<N>, t: Tree<N>): Tree<N> {
    if p.Root? then t else Plug(p.up, Fill(p, t))
  }

  /** Where the parentheses of a concatenation stand does not matter. */
  lemma NoMiddle<T>(a: seq<T>, b: seq<T>)
    ensures a + [] + b == a + b
  {
  }

  lemma SameEnd<T>(a: seq<T>, r: seq<T>, e: T, r': seq<T>)
    requires a + r == (a + []) + [e] + r'
    ensures r == [e] + r'
  {
    assert a + [] == a;
    assert r == (a + r)[|a|..] == (a + [e] + r')[|a|..] == [e] + r';
  }

  lemma Regroup<T>(a: seq<T>, b: seq<T>, m: seq<T>, c: seq<T>, d: seq<T>)
    ensures a + (b + m + c) + d == a + b + (m + c + d)
    ensures a + (b + m + c) + d == (a + b + m) + c + d
  {
    assert a + (b + m + c) == a + b + m + c;
    assert a + b + m + c + d == a + b + (m + c + d);
  }

  lemma {:induction false} PlugEntries<N>(p: Path<N>, t: Tree<N>)
    ensures Entries(Plug(p, t)) == Before(p) + Entries(t) + After(p)
  {
    if p.Root? {
      assert [] + Entries(t) + [] == Entries(t);
    } else {
      var f := Fill(p, t);
      PlugEntries(p.up, f);
      Regroup(Before(p.up), Entries(f.left), [Entry(f.node, f.item)], Entries(f.right), After(p.up));
    }
  }

  /** The traversal of the whole tree, divided at the root of the subtree in the hole. */
  lemma {:induction false} PlugSplit<N>(p: Path<N>, t: Tree<N>)
    requires t.Branch?
    ensures Entries(Plug(p, t)) ==
            (Before(p) + Entries(t.left)) + [Entry(t.node, t.item)] + (Entries(t.right) + After(p))
  {
    PlugEntries(p, t);
    var e := [Entry(t.node, t.item)];
    Regroup(Before(p), Entries(t.left), e, Entries(t.right), After(p));
    assert e + Entries(t.right) + After(p) == e + (Entries(t.right) + After(p));
  }

  lemma {:induction false} SameTraversal<N>(p: Path<N>, t: Tree<N>, t': Tree<N>)
    requires Entries(t) == Entries(t')
    ensures Entries(Plug(p, t)) == Entries(Plug(p, t'))
  {
    PlugEntries(p, t);
    PlugEntries(p, t');
  }

  lemma {:induction false} PlugNodes<N>(p: Path<N>, t: Tree<N>)
    ensures Nodes(Plug(p, t)) == PathNodes(p) + Nodes(t)
  {
    if !p.Root? {
      PlugNodes(p.up, Fill(p, t));
    }
  }

  lemma {:induction false} PlugDistinct<N>(p: Path<N>, t: Tree<N>)
    ensures Distinct(Plug(p, t)) <==> PathDistinct(p) && Distinct(t) && PathNodes(p) !! Nodes(t)
  {
    if !p.Root? {
      PlugDistinct(p.up, Fill(p, t));
    }
  }

  lemma {:induction false} PlugAvl<N>(p: Path<N>, t: Tree<N>)
    ensures Avl(Plug(p, t)) <==> PathAvl(p, Height(t)) && Avl(t)
  {
    if !p.Root? {
      PlugAvl(p.up, Fill(p, t));
    }
  }

  /** In a sorted tree the hole's contents lie on the side of the parent's key that the
      hole hangs on. This is what makes choosing a child by comparing keys correct. */
  lemma {:induction false} SidesOfParent<N>(p: Path<N>, t: Tree<N>, e: Entry<N>)
    requires !p.Root? && Sorted(Entries(Plug(p, t))) && e in Entries(t)
    ensures p.InLeft? ==> e.item.key < p.item.key
    ensures p.InRight? ==> p.item.key < e.item.key
  {
    PlugEntries(p, t);
    var s := Before(p) + Entries(t) + After(p);
    var i :| 0 <= i < |Entries(t)| && Entries(t)[i] == e;
    var k := |Before(p)| + i;
    assert s[k] == e;
    if p.InLeft? {
      var j := |Before(p)| + |Entries(t)|;
      assert s[j] == After(p)[0] == Entry(p.node, p.item);
    } else {
      var j := |Before(p)| - 1;
      assert s[j] == Before(p)[j] == Entry(p.node, p.item);
    }
  }

  /** A rotation that lifts the left child, heights recomputed lower node first. */
  ghost function RotateClockwise<N>(t: Tree<N>): Tree<N>
    requires t.Branch? && t.left.Branch?
  {
    var x := t.left;
    var y := Branch(x.right, t.node, Max(Height(x.right), Height(t.right)) + 1, t.item, t.right);
    Branch(x.left, x.node, Max(Height(x.left), Height(y)) + 1, x.item, y)
  }

  ghost function RotateAntiClockwise<N>(t: Tree<N>): Tree<N>
    requires t.Branch? && t.right.Branch?
  {
    var x := t.right;
    var y := Branch(t.left, t.node, Max(Height(t.left), Height(x.left)) + 1, t.item, x.left);
    Branch(y, x.node, Max(Height(y), Height(x.right)) + 1, x.item, x.right)
  }

  lemma {:induction false} ClockwiseKeeps<N>(t: Tree<N>)
    requires t.Branch? && t.left.Branch?
    ensures Entries(RotateClockwise(t)) == Entries(t)
    ensures Nodes(RotateClockwise(t)) == Nodes(t)
    ensures Distinct(t) ==> Distinct(RotateClockwise(t))
  {
    var r, x := RotateClockwise(t), t.left;
    assert Entries(r) == Entries(x.left) + [Entry(x.node, x.item)] + Entries(r.right);
    assert Entries(x) == Entries(x.left) + [Entry(x.node, x.item)] + Entries(x.right);
    assert Nodes(r.right) == Nodes(x.right) + {t.node} + Nodes(t.right);
    assert Distinct(t) ==> Distinct(x) && Distinct(r.right);
  }

  lemma {:induction false} AntiClockwiseKeeps<N>(t: Tree<N>)
    requires t.Branch? && t.right.Branch?
    ensures Entries(RotateAntiClockwise(t)) == Entries(t)
    ensures Nodes(RotateAntiClockwise(t)) == Nodes(t)
    ensures Distinct(t) ==> Distinct(RotateAntiClockwise(t))
  {
    var r, x := RotateAntiClockwise(t), t.right;
    assert Entries(r) == Entries(r.left) + [Entry(x.node, x.item)] + Entries(x.right);
    assert Entries(x) == Entries(x.left) + [Entry(x.node, x.item)] + Entries(x.right);
    assert Nodes(r.left) == Nodes(t.left) + {t.node} + Nodes(x.left);
    assert Distinct(t) ==> Distinct(x) && Distinct(r.left);
  }

  /** Which child of an unbalanced node is the taller one, and whether a double rotation is due. */
  ghost predicate LeftHeavy<N>(t: Tree<N>)
    requires t.Branch?
  {
    Height(t.left) > Height(t.right)
  }

  /** The subtree that `balanceHeight` leaves behind. */
  ghost function Balanced<N>(t: Tree<N>): Tree<N>
    requires t.Branch? && Avl(t.left) && Avl(t.right)
    requires Abs(Height(t.left) - Height(t.right)) == 2
  {
    AvlHeightPositive(t.left);
    AvlHeightPositive(t.right);
    if LeftHeavy(t) then
      AvlHeightPositive(t.left.left);
      AvlHeightPositive(t.left.right);
      if Height(t.left.left) < Height(t.left.right) then
        RotateClockwise(t.(left := RotateAntiClockwise(t.left)))
      else RotateClockwise(t)
    else
      AvlHeightPositive(t.right.left);
      AvlHeightPositive(t.right.right);
      if Height(t.right.left) > Height(t.right.right) then
        RotateAntiClockwise(t.(right := RotateClockwise(t.right)))
      else RotateAntiClockwise(t)
  }

  lemma {:induction false} AvlHeightPositive<N>(t: Tree<N>)
    requires Avl(t)
    ensures t.Leaf? <==> Height(t) == 0
    ensures Height(t) >= 0
  {
    if t.Leaf? {
    } else {
      AvlHeightPositive(t.left);
      AvlHeightPositive(t.right);
    }
  }

  /** A node whose children differ by two is repaired by one single or double rotation:
      same traversal, same nodes, exact heights, and as tall as its taller child or one more. */
  lemma {:induction false} BalancedIsAvl<N>(t: Tree<N>)
    requires t.Branch? && Avl(t.left) && Avl(t.right)
    requires Abs(Height(t.left) - Height(t.right)) == 2
    ensures Balanced(t).Branch? && Avl(Balanced(t))
    ensures Max(Height(t.left), Height(t.right)) <= Height(Balanced(t)) <= Max(Height(t.left), Height(t.right)) + 1
  {
    AvlHeightPositive(t.left);
    AvlHeightPositive(t.right);
    if LeftHeavy(t) {
      LeftHeavyIsAvl(t);
    } else {
      RightHeavyIsAvl(t);
    }
  }

  lemma {:induction false} LeftHeavyIsAvl<N>(t: Tree<N>)
    requires t.Branch? && Avl(t.left) && Avl(t.right) && t.left.Branch?
    requires Height(t.left) == Height(t.right) + 2 && Height(t.right) >= 0
    ensures Balanced(t).Branch? && Avl(Balanced(t))
    ensures Height(t.left) <= Height(Balanced(t)) <= Height(t.left) + 1
  {
    var y := t.left;
    AvlHeightPositive(y.left);
    AvlHeightPositive(y.right);
    if Height(y.left) < Height(y.right) {
      var x := y.right;
      var b := Balanced(t);
      assert b.left == Branch(y.left, y.node, Max(Height(y.left), Height(x.left)) + 1, y.item, x.left);
      assert b.right == Branch(x.right, t.node, Max(Height(x.right), Height(t.right)) + 1, t.item, t.right);
      assert Avl(b.left) && Avl(b.right);
    } else {
      var b := Balanced(t);
      assert b.left == y.left;
      assert Avl(b.right);
    }
  }

  lemma {:induction false} RightHeavyIsAvl<N>(t: Tree<N>)
    requires t.Branch? && Avl(t.left) && Avl(t.right) && t.right.Branch?
    requires Height(t.right) == Height(t.left) + 2 && Height(t.left) >= 0
    ensures Balanced(t).Branch? && Avl(Balanced(t))
    ensures Height(t.right) <= Height(Balanced(t)) <= Height(t.right) + 1
  {
    var y := t.right;
    AvlHeightPositive(y.left);
    AvlHeightPositive(y.right);
    if Height(y.left) > Height(y.right) {
      var x := y.left;
      var b := Balanced(t);
      assert b.left == Branch(t.left, t.node, Max(Height(t.left), Height(x.left)) + 1, t.item, x.left);
      assert b.right == Branch(x.right, y.node, Max(Height(x.right), Height(y.right)) + 1, y.item, y.right);
      assert Avl(b.left) && Avl(b.right);
    } else {
      var b := Balanced(t);
      assert b.right == y.right;
      assert Avl(b.left);
    }
  }

  lemma {:induction false} BalancedKeeps<N>(t: Tree<N>)
    requires t.Branch? && Avl(t.left) && Avl(t.right) && Distinct(t)
    requires Abs(Height(t.left) - Height(t.right)) == 2
    ensures Entries(Balanced(t)) == Entries(t) && Nodes(Balanced(t)) == Nodes(t) && Distinct(Balanced(t))
  {
    AvlHeightPositive(t.left);
    AvlHeightPositive(t.right);
    if LeftHeavy(t) {
      AvlHeightPositive(t.left.left);
      AvlHeightPositive(t.left.right);
      if Height(t.left.left) < Height(t.left.right) {
        AntiClockwiseKeeps(t.left);
        ClockwiseKeeps(t.(left := RotateAntiClockwise(t.left)));
      } else {
        ClockwiseKeeps(t);
      }
    } else {
      AvlHeightPositive(t.right.left);
      AvlHeightPositive(t.right.right);
      if Height(t.right.left) > Height(t.right.right) {
        ClockwiseKeeps(t.right);
        AntiClockwiseKeeps(t.(right := RotateClockwise(t.right)));
      } else {
        AntiClockwiseKeeps(t);
      }
    }
  }

  /** What one iteration of the upward walk leaves at the parent of the hole. */
  ghost function Repaired<N>(p: Path<N>, t: Tree<N>): Tree<N>
    requires !p.Root? && Avl(t) && Avl(Fill(p, t).left) && Avl(Fill(p, t).right)
    requires Abs(Height(Fill(p, t).left) - Height(Fill(p, t).right)) <= 2
  {
    var f := Fill(p, t);
    if Abs(Height(f.left) - Height(f.right)) <= 1 then
      f.(height := Max(Height(f.left), Height(f.right)) + 1)
    else Balanced(f)
  }

  /** If the hole's height moved by at most one, the children of its parent differ by at most
      two, and the repaired parent is balanced and its height moved by at most one as well. */
  lemma {:induction false} RepairedIsAvl<N>(p: Path<N>, t: Tree<N>, h: int)
    requires !p.Root? && Avl(t) && PathAvl(p, h) && Abs(Height(t) - h) <= 1
    ensures var f := Fill(p, t);
            Avl(f.left) && Avl(f.right) && Abs(Height(f.left) - Height(f.right)) <= 2
    ensures Avl(Repaired(p, t)) && Repaired(p, t).Branch?
    ensures Abs(Height(Repaired(p, t)) - p.height) <= 1
  {
    var f := Fill(p, t);
    if Abs(Height(f.left) - Height(f.right)) == 2 {
      BalancedIsAvl(f);
    }
  }

  lemma {:induction false} RepairedKeeps<N>(p: Path<N>, t: Tree<N>, h: int)
    requires !p.Root? && Avl(t) && PathAvl(p, h) && Abs(Height(t) - h) <= 1
    requires Distinct(Fill(p, t))
    ensures var f := Fill(p, t);
            Avl(f.left) && Avl(f.right) && Abs(Height(f.left) - Height(f.right)) <= 2
    ensures Entries(Repaired(p, t)) == Entries(Fill(p, t)) && Nodes(Repaired(p, t)) == Nodes(Fill(p, t))
  {
    var f := Fill(p, t);
    if Abs(Height(f.left) - Height(f.right)) == 2 {
      BalancedKeeps(f);
    }
  }

  lemma {:induction false} FillNodes<N>(p: Path<N>, t: Tree<N>)
    requires !p.Root? && PathDistinct(p) && Distinct(t) && PathNodes(p) !! Nodes(t)
    ensures PathNodes(p.up) + Nodes(Fill(p, t)) == PathNodes(p) + Nodes(t) && Distinct(Fill(p, t))
  {
  }

  /** Everything the upward walk carries from one iteration to the next. */
  lemma {:induction false} WalkStep<N>(p: Path<N>, t: Tree<N>, h: int)
    requires !p.Root? && Avl(t) && PathAvl(p, h) && Abs(Height(t) - h) <= 1
    requires PathDistinct(p) && Distinct(t) && PathNodes(p) !! Nodes(t)
    ensures var f := Fill(p, t);
            Avl(f.left) && Avl(f.right) && Abs(Height(f.left) - Height(f.right)) <= 2
    ensures Avl(Repaired(p, t)) && Repaired(p, t).Branch? && PathAvl(p.up, p.height)
    ensures Abs(Height(Repaired(p, t)) - p.height) <= 1
    ensures Entries(Plug(p.up, Repaired(p, t))) == Entries(Plug(p, t))
    ensures PathNodes(p.up) + Nodes(Repaired(p, t)) == PathNodes(p) + Nodes(t)
  {
    RepairedIsAvl(p, t, h);
    FillNodes(p, t);
    RepairedKeeps(p, t, h);
    SameTraversal(p.up, Fill(p, t), Repaired(p, t));
  }

  // ------------------------------------------------------------------ contents

  /** The items of a traversal, whichever nodes carry them. */
  ghost function Items<N>(s: seq<Entry<N>>): seq<Item> {
    seq(|s|, i requires 0 <= i < |s| => s[i].item)
  }

  ghost predicate HasKey<N>(s: seq<Entry<N>>, key: nat) {
    exists i :: 0 <= i < |s| && s[i].item.key == key
  }

  /** Insertion into a sorted list, by comparing from the front. */
  ghost function Inserted<N>(s: seq<Entry<N>>, e: Entry<N>): seq<Entry<N>> {
    if s == [] || e.item.key < s[0].item.key then [e] + s else [s[0]] + Inserted(s[1..], e)
  }

  ghost predicate AllBelow<N>(s: seq<Entry<N>>, key: nat) {
    forall i :: 0 <= i < |s| ==> s[i].item.key < key
  }

  ghost predicate AllAbove<N>(s: seq<Entry<N>>, key: nat) {
    forall i :: 0 <= i < |s| ==> key < s[i].item.key
  }

  lemma {:induction false} InsertedAt<N>(a: seq<Entry<N>>, b: seq<Entry<N>>, e: Entry<N>)
    requires AllBelow(a, e.item.key) && AllAbove(b, e.item.key)
    ensures Inserted(a + b, e) == a + [e] + b
  {
    if a == [] {
      assert a + b == b;
      assert a + [e] + b == [e] + b;
    } else {
      InsertedAt(a[1..], b, e);
      assert (a + b)[1..] == a[1..] + b;
      assert [a[0]] + (a[1..] + [e] + b) == a + [e] + b;
    }
  }

  lemma InsertedSorted<N>(a: seq<Entry<N>>, b: seq<Entry<N>>, e: Entry<N>)
    requires AllBelow(a, e.item.key) && AllAbove(b, e.item.key) && Sorted(a + b)
    ensures Sorted(a + [e] + b) && !HasKey(a + b, e.item.key)
  {
    var s := a + [e] + b;
    forall i, j | 0 <= i < j < |s| ensures s[i].item.key < s[j].item.key {
      var i', j' := if i <= |a| then i else i - 1, if j <= |a| then j else j - 1;
      assert i != |a| ==> s[i] == (a + b)[i'];
      assert j != |a| ==> s[j] == (a + b)[j'];
    }
  }

  /** In a sorted list an element divides what is below it from what is above it. */
  lemma SortedSplit<N>(a: seq<Entry<N>>, e: Entry<N>, b: seq<Entry<N>>)
    requires Sorted(a + [e] + b)
    ensures AllBelow(a, e.item.key) && AllAbove(b, e.item.key)
  {
    var s := a + [e] + b;
    assert s[|a|] == e;
    forall i | 0 <= i < |a| ensures a[i].item.key < e.item.key {
      assert s[i] == a[i];
    }
    forall i | 0 <= i < |b| ensures e.item.key < b[i].item.key {
      assert s[|a| + 1 + i] == b[i];
    }
  }

  /** The search for `key` has taken the right turns down to the hole of `p`. */
  ghost predicate Brackets<N>(p: Path<N>, key: nat) {
    AllBelow(Before(p), key) && AllAbove(After(p), key)
  }

  lemma {:induction false} BracketsChild<N>(p: Path<N>, t: Tree<N>, key: nat)
    requires t.Branch? && Sorted(Entries(Plug(p, t))) && Brackets(p, key)
    ensures key < t.item.key ==> Brackets(InLeft(p, t.node, t.height, t.item, t.right), key)
    ensures key > t.item.key ==> Brackets(InRight(p, t.left, t.node, t.height, t.item), key)
    ensures key == t.item.key ==> HasKey(Entries(Plug(p, t)), key)
  {
    PlugSplit(p, t);
    var e := Entry(t.node, t.item);
    var a, b := Before(p) + Entries(t.left), Entries(t.right) + After(p);
    SortedSplit(a, e, b);
    assert (a + [e] + b)[|a|] == e;
    assert [e] + Entries(t.right) + After(p) == [e] + b;
  }

  lemma BracketsParent<N>(p: Path<N>, key: nat)
    requires !p.Root? && Brackets(p, key)
    ensures if p.InLeft? then key < p.item.key else p.item.key < key
  {
    if p.InLeft? {
      assert After(p)[0] == Entry(p.node, p.item);
    } else {
      assert Before(p)[|Before(p)| - 1] == Entry(p.node, p.item);
    }
  }

  lemma {:induction false} LeafEntries<N>(p: Path<N>, e: Entry<N>)
    requires Sorted(Entries(Plug(p, Leaf))) && Brackets(p, e.item.key)
    ensures var leaf := Branch(Leaf, e.node, 1, e.item, Leaf);
            Entries(Plug(p, leaf)) == Inserted(Entries(Plug(p, Leaf)), e) && Sorted(Entries(Plug(p, leaf))) &&
            Nodes(leaf) == {e.node}
    ensures !HasKey(Entries(Plug(p, Leaf)), e.item.key)
  {
    var leaf := Branch(Leaf, e.node, 1, e.item, Leaf);
    PlugEntries(p, Leaf);
    PlugEntries(p, leaf);
    assert Entries(leaf) == [e];
    NoMiddle(Before(p), After(p));
    InsertedAt(Before(p), After(p), e);
    InsertedSorted(Before(p), After(p), e);
  }

  /** The place of a node in a tree. */
  ghost function Locate<N>(p: Path<N>, t: Tree<N>, n: N): (r: (Path<N>, Tree<N>))
    requires n in Nodes(t)
    ensures r.1.Branch? && r.1.node == n && Plug(r.0, r.1) == Plug(p, t)
    decreases t
  {
    if t.node == n then (p, t)
    else if n in Nodes(t.left) then Locate(InLeft(p, t.node, t.height, t.item, t.right), t.left, n)
    else Locate(InRight(p, t.left, t.node, t.height, t.item), t.right, n)
  }

  lemma {:induction false} EntryNodes<N>(t: Tree<N>, i: nat)
    requires i < |Entries(t)|
    ensures Entries(t)[i].node in Nodes(t)
  {
    var l := |Entries(t.left)|;
    if i < l {
      EntryNodes(t.left, i);
    } else if i > l {
      EntryNodes(t.right, i - l - 1);
    }
  }

  lemma {:induction false} EntriesDistinct<N>(t: Tree<N>, i: nat, j: nat)
    requires Distinct(t) && i < j < |Entries(t)|
    ensures Entries(t)[i].node != Entries(t)[j].node
  {
    var l := |Entries(t.left)|;
    if j < l {
      EntriesDistinct(t.left, i, j);
    } else if l < i {
      EntriesDistinct(t.right, i - l - 1, j - l - 1);
    } else {
      if i < l { EntryNodes(t.left, i); }
      if l < j { EntryNodes(t.right, j - l - 1); }
    }
  }

  /** A node occurs at one place of the traversal only. */
  lemma {:induction false} OnePlace<N>(t: Tree<N>, a: seq<Entry<N>>, b: seq<Entry<N>>, a': seq<Entry<N>>,
                                       b': seq<Entry<N>>, e: Entry<N>, e': Entry<N>)
    requires Distinct(t) && Entries(t) == a + [e] + b && Entries(t) == a' + [e'] + b' && e.node == e'.node
    ensures a == a' && e == e' && b == b'
  {
    var s := Entries(t);
    assert s[|a|] == e && s[|a'|] == e';
    if |a| < |a'| { EntriesDistinct(t, |a|, |a'|); }
    if |a'| < |a| { EntriesDistinct(t, |a'|, |a|); }
    assert a == s[..|a|] && a' == s[..|a'|] && b == s[|a| + 1..] && b' == s[|a'| + 1..];
  }

  ghost predicate OnlyChild<N>(t: Tree<N>, c: Tree<N>)
    requires t.Branch?
  {
    (t.left.Leaf? && c == t.right) || (t.right.Leaf? && c == t.left)
  }

  lemma {:induction false} DropEntries<N>(p: Path<N>, t: Tree<N>, c: Tree<N>)
    requires t.Branch? && OnlyChild(t, c) && Sorted(Entries(Plug(p, t)))
    ensures Entries(Plug(p, c)) == Before(p) + Entries(c) + After(p)
    ensures Sorted(Entries(Plug(p, c)))
  {
    PlugSplit(p, t);
    PlugEntries(p, c);
    var a, b := Before(p) + Entries(t.left), Entries(t.right) + After(p);
    SortedDrop(a, Entry(t.node, t.item), b);
    assert Before(p) + [] + b == Before(p) + b;
    assert Before(p) + Entries(c) + After(p) == a + b;
  }

  /** Putting the only child of a node in its place lowers the height there by one. */
  lemma {:induction false} DropHeights<N>(p: Path<N>, t: Tree<N>, c: Tree<N>)
    requires t.Branch? && OnlyChild(t, c) && Avl(Plug(p, t))
    ensures Avl(c) && PathAvl(p, t.height) && Abs(Height(c) - t.height) <= 1
    ensures Nodes(t) == Nodes(c) + {t.node}
  {
    PlugAvl(p, t);
    AvlHeightPositive(t.left);
    AvlHeightPositive(t.right);
  }

  lemma SortedDrop<N>(a: seq<Entry<N>>, e: Entry<N>, b: seq<Entry<N>>)
    requires Sorted(a + [e] + b)
    ensures Sorted(a + b)
  {
    var s := a + [e] + b;
    forall i, j | 0 <= i < j < |a + b| ensures (a + b)[i].item.key < (a + b)[j].item.key {
      var i', j' := if i < |a| then i else i + 1, if j < |a| then j else j + 1;
      assert s[i'] == (a + b)[i] && s[j'] == (a + b)[j];
    }
  }

  lemma ItemsConcat<N>(a: seq<Entry<N>>, b: seq<Entry<N>>)
    ensures Items(a + b) == Items(a) + Items(b)
  {
  }

  /** What removing the entry `e` between `a` and `b` is to leave: the other items in order. */
  ghost predicate Removed<N>(after: seq<Entry<N>>, a: seq<Entry<N>>, b: seq<Entry<N>>) {
    Items(after) == Items(a) + Items(b)
  }

  lemma {:induction false} SortedByItems<N>(s: seq<Entry<N>>, s': seq<Entry<N>>)
    requires Items(s) == Items(s') && Sorted(s)
    ensures Sorted(s')
  {
    forall i, j | 0 <= i < j < |s'| ensures s'[i].item.key < s'[j].item.key {
      assert Items(s)[i] == s[i].item && Items(s')[i] == s'[i].item;
      assert Items(s)[j] == s[j].item && Items(s')[j] == s'[j].item;
    }
  }

  /** Removing the successor's node and then giving its item to the node of `e` is removing
      the item of `e`. */
  lemma {:induction false} SuccessorTakesOver<N>(a: seq<Entry<N>>, e: Entry<N>, succ: Entry<N>, b: seq<Entry<N>>)
    ensures Removed(a + [Entry(e.node, succ.item)] + b, a, [succ] + b)
  {
    ItemsConcat(a, [Entry(e.node, succ.item)]);
    ItemsConcat(a + [Entry(e.node, succ.item)], b);
    ItemsConcat([succ], b);
    assert Items([Entry(e.node, succ.item)]) == Items([succ]);
  }

  /** Where a node is, as a place in the tree and as a position in the traversal. */
  lemma Find<N>(t: Tree<N>, n: N) returns (p: Path<N>, s: Tree<N>, i: nat)
    requires n in Nodes(t)
    ensures s.Branch? && s.node == n && Plug(p, s) == t
    ensures i < |Entries(t)| && Entries(t)[i] == Entry(n, s.item)
    ensures Entries(t)[..i] == Before(p) + Entries(s.left) && Entries(t)[i + 1..] == Entries(s.right) + After(p)
  {
    var r := Locate(Root, t, n);
    p, s := r.0, r.1;
    PlugSplit(p, s);
    i := |Before(p) + Entries(s.left)|;
  }

  /** Unlinking a node that has one child at most removes just its entry. */
  lemma {:induction false} RemovedWhole<N>(p: Path<N>, t: Tree<N>)
    requires t.Branch?
    ensures t.left.Leaf? ==>
              Removed(Before(p) + Entries(t.right) + After(p), Before(p) + Entries(t.left), Entries(t.right) + After(p))
    ensures t.right.Leaf? ==>
              Removed(Before(p) + Entries(t.left) + After(p), Before(p) + Entries(t.left), Entries(t.right) + After(p))
  {
    ItemsConcat(Before(p) + Entries(t.left), Entries(t.right) + After(p));
    assert Before(p) + [] == Before(p) && [] + After(p) == After(p);
    assert Before(p) + (Entries(t.right) + After(p)) == Before(p) + Entries(t.right) + After(p);
  }

  lemma RemovedSorted<N>(s: seq<Entry<N>>, i: nat, after: seq<Entry<N>>)
    requires Sorted(s) && i < |s| && Removed(after, s[..i], s[i + 1..])
    ensures Sorted(after) && |after| == |s| - 1
  {
    assert s == s[..i] + [s[i]] + s[i + 1..];
    SortedDrop(s[..i], s[i], s[i + 1..]);
    ItemsConcat(s[..i], s[i + 1..]);
    SortedByItems(s[..i] + s[i + 1..], after);
    assert |after| == |Items(after)|;
  }

  /** Giving the node of one entry another item changes that entry and nothing else. */
  lemma {:induction false} Reassign<N>(t: Tree<N>, a: seq<Entry<N>>, e: Entry<N>, b: seq<Entry<N>>, it: Item)
    returns (p: Path<N>, s: Tree<N>)
    requires Distinct(t) && Avl(t) && Entries(t) == a + [e] + b
    ensures s.Branch? && s.node == e.node && s.item == e.item && Plug(p, s) == t
    ensures var t' := Plug(p, s.(item := it));
            Entries(t') == a + [Entry(e.node, it)] + b && Nodes(t') == Nodes(t) && Avl(t')
  {
    assert Entries(t)[|a|] == e;
    EntryNodes(t, |a|);
    var r := Locate(Root, t, e.node);
    p, s := r.0, r.1;
    PlugSplit(p, s);
    OnePlace(t, a, b, Before(p) + Entries(s.left), Entries(s.right) + After(p), e, Entry(s.node, s.item));
    var s' := s.(item := it);
    PlugSplit(p, s');
    PlugNodes(p, s);
    PlugNodes(p, s');
    PlugAvl(p, s);
    PlugAvl(p, s');
  }

  lemma {:induction false} InsertedKeeps<N>(s: seq<Entry<N>>, e: Entry<N>)
    requires Sorted(s) && !HasKey(s, e.item.key)
    ensures Sorted(Inserted(s, e)) && |Inserted(s, e)| == |s| + 1
    ensures exists i :: 0 <= i <= |s| && Inserted(s, e) == s[..i] + [e] + s[i..]
  {
    var i := SplitPoint(s, e.item.key);
    assert s == s[..i] + s[i..];
    InsertedAt(s[..i], s[i..], e);
    InsertedSorted(s[..i], s[i..], e);
  }

  lemma SplitPoint<N>(s: seq<Entry<N>>, key: nat) returns (i: nat)
    requires Sorted(s) && !HasKey(s, key)
    ensures i <= |s| && AllBelow(s[..i], key) && AllAbove(s[i..], key)
  {
    i := 0;
    while i < |s| && s[i].item.key < key
      invariant i <= |s| && AllBelow(s[..i], key)
    {
      i := i + 1;
    }
  }

  // -------------------------------------------------------------------- search

  /** What the queue model looks for: the interval contains `[a, b]`, or it starts later and is
      long enough. */
  predicate Fits(iv: Interval, a: nat, b: nat) {
    (iv.first <= a && b <= iv.second) || (a < iv.first && iv.second - iv.first >= b - a)
  }

  /** Well-formed intervals, keyed by their start, with a gap between neighbours. */
  ghost predicate Separated<N>(s: seq<Entry<N>>) {
    && (forall i :: 0 <= i < |s| ==> s[i].item.key == s[i].item.interval.first <= s[i].item.interval.second)
    && (forall i, j :: 0 <= i < j < |s| ==> s[i].item.interval.second < s[j].item.interval.first)
  }

  /** `i` is where a scan from the left first finds a fitting interval, or the end. */
  ghost predicate FirstFit<N>(s: seq<Entry<N>>, a: nat, b: nat, i: nat) {
    && i <= |s|
    && (forall j :: 0 <= j < i ==> !Fits(s[j].item.interval, a, b))
    && (i < |s| ==> Fits(s[i].item.interval, a, b))
  }

  /** Nothing to the left of an interval that ends or starts too early can fit, so the left
      subtree may be skipped unless the whole request lies before the interval. */
  lemma LeftCannotFit<N>(l: seq<Entry<N>>, e: Entry<N>, r: seq<Entry<N>>, a: nat, b: nat)
    requires Separated(l + [e] + r) && a <= b && e.item.interval.first <= b
    ensures forall j :: 0 <= j < |l| ==> !Fits(l[j].item.interval, a, b)
  {
    var s := l + [e] + r;
    assert s[|l|] == e;
    forall j | 0 <= j < |l| ensures !Fits(l[j].item.interval, a, b) {
      assert s[j] == l[j];
    }
  }

  lemma SeparatedParts<N>(l: seq<Entry<N>>, e: Entry<N>, r: seq<Entry<N>>)
    requires Separated(l + [e] + r)
    ensures Separated(l) && Separated(r)
    ensures e.item.key == e.item.interval.first <= e.item.interval.second
  {
    var s := l + [e] + r;
    assert s[|l|] == e;
    assert forall j :: 0 <= j < |l| ==> s[j] == l[j];
    assert forall j :: 0 <= j < |r| ==> s[|l| + 1 + j] == r[j];
  }

  // -------------------------------------------------------------- logarithmic depth

  function Fib(n: nat): nat {
    if n < 2 then n else Fib(n - 1) + Fib(n - 2)
  }

  lemma {:induction false} FibMonotone(n: nat)
    ensures Fib(n) <= Fib(n + 1)
  {
    if n == 0 {
    } else {
      FibMonotone(n - 1);
    }
  }

  /** A balanced tree of height h has at least Fib(h + 2) - 1 nodes. */
  lemma {:induction false} AvlSize<N>(t: Tree<N>)
    requires Avl(t)
    ensures Height(t) >= 0 && Fib(Height(t) + 2) <= |Entries(t)| + 1
  {
    if t.Leaf? {
    } else {
      AvlSize(t.left);
      AvlSize(t.right);
      var h := t.height;
      var l, r := Height(t.left), Height(t.right);
      assert |Entries(t)| + 1 == (|Entries(t.left)| + 1) + (|Entries(t.right)| + 1);
      assert Fib(h + 2) == Fib(h + 1) + Fib(h);
      FibMonotone(h);
      assert (l == h - 1 || r == h - 1) && h - 2 <= l <= h - 1 && h - 2 <= r <= h - 1;
      assert Fib(l + 2) + Fib(r + 2) >= Fib(h + 1) + Fib(h);
    }
  }
}
