/** Bookings on a resource: a request asks for `processingTime` at `pktTime` and is served in the
    first free interval that can hold it. The free intervals live in an interval tree. */
module QueueModels {
  import opened IntervalTreeShape
  import opened IntervalTrees

  /** The slot `[first, second)` that a request was given. */
  type Slot = Interval

  ghost predicate Apart(x: Interval, y: Interval) {
    x.second <= y.first || y.second <= x.first
  }

  ghost predicate Inside(x: Interval, y: Interval) {
    y.first <= x.first && x.second <= y.second
  }

  /** Well-formed intervals keyed by their start, in order, with a gap between neighbours. */
  ghost predicate Gapped(s: seq<Item>) {
    && (forall i :: 0 <= i < |s| ==> s[i].key == s[i].interval.first <= s[i].interval.second)
    && (forall i, j :: 0 <= i < j < |s| ==> s[i].interval.second < s[j].interval.first)
  }

  /** No slot was given twice, and no free interval reaches into a slot that was given. */
  ghost predicate Consistent(free: seq<Item>, booked: seq<Slot>) {
    && Gapped(free)
    && (forall i, j :: 0 <= i < j < |booked| ==> Apart(booked[i], booked[j]))
    && (forall i, k :: 0 <= i < |free| && 0 <= k < |booked| ==> Apart(free[i].interval, booked[k]))
  }

  lemma GappedIsSeparated(s: seq<Entry<Node>>)
    ensures Gapped(Items(s)) <==> Separated(s)
    ensures Gapped(Items(s)) ==> Sorted(s)
  {
    var t := Items(s);
    assert forall i :: 0 <= i < |s| ==> t[i] == s[i].item;
    assert Separated(s) ==> Gapped(t);
    assert Gapped(t) ==> Separated(s);
  }

  /** What is left of the interval that a slot was cut from. */
  ghost predicate Remains(mid: seq<Item>, from: Interval) {
    Gapped(mid) && forall j :: 0 <= j < |mid| ==> Inside(mid[j].interval, from)
  }

  ghost function Splice(s: seq<Item>, i: nat, mid: seq<Item>): seq<Item>
    requires i < |s|
  {
    s[..i] + mid + s[i + 1..]
  }

  /** Each interval after the cut lies inside one from before, at the same side of the cut. */
  lemma SpliceAt(s: seq<Item>, i: nat, mid: seq<Item>, k: nat)
    requires i < |s| && k < |Splice(s, i, mid)|
    ensures k < i ==> Splice(s, i, mid)[k] == s[k]
    ensures i <= k < i + |mid| ==> Splice(s, i, mid)[k] == mid[k - i]
    ensures i + |mid| <= k ==> Splice(s, i, mid)[k] == s[k - |mid| + 1]
  {
  }

  lemma SpliceGapped(s: seq<Item>, i: nat, mid: seq<Item>)
    requires Gapped(s) && i < |s| && Remains(mid, s[i].interval)
    ensures Gapped(Splice(s, i, mid))
  {
    var r := Splice(s, i, mid);
    forall k | 0 <= k < |r| ensures r[k].key == r[k].interval.first <= r[k].interval.second {
      SpliceAt(s, i, mid, k);
    }
    forall j, k | 0 <= j < k < |r| ensures r[j].interval.second < r[k].interval.first {
      SpliceAt(s, i, mid, j);
      SpliceAt(s, i, mid, k);
    }
  }

  /** Cutting a slot out of one free interval keeps all bookings apart. */
  lemma CutConsistent(free: seq<Item>, booked: seq<Slot>, i: nat, mid: seq<Item>, slot: Slot)
    requires Consistent(free, booked) && i < |free| && Remains(mid, free[i].interval)
    requires Inside(slot, free[i].interval) && slot.first < slot.second
    requires forall j :: 0 <= j < |mid| ==> Apart(mid[j].interval, slot)
    ensures Consistent(Splice(free, i, mid), booked + [slot])
  {
    SpliceGapped(free, i, mid);
    var r, b := Splice(free, i, mid), booked + [slot];
    forall j, k | 0 <= j < |r| && 0 <= k < |b| ensures Apart(r[j].interval, b[k]) {
      SpliceAt(free, i, mid, j);
      if k < |booked| {
        assert b[k] == booked[k];
        assert Apart(free[i].interval, booked[k]);
      }
    }
    forall j, k | 0 <= j < k < |b| ensures Apart(b[j], b[k]) {
      if k == |booked| {
        assert Apart(free[i].interval, booked[j]);
      }
    }
  }

  lemma DropConsistent(free: seq<Item>, booked: seq<Slot>, i: nat)
    requires Consistent(free, booked) && i < |free|
    ensures Consistent(free[..i] + free[i + 1..], booked)
  {
    var r := free[..i] + free[i + 1..];
    forall j | 0 <= j < |r| ensures r[j] == free[if j < i then j else j + 1] {
    }
  }

  /** Inserting right after entry `i` puts the new entry at `i + 1`. */
  lemma {:induction false} InsertAfter(s: seq<Entry<Node>>, i: nat, e: Entry<Node>)
    requires Separated(s) && i < |s|
    requires s[i].item.interval.first < e.item.key <= s[i].item.interval.second
    ensures Inserted(s, e) == s[..i + 1] + [e] + s[i + 1..] && !HasKey(s, e.item.key)
  {
    assert s == s[..i + 1] + s[i + 1..];
    InsertedAt(s[..i + 1], s[i + 1..], e);
    forall j | 0 <= j < |s| ensures s[j].item.key != e.item.key {
    }
  }

  lemma ItemsSplice(s: seq<Entry<Node>>, i: nat, mid: seq<Entry<Node>>)
    requires i < |s|
    ensures Items(s[..i] + mid + s[i + 1..]) == Splice(Items(s), i, Items(mid))
  {
    ItemsConcat(s[..i], mid);
    ItemsConcat(s[..i] + mid, s[i + 1..]);
    assert Items(s[..i]) == Items(s)[..i] && Items(s[i + 1..]) == Items(s)[i + 1..];
  }

  ghost function SplitParts(iv: Interval, cut: nat, end: nat): seq<Item> {
    [Item(iv.first, Interval(iv.first, cut)), Item(end, Interval(end, iv.second))]
  }

  /** Inserting the later part and then shortening the entry itself splits it in two. */
  lemma SplitSequence(s: seq<Entry<Node>>, i: nat, e': Entry<Node>, e: Entry<Node>)
    requires Gapped(Items(s)) && i < |s| && e'.node == s[i].node
    requires var iv := s[i].item.interval;
             Remains([e'.item, e.item], iv) && iv.first < e.item.key <= iv.second
    ensures !HasKey(s, e.item.key) && i < |Inserted(s, e)| && Inserted(s, e)[i] == s[i]
    ensures Items(Inserted(s, e)[i := e']) == Splice(Items(s), i, [e'.item, e.item])
    ensures Sorted(Inserted(s, e)[i := e'])
  {
    GappedIsSeparated(s);
    InsertAfter(s, i, e);
    assert Inserted(s, e)[i := e'] == s[..i] + [e', e] + s[i + 1..];
    ItemsSplice(s, i, [e', e]);
    assert Items([e', e]) == [e'.item, e.item];
    assert Items(s)[i] == s[i].item;
    SpliceGapped(Items(s), i, [e'.item, e.item]);
    GappedIsSeparated(Inserted(s, e)[i := e']);
  }

  // ------------------------------------------------------------------- what a request leads to

  /** The first interval that fits, or the number of intervals. */
  ghost function FirstFitting(free: seq<Item>, a: nat, b: nat): (i: nat)
    ensures i <= |free|
  {
    if free == [] then 0 else if Fits(free[0].interval, a, b) then 0 else 1 + FirstFitting(free[1..], a, b)
  }

  lemma {:induction false} FirstFittingIs(free: seq<Item>, a: nat, b: nat, i: nat)
    requires i <= |free| && (forall j :: 0 <= j < i ==> !Fits(free[j].interval, a, b))
    requires i < |free| ==> Fits(free[i].interval, a, b)
    ensures FirstFitting(free, a, b) == i
  {
    if i == 0 {
    } else {
      FirstFittingIs(free[1..], a, b, i - 1);
    }
  }

  /** There is a fitting interval if and only if the search ends before the end. */
  lemma {:induction false} FirstFittingFits(free: seq<Item>, a: nat, b: nat)
    ensures var i := FirstFitting(free, a, b);
      && (i < |free| ==> Fits(free[i].interval, a, b))
      && (forall j :: 0 <= j < i ==> !Fits(free[j].interval, a, b))
  {
    if free == [] {
    } else {
      FirstFittingFits(free[1..], a, b);
    }
  }

  /** A request could be started at `x` within `iv`. */
  ghost predicate CanStart(iv: Interval, pktTime: nat, processingTime: nat, x: nat) {
    pktTime <= x && iv.first <= x && x + processingTime <= iv.second
  }

  /** Some free interval can hold the request. */
  ghost predicate CanHold(free: seq<Item>, pktTime: nat, processingTime: nat) {
    exists k, x: nat :: 0 <= k < |free| && CanStart(free[k].interval, pktTime, processingTime, x)
  }

  /** The request ends before the first interval with any room starts, so that the history says
      nothing about it. */
  ghost predicate BeforeAll(free: seq<Item>, end: nat) {
    var m := FirstFitting(free, 0, 1);
    m < |free| && free[m].interval.first > end
  }

  /** What is remembered of a full history: the first interval with any room is given up. */
  ghost predicate CanPrune(free: seq<Item>, most: nat) {
    |free| < most || FirstFitting(free, 0, 1) < |free|
  }

  ghost function Pruned(free: seq<Item>, most: nat): seq<Item>
    requires CanPrune(free, most)
  {
    if |free| < most then free
    else var m := FirstFitting(free, 0, 1); free[..m] + free[m + 1..]
  }

  lemma OneStays(free: seq<Item>, m: nat, k: nat)
    requires Gapped(free) && m < |free| && k < |free|
    ensures free[k] in free[..m] + free[m + 1..] <==> k != m
  {
    var rest := free[..m] + free[m + 1..];
    if k != m {
      assert rest[if k < m then k else k - 1] == free[k];
    } else {
      forall x | 0 <= x < |rest| ensures rest[x] != free[m] {
        var y := if x < m then x else x + 1;
        assert rest[x] == free[y] && free[y].interval.first != free[m].interval.first;
      }
    }
  }

  /** The request ends before all room if and only if there is room and all of it starts later. */
  lemma BeforeAllIs(free: seq<Item>, end: nat)
    requires Gapped(free)
    ensures BeforeAll(free, end) <==>
      && (exists k :: 0 <= k < |free| && free[k].interval.first < free[k].interval.second)
      && (forall k :: 0 <= k < |free| && free[k].interval.first < free[k].interval.second ==>
            free[k].interval.first > end)
  {
    FirstFittingFits(free, 0, 1);
    var m := FirstFitting(free, 0, 1);
    forall k | 0 <= k < |free|
      ensures Fits(free[k].interval, 0, 1) <==> free[k].interval.first < free[k].interval.second
    {
    }
  }

  /** Everything before the interval that is given up has no room for anybody. */
  lemma {:induction false} PrunedLosesOldest(free: seq<Item>, most: nat)
    requires Gapped(free) && |free| >= most && CanPrune(free, most)
    ensures var m := FirstFitting(free, 0, 1);
      && |Pruned(free, most)| == |free| - 1
      && (forall k :: 0 <= k < |free| ==> (free[k] in Pruned(free, most) <==> k != m))
      && free[m].interval.first < free[m].interval.second
      && forall k :: 0 <= k < m ==> free[k].interval.first == free[k].interval.second
  {
    forall k | 0 <= k < |free| { OneStays(free, FirstFitting(free, 0, 1), k); }
    FirstFittingFits(free, 0, 1);
    var m := FirstFitting(free, 0, 1);
    forall k | 0 <= k < m ensures free[k].interval.first == free[k].interval.second {
      assert !Fits(free[k].interval, 0, 1);
    }
  }

  /** A request can be held exactly when the search for it succeeds, and then it is served at the
      earliest time possible. */
  lemma {:induction false} SearchDecides(free: seq<Item>, pktTime: nat, processingTime: nat)
    requires Gapped(free)
    ensures var i := FirstFitting(free, pktTime, pktTime + processingTime);
      && (i < |free| <==> CanHold(free, pktTime, processingTime))
      && (i < |free| ==> CanStart(free[i].interval, pktTime, processingTime, Max(pktTime, free[i].interval.first)))
      && (forall k, x :: 0 <= k < |free| && CanStart(free[k].interval, pktTime, processingTime, x) ==>
            i < |free| && Max(pktTime, free[i].interval.first) <= x)
  {
    var end := pktTime + processingTime;
    FirstFittingFits(free, pktTime, end);
    var i := FirstFitting(free, pktTime, end);
    if i < |free| { assert CanStart(free[i].interval, pktTime, processingTime, Max(pktTime, free[i].interval.first)); }
    forall k, x | 0 <= k < |free| && CanStart(free[k].interval, pktTime, processingTime, x)
      ensures i < |free| && Max(pktTime, free[i].interval.first) <= x
    {
      assert Fits(free[k].interval, pktTime, end);
      assert i <= k;
    }
  }

  /** Whoever can be held leaves room for the shortest request, so a history in which nothing has
      room holds nobody. */
  lemma {:induction false} HeldMeansRoom(free: seq<Item>, pktTime: nat, processingTime: nat)
    requires processingTime >= 1 && CanHold(free, pktTime, processingTime)
    ensures FirstFitting(free, 0, 1) < |free|
  {
    var k, x: nat :| 0 <= k < |free| && CanStart(free[k].interval, pktTime, processingTime, x);
    FirstFittingFits(free, 0, 1);
    assert Fits(free[k].interval, 0, 1);
  }

  /** What stays free of an interval beside a slot: a part before it if the request found the
      interval open, a part after it, each only if it is long enough. */
  ghost function LeftPart(iv: Interval, pktTime: nat, least: nat): seq<Item> {
    if pktTime >= iv.first && pktTime - iv.first >= least then [Item(iv.first, Interval(iv.first, pktTime))] else []
  }

  ghost function RightPart(iv: Interval, end: nat, least: nat): seq<Item> {
    if iv.second >= end && iv.second - end >= least then [Item(end, Interval(end, iv.second))] else []
  }

  ghost function Kept(iv: Interval, pktTime: nat, end: nat, least: nat): seq<Item> {
    LeftPart(iv, pktTime, least) + RightPart(iv, end, least)
  }

  lemma OnlyRight(iv: Interval, pktTime: nat, end: nat, least: nat)
    requires pktTime < iv.first
    ensures Kept(iv, pktTime, end, least) == RightPart(iv, end, least)
  {
  }

  /** What is kept lies in the interval and apart from the slot. */
  lemma KeptIsCut(iv: Interval, pktTime: nat, end: nat, least: nat)
    requires Max(pktTime, iv.first) < end <= iv.second
    ensures CutFrom(Kept(iv, pktTime, end, least), iv, Interval(Max(pktTime, iv.first), end))
  {
  }

  /** The slot a request gets in an interval: at once, or when the interval starts. */
  ghost function SlotIn(iv: Interval, pktTime: nat, processingTime: nat): Slot {
    Interval(Max(pktTime, iv.first), Max(pktTime, iv.first) + processingTime)
  }

  /** The free intervals after a request was served in the one at `i`. */
  ghost function AfterServing(free: seq<Item>, i: nat, pktTime: nat, processingTime: nat, least: nat): seq<Item>
    requires i < |free|
  {
    Splice(free, i, Kept(free[i].interval, pktTime, SlotIn(free[i].interval, pktTime, processingTime).second, least))
  }

  lemma SlotCut(free: seq<Item>, booked: seq<Slot>, i: nat, pktTime: nat, processingTime: nat, least: nat)
    requires Consistent(free, booked) && i < |free| && processingTime >= 1
    requires Fits(free[i].interval, pktTime, pktTime + processingTime)
    ensures var slot := SlotIn(free[i].interval, pktTime, processingTime);
      Consistent(AfterServing(free, i, pktTime, processingTime, least), booked + [slot])
  {
    var iv, slot := free[i].interval, SlotIn(free[i].interval, pktTime, processingTime);
    KeptIsCut(iv, pktTime, slot.second, least);
    CutConsistent(free, booked, i, Kept(iv, pktTime, slot.second, least), slot);
  }

  /** What is free after a slot was given away is what was free before, beside the slot: every
      stretch that is long enough to be of use is still inside a free interval, and nothing is free
      that was not, nothing that overlaps the slot, and no remainder that is too short. */
  ghost predicate FreeBeside(free: seq<Item>, after: seq<Item>, slot: Slot, least: nat) {
    && (forall k, j: Interval :: 0 <= k < |free| && Useful(j, free[k].interval, slot, least) ==> Within(j, after))
    && (forall k :: 0 <= k < |after| ==>
          && Apart(after[k].interval, slot)
          && (after[k] in free || (Within(after[k].interval, free) && Long(after[k].interval, least))))
  }

  ghost predicate Long(j: Interval, least: nat) { j.second >= j.first + least }

  /** A stretch of the interval beside the slot, long enough for a request. */
  ghost predicate Useful(j: Interval, iv: Interval, slot: Slot, least: nat) {
    Inside(j, iv) && Apart(j, slot) && Long(j, Max(1, least))
  }

  ghost predicate Within(j: Interval, free: seq<Item>) {
    exists k :: 0 <= k < |free| && Inside(j, free[k].interval)
  }

  /** A stretch of one free interval beside the slot lies in what is kept of the interval. */
  lemma KeptHolds(iv: Interval, pktTime: nat, end: nat, least: nat, j: Interval)
    requires Max(pktTime, iv.first) < end <= iv.second
    requires Useful(j, iv, Interval(Max(pktTime, iv.first), end), least)
    ensures Within(j, Kept(iv, pktTime, end, least))
  {
    var left, right := LeftPart(iv, pktTime, least), RightPart(iv, end, least);
    if j.second <= Max(pktTime, iv.first) {
      assert Kept(iv, pktTime, end, least)[0] == left[0];
    } else {
      assert Kept(iv, pktTime, end, least)[|left|] == right[0];
    }
  }

  lemma StillFree(free: seq<Item>, i: nat, pktTime: nat, processingTime: nat, least: nat, k: nat, j: Interval)
    requires Gapped(free) && i < |free| && processingTime >= 1 && k < |free|
    requires Fits(free[i].interval, pktTime, pktTime + processingTime)
    requires Useful(j, free[k].interval, SlotIn(free[i].interval, pktTime, processingTime), least)
    ensures Within(j, AfterServing(free, i, pktTime, processingTime, least))
  {
    var slot := SlotIn(free[i].interval, pktTime, processingTime);
    var kept := Kept(free[i].interval, pktTime, slot.second, least);
    var after := AfterServing(free, i, pktTime, processingTime, least);
    if k < i {
      assert after[k] == free[k];
    } else if k > i {
      assert after[k - 1 + |kept|] == free[k];
    } else {
      KeptHolds(free[i].interval, pktTime, slot.second, least, j);
      var x :| 0 <= x < |kept| && Inside(j, kept[x].interval);
      assert after[i + x] == kept[x];
    }
  }

  lemma ServedBeside(free: seq<Item>, i: nat, pktTime: nat, processingTime: nat, least: nat)
    requires Gapped(free) && i < |free| && processingTime >= 1
    requires Fits(free[i].interval, pktTime, pktTime + processingTime)
    ensures var after := AfterServing(free, i, pktTime, processingTime, least);
      FreeBeside(free, after, SlotIn(free[i].interval, pktTime, processingTime), least)
  {
    var iv, slot := free[i].interval, SlotIn(free[i].interval, pktTime, processingTime);
    var kept, after := Kept(iv, pktTime, slot.second, least), AfterServing(free, i, pktTime, processingTime, least);
    forall k, j: Interval | 0 <= k < |free| && Useful(j, free[k].interval, slot, least) ensures Within(j, after) {
      StillFree(free, i, pktTime, processingTime, least, k, j);
    }
    KeptIsCut(iv, pktTime, slot.second, least);
    forall k | 0 <= k < |after|
      ensures Apart(after[k].interval, slot)
      ensures after[k] in free || (Within(after[k].interval, free) && Long(after[k].interval, least))
    {
      SpliceAt(free, i, kept, k);
    }
  }

  /** A later request can be held if and only if it could be held before at a time beside the slot. */
  lemma LaterRequests(free: seq<Item>, after: seq<Item>, slot: Slot, least: nat, pktTime: nat, n: nat)
    requires FreeBeside(free, after, slot, least) && n >= Max(1, least)
    ensures CanHold(after, pktTime, n) <==>
            exists k, x: nat :: 0 <= k < |free| && CanStart(free[k].interval, pktTime, n, x) &&
                                Apart(Interval(x, x + n), slot)
  {
    if CanHold(after, pktTime, n) {
      var k, x: nat :| 0 <= k < |after| && CanStart(after[k].interval, pktTime, n, x);
      assert Within(after[k].interval, free);
      var i :| 0 <= i < |free| && Inside(after[k].interval, free[i].interval);
      assert CanStart(free[i].interval, pktTime, n, x);
    }
    if k, x: nat :| 0 <= k < |free| && CanStart(free[k].interval, pktTime, n, x) && Apart(Interval(x, x + n), slot) {
      var j := Interval(x, x + n);
      assert Useful(j, free[k].interval, slot, least) && Within(j, after);
      var i :| 0 <= i < |after| && Inside(j, after[i].interval);
      assert CanStart(after[i].interval, pktTime, n, x);
    }
  }

  /** `mid` is what is left of `iv` beside the slot. */
  ghost predicate CutFrom(mid: seq<Item>, iv: Interval, slot: Slot) {
    Remains(mid, iv) && forall j :: 0 <= j < |mid| ==> Apart(mid[j].interval, slot)
  }

  datatype Answer =
    | Delay(cycles: nat)       // served in a free interval, this long after the packet's time
    | Analytical               // history too short: the analytical model is asked instead
    | NoFreeInterval           // reported as an error

  class QueueModelHistoryTree {
    const minProcessingTime: nat
    const maxFreeIntervals: nat
    const analyticalModelEnabled: bool
    var tree: IntervalTree
    ghost var booked: seq<Slot>

    ghost function Free(): seq<Item>
      reads this, tree
    {
      Items(tree.Contents())
    }

    ghost predicate Valid()
      reads this, tree, tree.nodes
    {
      tree.Valid() && Consistent(Free(), booked) && tree.size <= maxFreeIntervals
    }

    constructor (minProcessingTime: nat, maxFreeIntervals: nat, analyticalModelEnabled: bool, horizon: nat)
      requires maxFreeIntervals >= 1
      ensures Valid() && fresh(tree) && fresh(tree.nodes)
      ensures Free() == [Item(0, Interval(0, horizon))] && booked == []
    {
      this.minProcessingTime := minProcessingTime;
      this.maxFreeIntervals := maxFreeIntervals;
      this.analyticalModelEnabled := analyticalModelEnabled;
      var start := new Node(Interval(0, horizon));
      tree := new IntervalTree(start);
      booked := [];
      new;
      assert Free()[0] == Item(0, Interval(0, horizon));
    }

    /** The oldest interval with room is given up once the tree is full; what was booked stays
        booked. */
    method Prune() returns (ok: bool)
      requires Valid()
      modifies tree, tree.nodes
      ensures Valid() && tree.nodes <= old(tree.nodes)
      ensures ok <==> CanPrune(old(Free()), maxFreeIntervals)
      ensures ok ==> tree.size < maxFreeIntervals && Free() == Pruned(old(Free()), maxFreeIntervals)
      ensures !ok ==> Free() == old(Free())
    {
      GappedIsSeparated(tree.Contents());
      var minNode, i := tree.Search(0, 1);
      FirstFittingIs(Free(), 0, 1, i);
      if tree.size >= maxFreeIntervals {
        if minNode == null {
          return false;
        }
        DropNode(minNode, i);
        DropConsistent(old(Free()), booked, i);
        assert old(Free())[..i] + [] == old(Free())[..i];
      }
      return true;
    }

    /** Both ends of the interval stay free: a new node takes the later part. */
    method SplitNode(node: Node, pktTime: nat, end: nat, ghost i: nat)
      requires tree.Valid() && Gapped(Free()) && i < |tree.Contents()| && tree.Contents()[i].node == node
      requires node.interval == tree.Contents()[i].item.interval
      requires node.interval.first <= pktTime < end <= node.interval.second
      modifies tree, tree.nodes
      ensures tree.Valid() && fresh(tree.nodes - old(tree.nodes)) && tree.size == old(tree.size) + 1
      ensures Free() == Splice(old(Free()), i, SplitParts(old(Free())[i].interval, pktTime, end))
    {
      ghost var s := tree.Contents();
      var first := node.interval.first;
      GappedIsSeparated(s);
      NonEmptyRoot(i);
      EntryNodes(tree.tree, i);
      var next := new Node(Interval(end, node.interval.second));
      ghost var e, e' := Entry(next, Item(end, next.interval)), Entry(node, Item(first, Interval(first, pktTime)));
      SplitSequence(s, i, e', e);
      var ok := tree.Insert(next);
      tree.Rewrite(node, Interval(first, pktTime), i);
    }

    lemma NonEmptyRoot(i: nat)
      requires tree.Valid() && i < |tree.Contents()|
      ensures tree.root != null
    {
    }

    /** One part of the interval stays free. */
    method ShrinkNode(node: Node, interval: Interval, ghost i: nat)
      requires tree.Valid() && Gapped(Free()) && i < |tree.Contents()| && tree.Contents()[i].node == node
      requires Inside(interval, Free()[i].interval) && interval.first <= interval.second
      modifies tree, tree.nodes
      ensures tree.Valid() && tree.nodes == old(tree.nodes) && tree.size == old(tree.size)
      ensures Free() == Splice(old(Free()), i, [Item(interval.first, interval)])
    {
      ghost var s := tree.Contents();
      ghost var e := Entry(node, Item(interval.first, interval));
      assert s[i := e] == s[..i] + [e] + s[i + 1..];
      ItemsSplice(s, i, [e]);
      assert Items([e]) == [e.item];
      SpliceGapped(Items(s), i, [e.item]);
      GappedIsSeparated(s[i := e]);
      EntryNodes(tree.tree, i);
      tree.Rewrite(node, interval, i);
    }

    method DropNode(node: Node, ghost i: nat)
      requires tree.Valid() && Gapped(Free()) && i < |tree.Contents()| && tree.Contents()[i].node == node
      modifies tree, tree.nodes
      ensures tree.Valid() && tree.nodes <= old(tree.nodes) && tree.size == old(tree.size) - 1
      ensures Free() == Splice(old(Free()), i, [])
    {
      ghost var s := tree.Contents();
      ghost var t := tree.tree;
      EntryNodes(t, i);
      var removed, j := tree.Remove(node);
      if i < j { EntriesDistinct(t, i, j); }
      if j < i { EntriesDistinct(t, j, i); }
      assert Items(s[..i]) == Items(s)[..i] && Items(s[i + 1..]) == Items(s)[i + 1..];
      assert Items(s)[..i] + [] == Items(s)[..i];
    }

    /** The interval is already free when the packet arrives. Remainders shorter than the minimum
        processing time are given up. */
    method CutAt(node: Node, pktTime: nat, end: nat, ghost i: nat)
      requires tree.Valid() && Gapped(Free()) && i < |tree.Contents()| && tree.Contents()[i].node == node
      requires node.interval == tree.Contents()[i].item.interval
      requires node.interval.first <= pktTime < end <= node.interval.second
      modifies tree, tree.nodes
      ensures tree.Valid() && fresh(tree.nodes - old(tree.nodes)) && tree.size <= old(tree.size) + 1
      ensures Free() == Splice(old(Free()), i, Kept(old(Free())[i].interval, pktTime, end, minProcessingTime))
    {
      assert Free()[i].interval == node.interval;
      var first, second := node.interval.first, node.interval.second;
      if pktTime - first >= minProcessingTime {
        if second - end >= minProcessingTime {
          assert Kept(node.interval, pktTime, end, minProcessingTime) == SplitParts(node.interval, pktTime, end);
          SplitNode(node, pktTime, end, i);
        } else {
          assert Kept(node.interval, pktTime, end, minProcessingTime) == [Item(first, Interval(first, pktTime))];
          ShrinkNode(node, Interval(first, pktTime), i);
        }
      } else {
        assert Kept(node.interval, pktTime, end, minProcessingTime) == RightPart(node.interval, end, minProcessingTime);
        CutFront(node, end, i);
      }
    }

    /** Only the part after the slot may stay free. */
    method CutFront(node: Node, end: nat, ghost i: nat)
      requires tree.Valid() && Gapped(Free()) && i < |tree.Contents()| && tree.Contents()[i].node == node
      requires node.interval == tree.Contents()[i].item.interval
      requires node.interval.first < end <= node.interval.second
      modifies tree, tree.nodes
      ensures tree.Valid() && tree.nodes <= old(tree.nodes) && tree.size <= old(tree.size)
      ensures Free() == Splice(old(Free()), i, RightPart(old(Free())[i].interval, end, minProcessingTime))
    {
      assert Free()[i].interval == node.interval;
      var second := node.interval.second;
      if second - end >= minProcessingTime {
        ShrinkNode(node, Interval(end, second), i);
      } else {
        DropNode(node, i);
      }
    }

    /** Cut the slot out of the free interval at `i`. */
    method Cut(node: Node, pktTime: nat, processingTime: nat, ghost i: nat) returns (delay: nat)
      requires tree.Valid() && Gapped(Free()) && i < |tree.Contents()| && tree.Contents()[i].node == node
      requires node.interval == tree.Contents()[i].item.interval
      requires Fits(node.interval, pktTime, pktTime + processingTime) && processingTime >= 1
      modifies tree, tree.nodes
      ensures tree.Valid() && fresh(tree.nodes - old(tree.nodes)) && tree.size <= old(tree.size) + 1
      ensures pktTime + delay == Max(pktTime, old(Free())[i].interval.first)
      ensures Free() == AfterServing(old(Free()), i, pktTime, processingTime, minProcessingTime)
    {
      assert Free()[i].interval == node.interval;
      ghost var slot := SlotIn(node.interval, pktTime, processingTime);
      if pktTime >= node.interval.first {
        delay := 0;
        assert slot.second == pktTime + processingTime;
        CutAt(node, pktTime, pktTime + processingTime, i);
      } else {
        delay := node.interval.first - pktTime;
        assert slot.second == node.interval.first + processingTime;
        OnlyRight(node.interval, pktTime, slot.second, minProcessingTime);
        CutFront(node, node.interval.first + processingTime, i);
      }
    }

    /** Cut the slot out of the free interval at `i` and book it. */
    method Serve(node: Node, pktTime: nat, processingTime: nat, ghost i: nat) returns (delay: nat)
      requires Valid() && tree.size < maxFreeIntervals && processingTime >= 1
      requires i < |tree.Contents()| && tree.Contents()[i].node == node
      requires node.interval == tree.Contents()[i].item.interval
      requires Fits(node.interval, pktTime, pktTime + processingTime)
      modifies this`booked, tree, tree.nodes
      ensures Valid() && fresh(tree.nodes - old(tree.nodes))
      ensures pktTime + delay == Max(pktTime, old(Free())[i].interval.first)
      ensures booked == old(booked) + [Interval(pktTime + delay, pktTime + delay + processingTime)]
      ensures var slot := Interval(pktTime + delay, pktTime + delay + processingTime);
        FreeBeside(old(Free()), Free(), slot, minProcessingTime)
      ensures Free() == AfterServing(old(Free()), i, pktTime, processingTime, minProcessingTime)
    {
      assert Free()[i] == tree.Contents()[i].item;
      ghost var slot := SlotIn(node.interval, pktTime, processingTime);
      SlotCut(Free(), booked, i, pktTime, processingTime, minProcessingTime);
      ServedBeside(Free(), i, pktTime, processingTime, minProcessingTime);
      delay := Cut(node, pktTime, processingTime, i);
      assert slot == Interval(pktTime + delay, pktTime + delay + processingTime);
      booked := booked + [slot];
    }

    /** The interval a request is to be served in, if any can hold it. */
    method FindSlot(pktTime: nat, processingTime: nat) returns (node: Node?, ghost i: nat)
      requires Valid()
      ensures i == FirstFitting(Free(), pktTime, pktTime + processingTime)
      ensures node == null <==> !CanHold(Free(), pktTime, processingTime)
      ensures node != null <==> i < |Free()|
      ensures node != null ==>
        && tree.Contents()[i].node == node && node in tree.nodes
        && node.interval == tree.Contents()[i].item.interval
        && Fits(node.interval, pktTime, pktTime + processingTime)
    {
      GappedIsSeparated(tree.Contents());
      node, i := tree.Search(pktTime, pktTime + processingTime);
      FirstFittingIs(Free(), pktTime, pktTime + processingTime, i);
      SearchDecides(Free(), pktTime, processingTime);
      if node != null {
        NodeRead(tree.tree, null, i);
      }
    }

    /** Whether a request ends before the oldest room still remembered. */
    method BeforeHistory(end: nat) returns (answer: Answer)
      requires Valid()
      ensures answer == NoFreeInterval <==> FirstFitting(Free(), 0, 1) == |Free()|
      ensures answer == Analytical <==> BeforeAll(Free(), end)
      ensures answer.Delay? ==> answer == Delay(0)
    {
      GappedIsSeparated(tree.Contents());
      var minNode, m := tree.Search(0, 1);
      FirstFittingIs(Free(), 0, 1, m);
      if minNode == null {
        return NoFreeInterval;
      }
      NodeRead(tree.tree, null, m);
      assert Free()[m] == tree.Contents()[m].item;
      return if minNode.interval.first > end then Analytical else Delay(0);
    }

    /** A request for the history: served if and only if some free interval can hold it. */
    method ServeFromHistory(pktTime: nat, processingTime: nat) returns (answer: Answer)
      requires Valid() && tree.size < maxFreeIntervals && processingTime >= 1
      modifies this`booked, tree, tree.nodes
      ensures Valid() && fresh(tree.nodes - old(tree.nodes)) && answer != Analytical
      ensures answer.Delay? <==> CanHold(old(Free()), pktTime, processingTime)
      ensures answer.Delay? ==> ServedAt(old(Free()), old(booked), pktTime, processingTime, answer.cycles)
      ensures !answer.Delay? ==> booked == old(booked) && Free() == old(Free())
    {
      SearchDecides(Free(), pktTime, processingTime);
      var node, i := FindSlot(pktTime, processingTime);
      if node == null {
        return NoFreeInterval;
      }
      var delay := Serve(node, pktTime, processingTime, i);
      return Delay(delay);
    }

    /** A request once there is room for one more free interval. It is left to the analytical model
        if and only if that is enabled and the request ends before all room; otherwise it is served
        if and only if some free interval can hold it, then at the earliest time possible. */
    method ServeRequest(pktTime: nat, processingTime: nat) returns (answer: Answer)
      requires Valid() && tree.size < maxFreeIntervals && processingTime >= 1
      modifies this`booked, tree, tree.nodes
      ensures Valid() && fresh(tree.nodes - old(tree.nodes))
      ensures answer == Analytical <==> analyticalModelEnabled && BeforeAll(old(Free()), pktTime + processingTime)
      ensures answer.Delay? <==> answer != Analytical && CanHold(old(Free()), pktTime, processingTime)
      ensures answer.Delay? ==> ServedAt(old(Free()), old(booked), pktTime, processingTime, answer.cycles)
      ensures !answer.Delay? ==> booked == old(booked) && Free() == old(Free())
    {
      if analyticalModelEnabled {
        var early := BeforeHistory(pktTime + processingTime);
        if early != Delay(0) {
          if CanHold(Free(), pktTime, processingTime) { HeldMeansRoom(Free(), pktTime, processingTime); }
          return early;
        }
      }
      answer := ServeFromHistory(pktTime, processingTime);
    }

    /** The request was given the slot after this delay: it is booked, it was free, no earlier start
        was possible, and what is long enough of the interval stays free. */
    ghost predicate ServedAt(free: seq<Item>, before: seq<Slot>, pktTime: nat, processingTime: nat, delay: nat)
      reads this, tree
    {
      var i := FirstFitting(free, pktTime, pktTime + processingTime);
      && i < |free| && CanStart(free[i].interval, pktTime, processingTime, pktTime + delay)
      && (forall k, x :: 0 <= k < |free| && CanStart(free[k].interval, pktTime, processingTime, x) ==>
            pktTime + delay <= x)
      && var slot := Interval(pktTime + delay, pktTime + delay + processingTime);
         booked == before + [slot] && FreeBeside(free, Free(), slot, minProcessingTime)
    }

    /** One request. A full history first gives up its oldest room; without any there is no answer.
        After that the request is answered as above, and whatever happened before, a slot that is
        handed out overlaps none handed out earlier. */
    method ComputeQueueDelay(pktTime: nat, processingTime: nat) returns (answer: Answer)
      requires Valid() && processingTime >= 1
      modifies this`booked, tree, tree.nodes
      ensures Valid() && fresh(tree.nodes - old(tree.nodes))
      ensures !CanPrune(old(Free()), maxFreeIntervals) ==> answer == NoFreeInterval && Free() == old(Free())
      ensures CanPrune(old(Free()), maxFreeIntervals) ==>
        var free := Pruned(old(Free()), maxFreeIntervals);
        && (answer == Analytical <==> analyticalModelEnabled && BeforeAll(free, pktTime + processingTime))
        && (answer.Delay? <==> answer != Analytical && CanHold(free, pktTime, processingTime))
        && (answer.Delay? ==> ServedAt(free, old(booked), pktTime, processingTime, answer.cycles))
        && (!answer.Delay? ==> Free() == free)
      ensures !answer.Delay? ==> booked == old(booked)
    {
      var ok := Prune();
      if !ok {
        return NoFreeInterval;
      }
      answer := ServeRequest(pktTime, processingTime);
    }
  }

  lemma {:induction false} NodeRead(t: Tree<Node>, parent: Node?, i: nat)
    requires Linked(t, parent) && i < |Entries(t)|
    ensures Entries(t)[i].node.interval == Entries(t)[i].item.interval
  {
    var l := |Entries(t.left)|;
    if i < l {
      NodeRead(t.left, t.node, i);
    } else if i > l {
      NodeRead(t.right, t.node, i - l - 1);
    }
  }
}
