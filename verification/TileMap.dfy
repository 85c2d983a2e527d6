/** Which process simulates which tile, and where the stack of each thread lies. Application tiles
    go round robin, then comes one thread-spawner tile per process, then the master's tile. */
module TileMap {
  import opened Arithmetic
  import opened Basics

  /** The process of a tile: processes procs, tiles in all total. */
  function ProcOf(t: nat, procs: nat, total: nat): nat
    requires procs > 0 && procs + 1 <= total
  {
    if t < total - procs - 1 then t % procs else if t < total - 1 then t - (total - procs - 1) else 0
  }

  /** The thread spawner of a process. */
  function ThreadSpawnerTile(p: nat, procs: nat, total: nat): nat
    requires p < procs && procs + 1 <= total
  {
    total - (1 + procs - p)
  }

  ghost predicate Increasing(s: seq<nat>) { forall i, j :: 0 <= i < j < |s| ==> s[i] < s[j] }

  /** A list holds exactly the tiles below a bound that belong to a process of the round robin. */
  ghost predicate RoundRobin(s: seq<nat>, p: nat, procs: nat, bound: nat)
    requires procs > 0
  {
    Increasing(s) && forall t: nat :: t in s <==> t < bound && t % procs == p
  }

  lemma AppendIncreasing(s: seq<nat>, t: nat)
    requires Increasing(s) && forall k :: 0 <= k < |s| ==> s[k] < t
    ensures Increasing(s + [t])
  {
  }

  lemma NextInTurn(i: nat, procs: nat)
    requires procs > 0
    ensures (i + 1) % procs == (i % procs + 1) % procs
  {
    var q, r := i / procs, i % procs;
    if r + 1 == procs {
      Remainder(i + 1, procs, q + 1, 0);
      Remainder(r + 1, procs, 1, 0);
    } else {
      Remainder(i + 1, procs, q, r + 1);
      Remainder(r + 1, procs, 0, r + 1);
    }
  }

  method ComputeProcessToTileMapping(procs: nat, total: nat) returns (m: seq<seq<nat>>)
    requires procs > 0
    ensures |m| == procs && forall p :: 0 <= p < procs ==> RoundRobin(m[p], p, procs, total)
  {
    m := seq(procs, _ => []);
    var cur, i := 0, 0;
    while i < total
      invariant i <= total && |m| == procs && cur == i % procs
      invariant forall p :: 0 <= p < procs ==> RoundRobin(m[p], p, procs, i)
    {
      assert forall k :: 0 <= k < |m[cur]| ==> m[cur][k] in m[cur];
      AppendIncreasing(m[cur], i);
      m := m[cur := m[cur] + [i]];
      NextInTurn(i, procs);
      cur := (cur + 1) % procs;
      i := i + 1;
    }
  }

  /** The map as the simulator uses it. */
  ghost predicate IsTileMap(lists: seq<seq<nat>>, proc: seq<nat>, procs: nat, total: nat)
    requires procs > 0 && procs + 1 <= total
  {
    && |lists| == procs && |proc| == total
    && (forall t :: 0 <= t < total ==> proc[t] == ProcOf(t, procs, total))
    && (forall p :: 0 <= p < procs ==> ListOf(lists[p], p, procs, total, total))
  }

  /** A list holds exactly the tiles of a process below a bound. */
  ghost predicate ListOf(s: seq<nat>, p: nat, procs: nat, total: nat, bound: nat)
    requires procs > 0 && procs + 1 <= total
  {
    Increasing(s) && forall t: nat :: t in s <==> t < bound && ProcOf(t, procs, total) == p
  }

  /** The tiles of one process that are below the thread spawners, entered in both directions. */
  method CopyApplicationTiles(tiles: seq<nat>, p: nat, procs: nat, bound: nat, proc: seq<nat>)
    returns (list: seq<nat>, proc': seq<nat>)
    requires procs > 0 && p < procs && bound <= |proc| && RoundRobin(tiles, p, procs, |proc|)
    ensures RoundRobin(list, p, procs, bound) && |proc'| == |proc|
    ensures forall t :: 0 <= t < |proc| ==> proc'[t] == if t < bound && t % procs == p then p else proc[t]
  {
    list, proc' := [], proc;
    var k := 0;
    while k < |tiles|
      invariant k <= |tiles| && |proc'| == |proc| && Increasing(list)
      invariant forall t: nat :: t in list <==> t in tiles[..k] && t < bound
      invariant forall t :: 0 <= t < |proc| ==> proc'[t] == if t < bound && t in tiles[..k] then p else proc[t]
    {
      var t := tiles[k];
      assert t in tiles && tiles[..k + 1] == tiles[..k] + [t];
      if t < bound {
        forall i | 0 <= i < |list| ensures list[i] < t { assert list[i] in list; }
        AppendIncreasing(list, t);
        proc' := proc'[t := p];
        list := list + [t];
      }
      k := k + 1;
    }
    assert tiles[..k] == tiles;
  }

  method GenerateTileMap(procs: nat, total: nat) returns (lists: seq<seq<nat>>, proc: seq<nat>)
    requires procs > 0 && procs + 1 <= total
    ensures IsTileMap(lists, proc, procs, total)
    ensures forall t :: 0 <= t < total - procs - 1 ==> proc[t] == t % procs
    ensures forall t :: total - procs - 1 <= t < total - 1 ==> proc[t] == t - (total - procs - 1)
    ensures proc[total - 1] == 0
    ensures forall p, t :: 0 <= p < procs && 0 <= t < total ==> (t in lists[p] <==> proc[t] == p)
  {
    var mapping := ComputeProcessToTileMapping(procs, total);
    var bound := total - procs - 1;
    lists, proc := seq(procs, _ => []), seq(total, _ => 0);
    var i := 0;
    while i < procs
      invariant i <= procs && |lists| == procs && |proc| == total
      invariant forall p :: 0 <= p < i ==> RoundRobin(lists[p], p, procs, bound)
      invariant forall t :: 0 <= t < bound && t % procs < i ==> proc[t] == t % procs
    {
      var list, proc' := CopyApplicationTiles(mapping[i], i, procs, bound, proc);
      lists, proc := lists[i := list], proc';
      i := i + 1;
    }
    forall p | 0 <= p < procs
      ensures ListOf(lists[p], p, procs, total, bound)
    {
      assert RoundRobin(lists[p], p, procs, bound);
    }
    forall t | 0 <= t < bound ensures proc[t] == ProcOf(t, procs, total) { assert t % procs < procs; }
    lists, proc := AssignSpawners(procs, total, lists, proc);
    assert forall k :: 0 <= k < |lists[0]| ==> lists[0][k] in lists[0];
    AppendIncreasing(lists[0], total - 1);
    lists, proc := lists[0 := lists[0] + [total - 1]], proc[total - 1 := 0];
  }

  method AssignSpawners(procs: nat, total: nat, lists: seq<seq<nat>>, proc: seq<nat>)
    returns (lists': seq<seq<nat>>, proc': seq<nat>)
    requires procs > 0 && procs + 1 <= total && |lists| == procs && |proc| == total
    requires forall p :: 0 <= p < procs ==> ListOf(lists[p], p, procs, total, total - procs - 1)
    requires forall t :: 0 <= t < total - procs - 1 ==> proc[t] == ProcOf(t, procs, total)
    ensures |lists'| == procs && |proc'| == total
    ensures forall p :: 0 <= p < procs ==> ListOf(lists'[p], p, procs, total, total - 1)
    ensures forall t :: 0 <= t < total - 1 ==> proc'[t] == ProcOf(t, procs, total)
  {
    lists', proc' := lists, proc;
    var cur, i := 0, total - procs - 1;
    while i < total - 1
      invariant total - procs - 1 <= i <= total - 1 && cur == i - (total - procs - 1)
      invariant |lists'| == procs && |proc'| == total
      invariant forall p :: 0 <= p < procs ==> ListOf(lists'[p], p, procs, total, i)
      invariant forall t :: 0 <= t < i ==> proc'[t] == ProcOf(t, procs, total)
    {
      assert forall k :: 0 <= k < |lists'[cur]| ==> lists'[cur][k] in lists'[cur];
      AppendIncreasing(lists'[cur], i);
      proc' := proc'[i := cur];
      lists' := lists'[cur := lists'[cur] + [i]];
      cur, i := cur + 1, i + 1;
    }
  }

  // ----------------------------------------------------------------------------- lookups

  method GetIndexFromTileID(list: seq<nat>, t: nat) returns (r: Option<nat>)
    ensures r.Some? ==> r.value < |list| && list[r.value] == t
    ensures r == None <==> t !in list
  {
    var i := 0;
    while i < |list|
      invariant i <= |list| && t !in list[..i]
    {
      if list[i] == t { return Some(i); }
      i := i + 1;
    }
    return None;
  }

  function GetTileIDFromIndex(list: seq<nat>, index: nat): Option<nat> {
    if index < |list| then Some(list[index]) else None
  }

  /** Every tile is in the list of one process only, the one the map names, at one place only; so
      looking up the index of a tile and the tile of an index undo each other. */
  lemma TilePartition(lists: seq<seq<nat>>, proc: seq<nat>, procs: nat, total: nat, t: nat)
    requires procs > 0 && procs + 1 <= total && IsTileMap(lists, proc, procs, total) && t < total
    ensures proc[t] < procs
    ensures exists i :: 0 <= i < |lists[proc[t]]| && GetTileIDFromIndex(lists[proc[t]], i) == Some(t)
    ensures forall p, i :: 0 <= p < procs && 0 <= i < |lists[p]| && lists[p][i] == t ==> p == proc[t]
    ensures forall p, i, j ::
      0 <= p < procs && 0 <= i < |lists[p]| && 0 <= j < |lists[p]| && lists[p][i] == lists[p][j] ==> i == j
  {
    assert ListOf(lists[proc[t]], proc[t], procs, total, total);
    assert t in lists[proc[t]];
    var i :| 0 <= i < |lists[proc[t]]| && lists[proc[t]][i] == t;
    assert GetTileIDFromIndex(lists[proc[t]], i) == Some(t);
    forall p, i | 0 <= p < procs && 0 <= i < |lists[p]| && lists[p][i] == t ensures p == proc[t] {
      assert ListOf(lists[p], p, procs, total, total) && lists[p][i] in lists[p];
    }
    forall p, i, j | 0 <= p < procs && 0 <= i < |lists[p]| && 0 <= j < |lists[p]| && lists[p][i] == lists[p][j]
      ensures i == j
    {
      assert Increasing(lists[p]);
    }
  }

  /** The thread spawner of a process belongs to that process. */
  lemma SpawnerIsLocal(p: nat, procs: nat, total: nat)
    requires p < procs && procs + 1 <= total
    ensures ProcOf(ThreadSpawnerTile(p, procs, total), procs, total) == p
    ensures total - procs - 1 <= ThreadSpawnerTile(p, procs, total) < total - 1
  {
  }

  // ------------------------------------------------------------------------- stack slices

  /** Bases and sizes of the stack area: cores per tile, bytes per core, threads per core. */
  datatype Stacks = Stacks(base: nat, coresPerTile: nat, coreSize: nat, threads: nat)

  ghost predicate Usable(k: Stacks) { k.coresPerTile > 0 && k.coreSize > 0 && k.threads > 0 }

  function TilesBefore(lists: seq<seq<nat>>, p: nat): nat
    requires p <= |lists|
  {
    if p == 0 then 0 else TilesBefore(lists, p - 1) + |lists[p - 1]|
  }

  /** The bytes of one tile. */
  function TileSize(k: Stacks): nat { k.coresPerTile * k.coreSize }

  function LowerLimit(lists: seq<seq<nat>>, p: nat, k: Stacks): nat
    requires p <= |lists|
  {
    k.base + TilesBefore(lists, p) * TileSize(k)
  }

  method SetStackBoundaries(lists: seq<seq<nat>>, p: nat, k: Stacks) returns (lower: nat, upper: nat)
    requires p < |lists|
    ensures lower == LowerLimit(lists, p, k) && upper == LowerLimit(lists, p + 1, k)
    ensures (p == 0 ==> lower == k.base) && upper == lower + k.coresPerTile * |lists[p]| * k.coreSize
  {
    var tiles, i := 0, 0;
    while i < p
      invariant i <= p && tiles == TilesBefore(lists, i)
    {
      tiles := tiles + |lists[i]|;
      i := i + 1;
    }
    lower := k.base + k.coresPerTile * tiles * k.coreSize;
    upper := lower + k.coresPerTile * |lists[p]| * k.coreSize;
    Reorder(k.coresPerTile, tiles, k.coreSize);
    Reorder(k.coresPerTile, |lists[p]|, k.coreSize);
    Distribute(tiles, |lists[p]|, TileSize(k));
  }

  lemma Reorder(a: nat, b: nat, c: nat)
    ensures a * b * c == b * (a * c)
  {
  }

  lemma TimesMonotone(a: nat, b: nat, c: nat)
    requires a <= b
    ensures a * c <= b * c
  {
  }

  function ThreadSize(k: Stacks): nat
    requires Usable(k)
  {
    k.coreSize / k.threads
  }

  /** Where the stack of a thread of a tile starts. */
  function SliceStart(lists: seq<seq<nat>>, p: nat, index: nat, thread: nat, k: Stacks): nat
    requires p < |lists| && Usable(k)
  {
    LowerLimit(lists, p, k) + index * TileSize(k) + thread * ThreadSize(k)
  }

  ghost predicate InSlice(a: nat, lists: seq<seq<nat>>, p: nat, index: nat, thread: nat, k: Stacks)
    requires p < |lists| && Usable(k)
  {
    index < |lists[p]| && thread < k.threads &&
    SliceStart(lists, p, index, thread, k) <= a < SliceStart(lists, p, index, thread, k) + ThreadSize(k)
  }

  /** The tile whose stack area holds an address of this process. */
  function TileFromStackPtr(lists: seq<seq<nat>>, p: nat, k: Stacks, a: nat): Option<nat>
    requires p < |lists| && Usable(k)
  {
    Positive(k.coresPerTile, k.coreSize);
    if a < LowerLimit(lists, p, k) || a > LowerLimit(lists, p + 1, k) then None
    else GetTileIDFromIndex(lists[p], (a - LowerLimit(lists, p, k)) / TileSize(k))
  }

  lemma Positive(a: nat, b: nat)
    requires a > 0 && b > 0
    ensures a * b > 0
  {
  }

  /** The threads of a core fit into its part. */
  lemma ThreadsFit(k: Stacks, thread: nat)
    requires Usable(k) && thread < k.threads
    ensures thread * ThreadSize(k) + ThreadSize(k) <= k.coreSize <= TileSize(k)
    ensures k.coreSize < k.threads * ThreadSize(k) + k.threads
  {
    TimesMonotone(thread + 1, k.threads, ThreadSize(k));
    Distribute(thread, 1, ThreadSize(k));
    assert k.threads * (k.coreSize / k.threads) <= k.coreSize;
    TimesMonotone(1, k.coresPerTile, k.coreSize);
  }

  /** An address of a slice is at this offset of the area of its process. */
  lemma SliceOffset(lists: seq<seq<nat>>, p: nat, index: nat, thread: nat, k: Stacks, a: nat)
    requires p < |lists| && Usable(k) && InSlice(a, lists, p, index, thread, k)
    ensures LowerLimit(lists, p, k) <= a < LowerLimit(lists, p + 1, k) && TileSize(k) > 0
    ensures (a - LowerLimit(lists, p, k)) / TileSize(k) == index
    ensures 0 <= a - LowerLimit(lists, p, k) - index * TileSize(k) - thread * ThreadSize(k) < ThreadSize(k)
  {
    var lower, size, r := LowerLimit(lists, p, k), TileSize(k), a - LowerLimit(lists, p, k) - index * TileSize(k);
    Positive(k.coresPerTile, k.coreSize);
    ThreadsFit(k, thread);
    InTile(a - lower, size, index, r);
    BelowNext(index, |lists[p]|, size, r);
    Distribute(TilesBefore(lists, p), |lists[p]|, size);
  }

  lemma InTile(x: nat, size: nat, index: nat, r: nat)
    requires r < size && x == index * size + r
    ensures x / size == index
  {
    Commute(index, size);
    Remainder(x, size, index, r);
  }

  lemma BelowNext(index: nat, count: nat, size: nat, r: nat)
    requires index < count && r < size
    ensures index * size + r < count * size
  {
    Commute(index, size);
    Commute(count, size);
    OneMore(size, index, count);
  }

  /** Any address inside a slice maps back to the tile of the slice. */
  lemma SliceToTile(lists: seq<seq<nat>>, p: nat, index: nat, thread: nat, k: Stacks, a: nat)
    requires p < |lists| && Usable(k) && InSlice(a, lists, p, index, thread, k)
    ensures TileFromStackPtr(lists, p, k, a) == Some(lists[p][index])
  {
    SliceOffset(lists, p, index, thread, k, a);
  }

  /** The part of the i-th tile of a process is looked up as that tile, whatever slice it is in; outside
      of all parts there is no tile. */
  lemma TileOfAddress(lists: seq<seq<nat>>, p: nat, index: nat, k: Stacks, r: nat, a: nat)
    requires p < |lists| && Usable(k) && r < TileSize(k)
    ensures index < |lists[p]| ==>
      TileFromStackPtr(lists, p, k, LowerLimit(lists, p, k) + index * TileSize(k) + r) == Some(lists[p][index])
    ensures a < LowerLimit(lists, p, k) || a >= LowerLimit(lists, p + 1, k) ==> TileFromStackPtr(lists, p, k, a) == None
  {
    var lower, size, n := LowerLimit(lists, p, k), TileSize(k), |lists[p]|;
    Distribute(TilesBefore(lists, p), n, size);
    if index < n {
      InTile(index * size + r, size, index, r);
      BelowNext(index, n, size, r);
    }
    if a == LowerLimit(lists, p + 1, k) { InTile(a - lower, size, n, 0); }
  }

  /** The slices of the threads of a tile lie side by side from the start of the tile's part. */
  lemma SlicesCover(lists: seq<seq<nat>>, p: nat, index: nat, k: Stacks, o: nat)
    requires p < |lists| && Usable(k) && index < |lists[p]| && ThreadSize(k) > 0 && o < k.threads * ThreadSize(k)
    ensures o / ThreadSize(k) < k.threads
    ensures InSlice(LowerLimit(lists, p, k) + index * TileSize(k) + o, lists, p, index, o / ThreadSize(k), k)
  {
    var n := ThreadSize(k);
    Quotient(o, n);
    if o / n >= k.threads { TimesMonotone(k.threads, o / n, n); }
  }

  lemma Quotient(o: nat, n: nat)
    requires n > 0
    ensures o / n * n <= o < o / n * n + n
  {
  }

  lemma {:induction false} LimitsGrow(lists: seq<seq<nat>>, p: nat, q: nat, k: Stacks)
    requires p <= q <= |lists|
    ensures LowerLimit(lists, p, k) <= LowerLimit(lists, q, k)
  {
    if p < q {
      LimitsGrow(lists, p, q - 1, k);
      TimesMonotone(TilesBefore(lists, q - 1), TilesBefore(lists, q), TileSize(k));
    }
  }

  /** Slices of different processes, tiles or threads have no address in common. */
  lemma SlicesDisjoint(lists: seq<seq<nat>>, k: Stacks, a: nat, p: nat, i: nat, x: nat, q: nat, j: nat, y: nat)
    requires p < |lists| && q < |lists| && Usable(k) && InSlice(a, lists, p, i, x, k) && InSlice(a, lists, q, j, y, k)
    ensures p == q && i == j && x == y
  {
    SliceOffset(lists, p, i, x, k, a);
    SliceOffset(lists, q, j, y, k, a);
    if p < q { LimitsGrow(lists, p + 1, q, k); } else if q < p { LimitsGrow(lists, q + 1, p, k); }
    var r := a - LowerLimit(lists, p, k) - i * TileSize(k);
    var n := ThreadSize(k);
    assert n * x == x * n && n * y == y * n;
    Remainder(r, n, x, r - n * x);
    Remainder(r, n, y, r - n * y);
  }

  // ------------------------------------------------------------ the thread of a stack pointer

  /** The thread computed for an address: the offset of the tile is taken off, the lower limit of the
      area is not. */
  function ThreadFromStackPtr(lists: seq<seq<nat>>, p: nat, k: Stacks, a: nat): Option<nat>
    requires p < |lists| && Usable(k) && ThreadSize(k) > 0
  {
    Positive(k.coresPerTile, k.coreSize);
    var lower, size := LowerLimit(lists, p, k), TileSize(k);
    if a < lower || a > LowerLimit(lists, p + 1, k) then None
    else
      var index := (a - lower) / size;
      assert index * size <= a - lower by { Whole(a - lower, size); }
      Some((a - index * size) / ThreadSize(k))
  }

  lemma Whole(x: nat, n: nat)
    requires n > 0
    ensures x / n * n <= x
  {
  }

  /** How far off the computed thread is: by the lower limit and the offset in the slice, counted in
      stacks of one thread. */
  lemma ThreadComputed(lists: seq<seq<nat>>, p: nat, index: nat, thread: nat, k: Stacks, a: nat)
    requires p < |lists| && Usable(k) && InSlice(a, lists, p, index, thread, k)
    ensures ThreadSize(k) > 0
    ensures var off := LowerLimit(lists, p, k) + (a - SliceStart(lists, p, index, thread, k));
      ThreadFromStackPtr(lists, p, k, a) == Some(thread + off / ThreadSize(k))
  {
    SliceOffset(lists, p, index, thread, k, a);
    var n := ThreadSize(k);
    var off := LowerLimit(lists, p, k) + (a - SliceStart(lists, p, index, thread, k));
    assert ThreadFromStackPtr(lists, p, k, a) == Some((a - index * TileSize(k)) / n);
    InThread(a - index * TileSize(k), n, thread, off);
  }

  lemma InThread(x: nat, n: nat, thread: nat, off: nat)
    requires n > 0 && x == thread * n + off
    ensures x / n == thread + off / n
  {
    Commute(thread, n);
    QuotientShift(x, n, thread, off);
  }

  /** The thread of an address is computed right if and only if the lower limit of the area and the
      offset in the slice together are less than one stack. */
  lemma ThreadRightIff(lists: seq<seq<nat>>, p: nat, index: nat, thread: nat, k: Stacks, a: nat)
    requires p < |lists| && Usable(k) && InSlice(a, lists, p, index, thread, k)
    ensures ThreadSize(k) > 0
    ensures ThreadFromStackPtr(lists, p, k, a) == Some(thread) <==>
            LowerLimit(lists, p, k) + (a - SliceStart(lists, p, index, thread, k)) < ThreadSize(k)
  {
    ThreadComputed(lists, p, index, thread, k, a);
    var n, off := ThreadSize(k), LowerLimit(lists, p, k) + (a - SliceStart(lists, p, index, thread, k));
    if off < n { Remainder(off, n, 0, off); } else { AtLeastOne(off, n); }
  }

  lemma AtLeastOne(x: nat, n: nat)
    requires x >= n > 0
    ensures x / n >= 1
  {
  }

  /** Above the first stack it is never right. */
  lemma ThreadNeverRight(lists: seq<seq<nat>>, p: nat, index: nat, thread: nat, k: Stacks, a: nat)
    requires p < |lists| && Usable(k) && InSlice(a, lists, p, index, thread, k)
    requires LowerLimit(lists, p, k) >= ThreadSize(k)
    ensures ThreadSize(k) > 0 && ThreadFromStackPtr(lists, p, k, a) != Some(thread)
  {
    ThreadRightIff(lists, p, index, thread, k, a);
  }

  /** One tile with stacks for two threads of five bytes from address 100: the first address of
      thread 0 is taken for thread 20. */
  lemma ThreadWrong()
    ensures var lists, k := [[0]], Stacks(100, 1, 10, 2);
      && Usable(k) && ThreadSize(k) == 5 && InSlice(100, lists, 0, 0, 0, k)
      && ThreadFromStackPtr(lists, 0, k, 100) == Some(20)
  {
    var lists, k := [[0]], Stacks(100, 1, 10, 2);
    assert TilesBefore(lists, 0) == 0;
    assert ThreadSize(k) == 5;
    ThreadComputed(lists, 0, 0, 0, k, 100);
  }
}
