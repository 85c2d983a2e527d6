/** The handlers of the thread manager and the thread scheduler as the master runs them, in place.
    Each is the corresponding step, and none of their assertions can fail. */
module ThreadMaster {
  import opened Arithmetic
  import opened Basics
  import opened ThreadScheduler

  class Master {
    const slotsPerTile: nat
    var tiles: seq<Tile>
    var place: seq<(nat, nat)>
    var counter: nat
    var lastStalled: seq<Option<nat>>
    var localNext: seq<Option<nat>>       // the slot to run next on each tile, as last told to clients
    var starts: seq<nat>

    ghost function Abs(): State
      reads this
    {
      State(tiles, place, counter, starts)
    }

    ghost predicate Sized()
      reads this
    {
      |lastStalled| == |localNext| == |tiles| && forall t :: 0 <= t < |tiles| ==> |tiles[t].slots| == slotsPerTile
    }

    ghost predicate Valid()
      reads this
    {
      Sized() && Inv(Abs())
    }

    constructor (tileCount: nat, slotCount: nat)
      requires tileCount >= 1 && slotCount >= 1
      ensures Valid() && Abs() == Initial(tileCount, slotCount)
    {
      slotsPerTile := slotCount;
      tiles := Initial(tileCount, slotCount).tiles;
      place, counter, starts := [], 0, [];
      lastStalled, localNext := seq(tileCount, _ => None), seq(tileCount, _ => None);
    }

    // ---------------------------------------------------------------- the thread manager

    method GetIdleThread(t: nat) returns (r: Option<nat>)
      requires t < |tiles|
      ensures r == IdleSlot(tiles[t], 0)
    {
      var j := 0;
      while j < |tiles[t].slots|
        invariant j <= |tiles[t].slots| && IdleSlot(tiles[t], 0) == IdleSlot(tiles[t], j)
      {
        if tiles[t].slots[j].status == Idle { return Some(j); }
        j := j + 1;
      }
      return None;
    }

    method IsCoreRunning(t: nat) returns (r: Option<nat>)
      requires t < |tiles|
      ensures r.Some? <==> AnyRunning(tiles[t])
      ensures r.Some? ==> r.value < |tiles[t].slots| && tiles[t].slots[r.value].status == Running
    {
      r := None;
      var j := 0;
      while j < |tiles[t].slots|
        invariant j <= |tiles[t].slots|
        invariant r == None ==> forall x :: 0 <= x < j ==> tiles[t].slots[x].status != Running
        invariant r.Some? ==> r.value < |tiles[t].slots| && tiles[t].slots[r.value].status == Running
      {
        if tiles[t].slots[j].status == Running && r == None { r := Some(j); }
        j := j + 1;
      }
    }

    method IsCoreInitializing(t: nat) returns (r: bool)
      requires t < |tiles|
      ensures r <==> AnyInitializing(tiles[t])
    {
      var j := 0;
      while j < |tiles[t].slots|
        invariant j <= |tiles[t].slots| && forall x :: 0 <= x < j ==> tiles[t].slots[x].status != Initializing
      {
        if tiles[t].slots[j].status == Initializing { return true; }
        j := j + 1;
      }
      return false;
    }

    method SetThreadStatus(t: nat, x: nat, v: Status)
      requires t < |tiles| && x < |tiles[t].slots|
      modifies this`tiles
      ensures tiles == old(tiles)[t := SetStatus(old(tiles[t]), x, v)]
    {
      tiles := tiles[t := tiles[t].(slots := tiles[t].slots[x := tiles[t].slots[x].(status := v)])];
    }

    method StallThread(t: nat, x: nat)
      requires t < |tiles| == |lastStalled| && x < |tiles[t].slots|
      modifies this`tiles, this`lastStalled
      ensures tiles == old(tiles)[t := SetStatus(old(tiles[t]), x, Stalled)]
      ensures lastStalled == old(lastStalled)[t := Some(x)]
    {
      SetThreadStatus(t, x, Stalled);
      lastStalled := lastStalled[t := Some(x)];
    }

    method ResumeThread(t: nat, x: nat)
      requires t < |tiles| && x < |tiles[t].slots| && tiles[t].slots[x].status != Running
      modifies this`tiles
      ensures tiles == old(tiles)[t := SetStatus(old(tiles[t]), x, Running)]
    {
      SetThreadStatus(t, x, Running);
    }

    method GetNewThreadId(t: nat, x: nat) returns (tid: nat)
      requires t < |tiles| && x < |tiles[t].slots| && (counter == 0 || counter < |place|)
      modifies this`tiles, this`place, this`counter
      ensures tid == counter == old(counter) + 1 && tid < |place| && place == Grown(old(place), tid)[tid := (t, x)]
      ensures var tile := old(tiles[t]);
        tiles == old(tiles)[t := tile.(slots := tile.slots[x := tile.slots[x].(tid := tid)])]
    {
      counter := counter + 1;
      tid := counter;
      if |place| <= tid { place := place + seq(2 * tid - |place|, _ => (0, 0)); }
      place := place[tid := (t, x)];
      tiles := tiles[t := tiles[t].(slots := tiles[t].slots[x := tiles[t].slots[x].(tid := tid)])];
    }

    // -------------------------------------------------------------- the thread scheduler

    method StartFront(t: nat)
      requires t < |tiles| && tiles[t].queue != [] && tiles[t].queue[0].idx < |tiles[t].slots|
      requires tiles[t].slots[tiles[t].queue[0].idx].status == Initializing
      modifies this`starts
      ensures starts == old(starts) + [tiles[t].queue[0].tid]
    {
      starts := starts + [tiles[t].queue[0].tid];
    }

    /** The choice at the end of a yield and of an exit. */
    method DispatchFront(t: nat)
      requires t < |tiles| && InRange(tiles[t])
      requires tiles[t].queue != [] ==> tiles[t].slots[tiles[t].queue[0].idx].status != Running
      modifies this`tiles, this`starts
      ensures Abs() == Resumed(old(Abs()), t)
    {
      if tiles[t].queue != [] {
        var x := tiles[t].queue[0].idx;
        if tiles[t].slots[x].status == Initializing { StartFront(t); } else { ResumeThread(t, x); }
      }
    }

    method CanStart(t: nat) returns (startable: bool)
      requires t < |tiles|
      ensures startable <==> Startable(tiles[t])
    {
      var running := IsCoreRunning(t);
      startable := false;
      if running == None {
        var initializing := IsCoreInitializing(t);
        startable := !initializing;
      }
    }

    method ScheduleThread(from: nat, t: nat, x: nat, tid: nat)
      requires t < |tiles| && InRange(tiles[t]) && x < |tiles[t].slots| && tiles[t].slots[x] == Slot(Idle, tid)
      requires from != t && Startable(tiles[t]) ==> tiles[t].queue == []
      modifies this`tiles, this`starts
      ensures var tile := Enqueue(old(tiles[t]), x, Slot(Initializing, tid));
        && tiles == old(tiles)[t := tile]
        && starts == if from != t && Startable(old(tiles[t])) then old(starts) + [tile.queue[0].tid] else old(starts)
    {
      var startable := false;
      if from != t { startable := CanStart(t); }
      tiles := tiles[t := tiles[t].(queue := tiles[t].queue + [Entry(x, tid)])];
      SetThreadStatus(t, x, Initializing);
      if startable { StartFront(t); }
    }

    /** The slot for a thread without a destination. The inner loop alone is left when a slot is
        found, so the highest slot index with a free tile wins. */
    method PickSlot(from: nat) returns (r: Option<(nat, nat)>)
      requires Sized() && from < |tiles|
      ensures r.Some? ==> r.value.1 < slotsPerTile && Chosen(tiles, from, None, r.value)
      ensures r == None ==> NoneIdle(tiles, None)
    {
      r := None;
      var j := 0;
      while j < slotsPerTile
        invariant j <= slotsPerTile
        invariant r.Some? ==> r.value.1 < j && FirstReached(tiles, from, r.value)
        invariant forall t, x :: 1 <= t < |tiles| && (if r.Some? then r.value.1 + 1 else 0) <= x < j ==>
                    !IdleAt(tiles, t, x)
      {
        var found := PickTile(from, j);
        if found.Some? { r := Some((found.value, j)); }
        j := j + 1;
      }
    }

    method PickTile(from: nat, j: nat) returns (r: Option<nat>)
      requires Sized() && from < |tiles| && j < slotsPerTile
      ensures r.Some? ==> FirstReached(tiles, from, (r.value, j))
      ensures r == None ==> forall t :: 1 <= t < |tiles| ==> !IdleAt(tiles, t, j)
    {
      r := None;
      var i := 1;
      while i <= |tiles|
        invariant 1 <= i <= |tiles| + 1
        invariant forall k :: 1 <= k < i ==> TileFree(from, k, j)
      {
        var target := (from + i) % |tiles|;
        if target != 0 && tiles[target].slots[j].status == Idle {
          StrideBack(from, i);
          forall t | 1 <= t < |tiles| && IdleAt(tiles, t, j) ensures i <= Strides(from, t, |tiles|) {
            Stride(from, t);
            assert !TileFree(from, Strides(from, t, |tiles|), j);
          }
          return Some(target);
        }
        i := i + 1;
      }
      forall t | 1 <= t < |tiles| ensures !IdleAt(tiles, t, j) {
        Stride(from, t);
        assert TileFree(from, Strides(from, t, |tiles|), j);
      }
    }

    /** What one round of the stride found. */
    ghost predicate TileFree(from: nat, k: nat, j: nat)
      requires Sized() && |tiles| > 0 && j < slotsPerTile
      reads this
    {
      var target := (from + k) % |tiles|;
      target == 0 || tiles[target].slots[j].status != Idle
    }

    /** The stride reaches every tile. */
    lemma Stride(from: nat, t: nat)
      requires t < |tiles| && from < |tiles|
      ensures var k := Strides(from, t, |tiles|); 1 <= k <= |tiles| && (from + k) % |tiles| == t
    {
      if t > from { Remainder(t, |tiles|, 0, t); } else { Remainder(t + |tiles|, |tiles|, 1, t); }
    }

    /** It comes by a tile once. */
    lemma StrideBack(from: nat, k: nat)
      requires from < |tiles| && 1 <= k <= |tiles|
      ensures Strides(from, (from + k) % |tiles|, |tiles|) == k
    {
      var n := |tiles|;
      if from + k < n { Remainder(from + k, n, 0, from + k); } else { Remainder(from + k, n, 1, from + k - n); }
    }

    method ChooseSlot(from: nat, dest: Option<nat>) returns (p: Option<(nat, nat)>)
      requires Sized() && from < |tiles| && (dest.Some? ==> 1 <= dest.value < |tiles|)
      ensures p.Some? ==> p.value.1 < slotsPerTile && Chosen(tiles, from, dest, p.value)
      ensures p == None ==> NoneIdle(tiles, dest)
    {
      if dest == None {
        p := PickSlot(from);
      } else {
        var x := GetIdleThread(dest.value);
        IdleSlotIsIdle(tiles[dest.value], 0);
        p := if x.Some? then Some((dest.value, x.value)) else None;
      }
    }

    /** The rest of a spawn once the slot is known; the requester is stalled meanwhile. */
    method SpawnInto(from: nat, r: nat, t: nat, x: nat, ghost s: State)
      requires Sized() && from < |s.tiles| && r < |s.tiles[from].slots| && s.tiles[from].slots[r].status == Running
      requires 1 <= t < |s.tiles| && x < |s.tiles[t].slots| && s.tiles[t].slots[x].status == Idle && InRange(s.tiles[t])
      requires (counter == 0 || counter < |place|) && (Startable(s.tiles[t]) ==> s.tiles[t].queue == [])
      requires Abs() == WithTile(s, from, SetStatus(s.tiles[from], r, Stalled)) && lastStalled[from] == Some(r)
      modifies this`tiles, this`place, this`counter, this`lastStalled, this`starts
      ensures Sized() && Abs() == Spawn(s, from, t, x) && |tiles| == |s.tiles|
    {
      var tid := GetNewThreadId(t, x);
      if from != t { SameStartable(s.tiles[t], x, tid); }
      ScheduleThread(from, t, x, tid);
      ResumeThread(from, lastStalled[from].value);
      StallAround(s, from, r, t, x, tid);
    }

    method SpawnThread(from: nat, r: nat, dest: Option<nat>) returns (p: Option<(nat, nat)>)
      requires Valid() && from < |tiles| && r < slotsPerTile && tiles[from].slots[r].status == Running
      requires dest.Some? ==> 1 <= dest.value < |tiles|
      modifies this`tiles, this`place, this`counter, this`lastStalled, this`starts
      ensures |tiles| == |old(tiles)|
      ensures p.Some? ==> Chosen(old(tiles), from, dest, p.value) && InRange(old(tiles)[p.value.0])
      ensures p.Some? ==> Valid() && Abs() == Spawn(old(Abs()), from, p.value.0, p.value.1)
      ensures p == None ==> NoneIdle(old(tiles), dest)
    {
      StallThread(from, r);
      SameIdle(old(tiles), tiles, from, dest);
      p := ChooseSlot(from, dest);
      if p.Some? {
        SpawnChecks(old(Abs()), from, r, p.value.0, p.value.1);
        SpawnInto(from, r, p.value.0, p.value.1, old(Abs()));
      }
    }

    method OnThreadStart(t: nat, x: nat)
      requires Valid() && Enabled(Abs(), StartStep(t, x))
      modifies this`tiles, this`starts
      ensures Valid() && Abs() == Started(old(Abs()), t, x)
    {
      StartedInv(Abs(), t, x);
      SetThreadStatus(t, x, Running);
    }

    method OnThreadExit(t: nat, x: nat)
      requires Valid() && Enabled(Abs(), ExitStep(t, x))
      modifies this`tiles, this`starts
      ensures Valid() && old(tiles[t].queue) != [] && Abs() == Exit(old(Abs()), t, x)
    {
      ExitFacts(Abs(), t, x);
      Leave(t, x);
    }

    method Leave(t: nat, x: nat)
      requires Sized() && t < |tiles| && x < slotsPerTile && tiles[t].queue != [] && InRange(tiles[t])
      requires var tile := SetStatus(tiles[t], x, Idle).(queue := tiles[t].queue[1..]);
        InRange(tile) && (tile.queue != [] ==> tile.slots[tile.queue[0].idx].status != Running)
      modifies this`tiles, this`starts
      ensures Sized() && Abs() == Exit(old(Abs()), t, x)
    {
      SetThreadStatus(t, x, Idle);
      tiles := tiles[t := tiles[t].(queue := tiles[t].queue[1..])];
      DispatchFront(t);
    }

    method Requeue(t: nat)
      requires t < |tiles| && tiles[t].queue != []
      modifies this`tiles
      ensures tiles == old(tiles)[t := Rotate(old(tiles[t]))]
    {
      var front := tiles[t].queue[0];
      tiles := tiles[t := tiles[t].(queue := tiles[t].queue[1..])];
      tiles := tiles[t := tiles[t].(queue := tiles[t].queue + [front])];
    }

    /** Once around the queue, dropping the thread of one slot. */
    method TakeFromQueue(t: nat, x: nat) returns (found: Option<Entry>)
      requires t < |tiles|
      modifies this`tiles
      ensures tiles == old(tiles)[t := old(tiles[t]).(queue := Without(old(tiles[t].queue), x))]
      ensures found.Some? <==> InQueue(old(tiles[t].queue), x)
      ensures found.Some? ==> found.value in old(tiles[t].queue) && found.value.idx == x
    {
      ghost var all := tiles[t].queue;
      var n, i := |tiles[t].queue|, 0;
      found := None;
      assert all == all[0..] + Without(all[..0], x);
      while i < n
        invariant i <= n == |all| && |tiles| == |old(tiles)| && tiles[t].queue == all[i..] + Without(all[..i], x)
        invariant tiles == old(tiles)[t := old(tiles[t]).(queue := tiles[t].queue)]
        invariant found == None ==> forall k :: 0 <= k < i ==> all[k].idx != x
        invariant found.Some? ==> found.value in all && found.value.idx == x
      {
        var front := tiles[t].queue[0];
        QueueRound(all, i, x);
        tiles := tiles[t := tiles[t].(queue := tiles[t].queue[1..])];
        if front.idx != x {
          tiles := tiles[t := tiles[t].(queue := tiles[t].queue + [front])];
        } else {
          found := Some(front);
        }
        i := i + 1;
      }
      assert all[..n] == all && [] + Without(all, x) == Without(all, x);
    }

    method MigrateThread(t: nat, x: nat, u: nat, y: nat)
      requires Sized() && t < |tiles| && u < |tiles| && t != u && x < slotsPerTile && y < slotsPerTile
      requires Linked(tiles[t]) && InQueue(tiles[t].queue, x)
      requires tiles[t].slots[x].status != Running && tiles[t].slots[x].tid < |place|
      requires tiles[u].slots[y].status == Idle && InRange(tiles[u]) && (Startable(tiles[u]) ==> tiles[u].queue == [])
      modifies this
      ensures Sized() && Abs() == Migrate(old(Abs()), t, x, u, y)
      ensures localNext == if Startable(old(tiles[u])) then old(localNext)[u := Some(y)] else old(localNext)
    {
      var slot := tiles[t].slots[x];
      var found := TakeFromQueue(t, x);
      assert found.value == Entry(x, slot.tid);
      tiles := tiles[u := tiles[u].(queue := tiles[u].queue + [Entry(y, found.value.tid)])];
      var startable := CanStart(u);
      place := place[slot.tid := (u, y)];
      tiles := tiles[u := tiles[u].(slots := tiles[u].slots[y := slot])];
      SetThreadStatus(t, x, Idle);
      if startable {
        localNext := localNext[u := Some(y)];
        if tiles[u].slots[y].status == Initializing { StartFront(u); } else { ResumeThread(u, y); }
      }
    }

    method ChooseTarget(t: nat, mask: set<nat>) returns (u: nat)
      requires t < |tiles|
      ensures u == Target(Abs(), t, mask, 0) && GoesTo(tiles, t, mask, u)
    {
      TargetIs(Abs(), t, mask);
      if mask == {} || t in mask { return t; }
      var i := 0;
      while i < |tiles|
        invariant i <= |tiles| && Target(Abs(), t, mask, 0) == Target(Abs(), t, mask, i)
      {
        if i in mask {
          var running := IsCoreRunning(i);
          if running == None { return i; }
        }
        i := i + 1;
      }
      return t;
    }

    /** Returns where the thread goes; without room there it stays. */
    method CheckAffinityAndMigrate(t: nat, x: nat, mask: set<nat>) returns (u: nat, y: Option<nat>)
      requires Sized() && 1 <= t < |tiles| && 0 !in mask && Movable(Abs(), t, x)
      modifies this
      ensures Sized() && Abs() == Moved(old(Abs()), t, x, mask)
      ensures (u, y) == Destination(old(Abs()), t, x, mask) && u < |tiles| == |old(tiles)|
      ensures GoesTo(old(tiles), t, mask, u) && LandsIn(old(tiles), t, x, u, y)
      ensures localNext ==
              if u != t && y.Some? && Startable(old(tiles)[u]) then old(localNext)[u := y] else old(localNext)
    {
      u := ChooseTarget(t, mask);
      DestinationIs(Abs(), t, x, mask);
      y := Some(x);
      if u != t {
        y := GetIdleThread(u);
        if y.Some? {
          IdleSlotIsIdle(tiles[u], 0);
          MigrateThread(t, x, u, y.value);
        }
      }
    }

    /** Stalls the thread at the front and puts it at the end of its queue. */
    method StallAndRequeue(t: nat, x: nat)
      requires Sized() && t < |tiles| && tiles[t].queue != [] && InRange(tiles[t]) && tiles[t].queue[0].idx == x
      modifies this
      ensures Sized() && Abs() == Rotated(old(Abs()), t) && |tiles| == |old(tiles)| && tiles[t].queue != []
      ensures localNext == old(localNext)[t := Some(tiles[t].queue[0].idx)]
    {
      localNext := localNext[t := Some(x)];
      StallThread(t, x);
      Requeue(t);
      assert tiles == Rotated(old(Abs()), t).tiles;
      localNext := localNext[t := Some(tiles[t].queue[0].idx)];
    }

    method YieldParts(t: nat, x: nat, mask: set<nat>)
      returns (next: Option<nat>, u: nat, y: Option<nat>, dstNext: Option<nat>)
      requires Sized() && 1 <= t < |tiles| && tiles[t].queue != []
      requires InRange(tiles[t]) && tiles[t].queue[0].idx == x && 0 !in mask
      requires Movable(Rotated(Abs(), t), t, x)
      requires MayDispatch(Moved(Rotated(Abs(), t), t, x, mask), t, Rotated(Abs(), t).tiles[t].queue[0].idx)
      modifies this
      ensures var s := Moved(Rotated(old(Abs()), t), t, x, mask);
        && Sized() && Abs() == Resumed(s, t) && (u, y) == Destination(Rotated(old(Abs()), t), t, x, mask)
        && next == (if s.tiles[t].queue == [] then None else Some(s.tiles[t].queue[0].idx))
        && u < |old(tiles)| == |tiles| == |localNext| && localNext[t] == next && dstNext == localNext[u]
        && (u != t ==> dstNext == if y.Some? && Startable(old(tiles)[u]) then y else old(localNext)[u])
    {
      StallAndRequeue(t, x);
      u, y := CheckAffinityAndMigrate(t, x, mask);
      if tiles[t].queue == [] { localNext := localNext[t := None]; }
      DispatchFront(t);
      next, dstNext := localNext[t], localNext[u];
    }

    /** Returns the reply: the next slot to run on the tile, where the yielding thread is said to be,
        and the slot said to run next there. */
    method YieldThread(t: nat, x: nat, mask: set<nat>)
      returns (next: Option<nat>, u: nat, y: Option<nat>, dstNext: Option<nat>)
      requires Valid() && Enabled(Abs(), YieldStep(t, x, mask))
      modifies this
      ensures Valid() && Abs() == Next(old(Abs()), YieldStep(t, x, mask)) && u < |tiles| == |old(tiles)|
      ensures next == if tiles[t].queue == [] then None else Some(tiles[t].queue[0].idx)
      ensures GoesTo(old(tiles), t, mask, u) && LandsIn(old(tiles), t, x, u, y)
      ensures var tid := old(tiles[t].slots[x].tid);
        && tid < |place| && place[tid] == (if y.Some? then (u, y.value) else (t, x))
        && (place[tid].0 == u <==> u == t || IdleSlot(old(tiles)[u], 0).Some?)
      ensures u == t ==> dstNext == next
      ensures u != t ==> dstNext == if y.Some? && Startable(old(tiles)[u]) then y else old(localNext)[u]
    {
      YieldFacts(Abs(), t, x, mask);
      YieldReply(Abs(), t, x, mask);
      next, u, y, dstNext := YieldParts(t, x, mask);
    }
  }

  ghost predicate IdleAt(tiles: seq<Tile>, t: nat, x: nat) {
    t < |tiles| && x < |tiles[t].slots| && tiles[t].slots[x].status == Idle
  }

  /** How many tiles on from one tile another one comes, going around; the tile itself is last. */
  function Strides(from: nat, t: nat, n: nat): nat
    requires from < n && t < n
  {
    if t > from then t - from else t + n - from
  }

  /** Of the tiles with this slot idle, the first one reached from `from`. */
  ghost predicate FirstReached(tiles: seq<Tile>, from: nat, p: (nat, nat))
    requires from < |tiles|
  {
    && 1 <= p.0 < |tiles| && IdleAt(tiles, p.0, p.1)
    && forall t :: 1 <= t < |tiles| && IdleAt(tiles, t, p.1) ==>
         Strides(from, p.0, |tiles|) <= Strides(from, t, |tiles|)
  }

  /** The slot of a new thread: the first idle one of the tile that was asked for; without such a tile
      the highest slot index that is idle anywhere, on the first tile reached from the requester. */
  ghost predicate Chosen(tiles: seq<Tile>, from: nat, dest: Option<nat>, p: (nat, nat))
    requires from < |tiles|
  {
    && 1 <= p.0 < |tiles| && IdleAt(tiles, p.0, p.1)
    && match dest
       case Some(t) => p.0 == t && forall x :: 0 <= x < p.1 ==> !IdleAt(tiles, t, x)
       case None =>
         && FirstReached(tiles, from, p)
         && forall t, x :: 1 <= t < |tiles| && p.1 < x ==> !IdleAt(tiles, t, x)
  }

  ghost predicate NoneIdle(tiles: seq<Tile>, dest: Option<nat>) {
    forall t, x :: 1 <= t < |tiles| && 0 <= x && (dest.Some? ==> t == dest.value) ==> !IdleAt(tiles, t, x)
  }

  /** The choice depends only on which slots are idle. */
  lemma SameIdle(before: seq<Tile>, after: seq<Tile>, from: nat, dest: Option<nat>)
    requires |after| == |before| && from < |before|
    requires forall t, x :: 0 <= t < |before| && 0 <= x ==> IdleAt(after, t, x) == IdleAt(before, t, x)
    ensures forall p :: Chosen(after, from, dest, p) == Chosen(before, from, dest, p)
    ensures NoneIdle(after, dest) == NoneIdle(before, dest)
  {
  }

  /** The thread in slot x is queued and stalled, and a tile where it could start is empty. */
  ghost predicate Movable(s: State, t: nat, x: nat) {
    && MayMove(s, t, x) && Linked(s.tiles[t]) && InQueue(s.tiles[t].queue, x) && s.tiles[t].slots[x].status == Stalled
    && forall u :: 1 <= u < |s.tiles| && u != t && Startable(s.tiles[u]) ==> s.tiles[u].queue == []
  }

  /** The tile and the slot a thread is sent to; no slot if there is no room. */
  function Destination(s: State, t: nat, x: nat, mask: set<nat>): (nat, Option<nat>)
    requires t < |s.tiles|
  {
    TargetInRange(s, t, mask, 0);
    var u := Target(s, t, mask, 0);
    (u, if u == t then Some(x) else IdleSlot(s.tiles[u], 0))
  }

  /** The slot a thread gets on its tile: its own if it stays, else the first idle one, if any. */
  ghost predicate LandsIn(tiles: seq<Tile>, t: nat, x: nat, u: nat, y: Option<nat>) {
    && u < |tiles|
    && if u == t then y == Some(x)
       else match y
         case Some(z) =>
           && z < |tiles[u].slots| && tiles[u].slots[z].status == Idle
           && forall k :: 0 <= k < z ==> tiles[u].slots[k].status != Idle
         case None => forall k :: 0 <= k < |tiles[u].slots| ==> tiles[u].slots[k].status != Idle
  }

  lemma DestinationIs(s: State, t: nat, x: nat, mask: set<nat>)
    requires t < |s.tiles|
    ensures var (u, y) := Destination(s, t, x, mask);
      u < |s.tiles| && GoesTo(s.tiles, t, mask, u) && LandsIn(s.tiles, t, x, u, y)
  {
    TargetInRange(s, t, mask, 0);
    TargetIs(s, t, mask);
    IdleSlotIsIdle(s.tiles[Target(s, t, mask, 0)], 0);
  }

  /** Stalling the thread that yields changes nothing about where it belongs. */
  lemma RotatedDestination(s: State, t: nat, x: nat, mask: set<nat>)
    requires t < |s.tiles| && InRange(s.tiles[t]) && s.tiles[t].queue != []
    ensures var (u, y) := Destination(Rotated(s, t), t, x, mask);
      u < |s.tiles| && GoesTo(s.tiles, t, mask, u) && LandsIn(s.tiles, t, x, u, y)
  {
    var tiles := Rotated(s, t).tiles;
    DestinationIs(Rotated(s, t), t, x, mask);
    forall v | 0 <= v < |tiles| && v != t ensures Busy(tiles, v) == Busy(s.tiles, v) { assert tiles[v] == s.tiles[v]; }
  }

  /** The tile in the reply to a yield is the tile of the thread if and only if the thread need not
      leave or its target has an idle slot; otherwise the thread is still where it was. */
  lemma YieldReply(s: State, t: nat, x: nat, mask: set<nat>)
    requires Inv(s) && Enabled(s, YieldStep(t, x, mask))
    ensures s.tiles[t].queue != [] && InRange(s.tiles[t])
    ensures var s', tid := Next(s, YieldStep(t, x, mask)), s.tiles[t].slots[x].tid;
      var (u, y) := Destination(Rotated(s, t), t, x, mask);
      && GoesTo(s.tiles, t, mask, u) && LandsIn(s.tiles, t, x, u, y)
      && u < |s.tiles| && tid < |s'.place| && s'.place[tid] == (if y.Some? then (u, y.value) else (t, x))
      && (s'.place[tid].0 == u <==> u == t || IdleSlot(s.tiles[u], 0).Some?)
  {
    EnabledFront(s, YieldStep(t, x, mask));
    assert Placed(s, t);
    assert s.tiles[t].slots[x].tid == s.tiles[t].queue[0].tid;
    YieldMoves(s, t, mask);
    RotatedDestination(s, t, x, mask);
    MovedPlace(Rotated(s, t), t, x, mask);
    DispatchPlace(Moved(Rotated(s, t), t, x, mask), t);
  }

  /** Three tiles with one slot each: a thread runs on tile 1, another one is about to run on tile 2.
      Nothing runs on tile 2 and it has no idle slot, so a thread bound for it gets a reply that
      names tile 2 and no slot, while the table keeps it on tile 1. */
  lemma YieldReplyWrong() returns (run: seq<Step>)
    ensures run == [SpawnStep(0, 0, 1, 0), StartStep(1, 0), SpawnStep(0, 0, 2, 0)]
    ensures IsRun(Initial(3, 1), run)
      && var s, a := After(Initial(3, 1), run), YieldStep(1, 0, {2});
         && Enabled(s, a) && s.tiles[1].queue != [] && InRange(s.tiles[1])
         && Destination(Rotated(s, 1), 1, 0, {2}) == (2, None)
         && s.tiles[1].slots[0].tid < |Next(s, a).place| && Next(s, a).place[s.tiles[1].slots[0].tid] == (1, 0)
  {
    var s;
    run, s := FullTarget();
    WrongReply(s);
  }

  lemma FullTarget() returns (run: seq<Step>, s: State)
    ensures run == [SpawnStep(0, 0, 1, 0), StartStep(1, 0), SpawnStep(0, 0, 2, 0)]
    ensures IsRun(Initial(3, 1), run) && After(Initial(3, 1), run) == s && Inv(s) && |s.tiles| == 3
    ensures s.tiles[1].slots == [Slot(Running, 1)] && s.tiles[2].slots == [Slot(Initializing, 2)]
  {
    var s1 := SpawnedOnOne();
    var s2 := StartedOnOne(s1);
    s := SpawnedOnTwo(s2);
    run := TwoSteps(s1, StartStep(1, 0), s2, SpawnStep(0, 0, 2, 0), s);
    StepBefore(Initial(3, 1), SpawnStep(0, 0, 1, 0), s1, run);
    run := [SpawnStep(0, 0, 1, 0)] + run;
  }

  lemma WrongReply(s: State)
    requires Inv(s) && |s.tiles| == 3
    requires s.tiles[1].slots == [Slot(Running, 1)] && s.tiles[2].slots == [Slot(Initializing, 2)]
    ensures var a := YieldStep(1, 0, {2});
      && Enabled(s, a) && s.tiles[1].queue != [] && InRange(s.tiles[1])
      && Destination(Rotated(s, 1), 1, 0, {2}) == (2, None)
      && s.tiles[1].slots[0].tid < |Next(s, a).place| && Next(s, a).place[s.tiles[1].slots[0].tid] == (1, 0)
  {
    YieldReply(s, 1, 0, {2});
    NoRoom(Rotated(s, 1));
  }

  lemma TwoSteps(s0: State, a1: Step, s1: State, a2: Step, s2: State) returns (run: seq<Step>)
    requires Inv(s0) && Enabled(s0, a1) && s1 == Next(s0, a1)
    requires Inv(s1) && Enabled(s1, a2) && s2 == Next(s1, a2) && Inv(s2)
    ensures run == [a1, a2] && IsRun(s0, run) && After(s0, run) == s2
  {
    StepBefore(s1, a2, s2, []);
    run := [a2] + [];
    StepBefore(s0, a1, s1, run);
    run := [a1] + run;
  }

  lemma {:induction false} StepBefore(s: State, a: Step, s': State, run: seq<Step>)
    requires Inv(s) && Enabled(s, a) && s' == Next(s, a) && Inv(s') && IsRun(s', run)
    ensures IsRun(s, [a] + run) && After(s, [a] + run) == After(s', run)
  {
    assert ([a] + run)[1..] == run;
  }

  lemma SpawnedOnOne() returns (s: State)
    ensures Enabled(Initial(3, 1), SpawnStep(0, 0, 1, 0)) && s == Next(Initial(3, 1), SpawnStep(0, 0, 1, 0)) && Inv(s)
    ensures |s.tiles| == 3 && s.tiles[1].slots == [Slot(Initializing, 1)] && Starts(s.starts, 1) == 1 && s.counter == 1
    ensures s.tiles[0] == Initial(3, 1).tiles[0] && s.tiles[2] == Initial(3, 1).tiles[2]
  {
    var s0 := Initial(3, 1);
    StepInv(s0, SpawnStep(0, 0, 1, 0));
    s := Next(s0, SpawnStep(0, 0, 1, 0));
    NothingActive(s0.tiles[1]);
    StartsAppend([], 1, 1);
    assert s.starts == [] + [1];
  }

  lemma StartedOnOne(s1: State) returns (s: State)
    requires Inv(s1) && |s1.tiles| == 3 && s1.tiles[1].slots == [Slot(Initializing, 1)] && Starts(s1.starts, 1) == 1
    ensures Enabled(s1, StartStep(1, 0)) && s == Next(s1, StartStep(1, 0)) && Inv(s)
    ensures |s.tiles| == 3 && s.tiles[1].slots == [Slot(Running, 1)]
    ensures s.tiles[0] == s1.tiles[0] && s.tiles[2] == s1.tiles[2] && s.counter == s1.counter
  {
    StepInv(s1, StartStep(1, 0));
    s := Next(s1, StartStep(1, 0));
  }

  lemma SpawnedOnTwo(s2: State) returns (s: State)
    requires Inv(s2) && |s2.tiles| == 3 && s2.tiles[1].slots == [Slot(Running, 1)]
    requires s2.tiles[0] == Initial(3, 1).tiles[0] && s2.tiles[2] == Initial(3, 1).tiles[2] && s2.counter == 1
    ensures Enabled(s2, SpawnStep(0, 0, 2, 0)) && s == Next(s2, SpawnStep(0, 0, 2, 0)) && Inv(s)
    ensures |s.tiles| == 3 && s.tiles[1] == s2.tiles[1] && s.tiles[2].slots == [Slot(Initializing, 2)]
  {
    StepInv(s2, SpawnStep(0, 0, 2, 0));
    s := Next(s2, SpawnStep(0, 0, 2, 0));
    NothingActive(s2.tiles[2]);
  }

  lemma NothingActive(t: Tile)
    requires forall x :: 0 <= x < |t.slots| ==> t.slots[x].status == Idle
    ensures Startable(t)
  {
  }

  lemma NoRoom(s: State)
    requires |s.tiles| == 3 && s.tiles[2].slots == [Slot(Initializing, 2)]
    ensures Destination(s, 1, 0, {2}) == (2, None)
  {
    assert !AnyRunning(s.tiles[2]);
    assert Target(s, 1, {2}, 2) == 2 && Target(s, 1, {2}, 1) == 2 && Target(s, 1, {2}, 0) == 2;
    assert IdleSlot(s.tiles[2], 1) == None;
  }

  lemma DispatchPlace(s: State, t: nat)
    requires t < |s.tiles| && InRange(s.tiles[t])
    ensures Resumed(s, t).place == s.place
  {
  }

  lemma MovedPlace(s: State, t: nat, x: nat, mask: set<nat>)
    requires MayMove(s, t, x) && 0 !in mask
    ensures var (u, y) := Destination(s, t, x, mask);
      Moved(s, t, x, mask).place ==
      if u != t && y.Some? then s.place[s.tiles[t].slots[x].tid := (u, y.value)] else s.place
  {
    TargetInRange(s, t, mask, 0);
    IdleSlotIsIdle(s.tiles[Target(s, t, mask, 0)], 0);
  }

  /** What the master relies on between the parts of a yield. */
  lemma YieldFacts(s: State, t: nat, x: nat, mask: set<nat>)
    requires Inv(s) && Enabled(s, YieldStep(t, x, mask))
    ensures Inv(Next(s, YieldStep(t, x, mask))) && s.tiles[t].queue != []
    ensures s.tiles[t].queue[0].idx == x && InRange(s.tiles[t])
    ensures Movable(Rotated(s, t), t, x)
    ensures var s2 := Moved(Rotated(s, t), t, x, mask);
      && MayDispatch(s2, t, Rotated(s, t).tiles[t].queue[0].idx) && |s2.tiles| == |s.tiles|
      && Next(s, YieldStep(t, x, mask)) == Resumed(s2, t)
      && |Resumed(s2, t).tiles| == |s.tiles| && Resumed(s2, t).tiles[t].queue == s2.tiles[t].queue
  {
    StepInv(s, YieldStep(t, x, mask));
    EnabledFront(s, YieldStep(t, x, mask));
    YieldMoves(s, t, mask);
    OpenMovable(Rotated(s, t), t, x);
    MovedDispatch(Rotated(s, t), t, x, mask);
  }

  lemma MovedDispatch(s: State, t: nat, x: nat, mask: set<nat>)
    requires InvBut(s, {t}) && 1 <= t < |s.tiles| && s.tiles[t].queue != [] && 0 !in mask && MayMove(s, t, x)
    requires x == s.tiles[t].queue[|s.tiles[t].queue| - 1].idx && s.tiles[t].slots[x].status == Stalled
    ensures var s' := Moved(s, t, x, mask);
      && MayDispatch(s', t, s.tiles[t].queue[0].idx) && |s'.tiles| == |s.tiles|
      && |Resumed(s', t).tiles| == |s.tiles| && Resumed(s', t).tiles[t].queue == s'.tiles[t].queue
  {
    MovedInv(s, t, x, mask);
    WaitingFront(Moved(s, t, x, mask).tiles[t], Moved(s, t, x, mask).starts);
    DispatchQueues(Moved(s, t, x, mask), t, t);
  }

  lemma OpenMovable(s: State, t: nat, x: nat)
    requires InvBut(s, {t}) && 1 <= t < |s.tiles| && MayMove(s, t, x) && s.tiles[t].queue != []
    requires x == s.tiles[t].queue[|s.tiles[t].queue| - 1].idx && s.tiles[t].slots[x].status == Stalled
    ensures Movable(s, t, x)
  {
    assert InQueue(s.tiles[t].queue, x);
    forall u | 1 <= u < |s.tiles| && u != t { StartableIffEmpty(s.tiles[u], s.starts); }
  }

  /** The front of the queue, if any, is this slot and does not run yet. */
  ghost predicate MayDispatch(s: State, t: nat, x: nat) {
    && t < |s.tiles| && InRange(s.tiles[t])
    && (s.tiles[t].queue != [] ==> s.tiles[t].queue[0].idx == x && s.tiles[t].slots[x].status != Running)
  }

  lemma {:induction false} WithoutAppend(queue: seq<Entry>, e: Entry, x: nat)
    ensures Without(queue + [e], x) == Without(queue, x) + (if e.idx == x then [] else [e])
  {
    if queue == [] {
      assert [] + [e] == [e] && [e][1..] == [];
    } else {
      WithoutAppend(queue[1..], e, x);
      assert (queue + [e])[1..] == queue[1..] + [e];
    }
  }

  lemma {:induction false} QueueRound(all: seq<Entry>, i: nat, x: nat)
    requires i < |all|
    ensures var q := all[i..] + Without(all[..i], x);
      && q[0] == all[i]
      && q[1..] + (if all[i].idx == x then [] else [all[i]]) == all[i + 1..] + Without(all[..i + 1], x)
  {
    assert all[..i + 1] == all[..i] + [all[i]];
    WithoutAppend(all[..i], all[i], x);
    assert all[i..] == [all[i]] + all[i + 1..];
    var done, last := Without(all[..i], x), if all[i].idx == x then [] else [all[i]];
    assert ([all[i]] + all[i + 1..] + done)[1..] == all[i + 1..] + done;
    assert all[i + 1..] + done + last == all[i + 1..] + (done + last);
  }

  /** A thread that waits is not running. */
  lemma WaitingFront(t: Tile, log: seq<nat>)
    requires WaitFrom(t, log, 0)
    ensures InRange(t) && (t.queue != [] ==> t.slots[t.queue[0].idx].status != Running)
  {
    if t.queue != [] { assert Waits(t, log, 0); }
  }

  lemma ExitFacts(s: State, t: nat, x: nat)
    requires Inv(s) && Enabled(s, ExitStep(t, x))
    ensures s.tiles[t].queue != [] && Inv(Exit(s, t, x))
    ensures var tile := SetStatus(s.tiles[t], x, Idle).(queue := s.tiles[t].queue[1..]);
      InRange(tile) && (tile.queue != [] ==> tile.slots[tile.queue[0].idx].status != Running)
  {
    ExitInv(s, t, x);
    RunningIsFront(s.tiles[t], s.starts, x);
    PoppedWaits(s.tiles[t], s.starts);
    WaitingFront(Taken(s.tiles[t], 0), s.starts);
  }

  /** Stalling the requester and resuming it leaves only the new thread. */
  lemma StallAround(s: State, from: nat, r: nat, t: nat, x: nat, tid: nat)
    requires from < |s.tiles| && r < |s.tiles[from].slots| && s.tiles[from].slots[r].status == Running
    requires t < |s.tiles| && x < |s.tiles[t].slots| && s.tiles[t].slots[x].status == Idle
    ensures var a := s.tiles[from := SetStatus(s.tiles[from], r, Stalled)];
      var b := a[t := a[t].(slots := a[t].slots[x := a[t].slots[x].(tid := tid)])];
      var c := b[t := Enqueue(b[t], x, Slot(Initializing, tid))];
      c[from := SetStatus(c[from], r, Running)] == s.tiles[t := Enqueue(s.tiles[t], x, Slot(Initializing, tid))]
  {
    var a := s.tiles[from := SetStatus(s.tiles[from], r, Stalled)];
    var b := a[t := a[t].(slots := a[t].slots[x := a[t].slots[x].(tid := tid)])];
    var c := b[t := Enqueue(b[t], x, Slot(Initializing, tid))];
    var d := c[from := SetStatus(c[from], r, Running)];
    assert d[t].slots == s.tiles[t].slots[x := Slot(Initializing, tid)];
    assert from != t ==> d[from].slots == s.tiles[from].slots;
  }

  lemma SameStartable(t: Tile, x: nat, tid: nat)
    requires x < |t.slots|
    ensures Startable(t) <==> Startable(t.(slots := t.slots[x := t.slots[x].(tid := tid)]))
  {
    var t' := t.(slots := t.slots[x := t.slots[x].(tid := tid)]);
    assert forall z :: 0 <= z < |t.slots| ==> t'.slots[z].status == t.slots[z].status;
  }

  /** What holds while the requester of a spawn is stalled. */
  lemma SpawnChecks(s: State, from: nat, r: nat, t: nat, x: nat)
    requires Inv(s) && from < |s.tiles| && r < |s.tiles[from].slots| && s.tiles[from].slots[r].status == Running
    requires 1 <= t < |s.tiles| && x < |s.tiles[t].slots| && s.tiles[t].slots[x].status == Idle
    ensures InRange(s.tiles[t]) && (Startable(s.tiles[t]) <==> s.tiles[t].queue == []) && Inv(Spawn(s, from, t, x))
  {
    StartableIffEmpty(s.tiles[t], s.starts);
    SpawnInv(s, from, r, t, x);
  }
}
