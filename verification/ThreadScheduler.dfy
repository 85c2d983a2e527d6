/** Spawning, starting, yielding, migrating and ending application threads, as the messages to the
    master change the thread slots and the waiter queue of each tile. Tile 0 runs the main thread
    only and has no queue here. */
module ThreadScheduler {
  import opened Basics

  datatype Status = Idle | Initializing | Running | Stalled

  datatype Slot = Slot(status: Status, tid: nat)

  /** A waiting request: the slot it runs in and its thread id. */
  datatype Entry = Entry(idx: nat, tid: nat)

  datatype Tile = Tile(slots: seq<Slot>, queue: seq<Entry>)

  /** All tiles, the table from thread ids to tile and slot, the last thread id given out, and the
      thread ids for which the thread spawner was told to start a thread. */
  datatype State = State(tiles: seq<Tile>, place: seq<(nat, nat)>, counter: nat, starts: seq<nat>)

  // ------------------------------------------------------------------------- one tile

  predicate AnyRunning(t: Tile) { exists x :: 0 <= x < |t.slots| && t.slots[x].status == Running }

  predicate AnyInitializing(t: Tile) { exists x :: 0 <= x < |t.slots| && t.slots[x].status == Initializing }

  /** Whether a thread added to this tile may start at once. */
  predicate Startable(t: Tile) { !AnyRunning(t) && !AnyInitializing(t) }

  function SetStatus(t: Tile, x: nat, v: Status): Tile
    requires x < |t.slots|
  {
    t.(slots := t.slots[x := t.slots[x].(status := v)])
  }

  /** Put a thread into a slot and at the end of the queue. */
  function Enqueue(t: Tile, x: nat, slot: Slot): Tile
    requires x < |t.slots|
  {
    Tile(t.slots[x := slot], t.queue + [Entry(x, slot.tid)])
  }

  function Rotate(t: Tile): Tile
    requires t.queue != []
  {
    t.(queue := t.queue[1..] + [t.queue[0]])
  }

  function Without(queue: seq<Entry>, x: nat): seq<Entry> {
    if queue == [] then [] else (if queue[0].idx == x then [] else [queue[0]]) + Without(queue[1..], x)
  }

  ghost predicate InRange(t: Tile) { forall k :: 0 <= k < |t.queue| ==> t.queue[k].idx < |t.slots| }

  // ------------------------------------------------------------------- steps of the master

  function WithTile(s: State, t: nat, tile: Tile): State
    requires t < |s.tiles|
  {
    s.(tiles := s.tiles[t := tile])
  }

  /** Start the thread at the front if it is new, resume it if it was stalled. */
  function Dispatch(s: State, t: nat): State
    requires t < |s.tiles| && InRange(s.tiles[t]) && s.tiles[t].queue != []
  {
    var tile := s.tiles[t];
    var e := tile.queue[0];
    if tile.slots[e.idx].status == Initializing then s.(starts := s.starts + [e.tid])
    else WithTile(s, t, SetStatus(tile, e.idx, Running))
  }

  function Grown(place: seq<(nat, nat)>, tid: nat): seq<(nat, nat)> {
    if |place| <= tid then place + seq(2 * tid - |place|, _ => (0, 0)) else place
  }

  /** A new thread in a slot, before it may be started. */
  function Spawned(s: State, t: nat, x: nat): State
    requires t < |s.tiles| && x < |s.tiles[t].slots|
  {
    var tid := s.counter + 1;
    s.(counter := tid, place := Grown(s.place, tid)[tid := (t, x)],
       tiles := s.tiles[t := Enqueue(s.tiles[t], x, Slot(Initializing, tid))])
  }

  /** A request from a thread on one tile to start a thread in a slot of another, or of its own. */
  function Spawn(s: State, from: nat, t: nat, x: nat): State
    requires t < |s.tiles| && InRange(s.tiles[t]) && x < |s.tiles[t].slots|
  {
    var s' := Spawned(s, t, x);
    if from != t && Startable(s.tiles[t]) then Dispatch(s', t) else s'
  }

  /** A started thread reports in. */
  function Started(s: State, t: nat, x: nat): State
    requires t < |s.tiles| && x < |s.tiles[t].slots|
  {
    WithTile(s, t, SetStatus(s.tiles[t], x, Running))
  }

  function Resumed(s: State, t: nat): State
    requires t < |s.tiles| && InRange(s.tiles[t])
  {
    if s.tiles[t].queue != [] then Dispatch(s, t) else s
  }

  function Exit(s: State, t: nat, x: nat): State
    requires t < |s.tiles| && InRange(s.tiles[t]) && x < |s.tiles[t].slots| && s.tiles[t].queue != []
  {
    var tile := SetStatus(s.tiles[t], x, Idle);
    Resumed(WithTile(s, t, tile.(queue := tile.queue[1..])), t)
  }

  /** Move the thread in slot x of tile t to slot y of tile u. */
  function Migrate(s: State, t: nat, x: nat, u: nat, y: nat): State
    requires t < |s.tiles| && u < |s.tiles| && t != u && x < |s.tiles[t].slots| && y < |s.tiles[u].slots|
    requires InRange(s.tiles[u]) && s.tiles[t].slots[x].tid < |s.place|
  {
    var slot := s.tiles[t].slots[x];
    var source := Tile(s.tiles[t].slots[x := slot.(status := Idle)], Without(s.tiles[t].queue, x));
    var s' := s.(tiles := s.tiles[t := source][u := Enqueue(s.tiles[u], y, slot)],
                 place := s.place[slot.tid := (u, y)]);
    if Startable(s.tiles[u]) then Resumed(s', u) else s'
  }

  /** Where a thread with this affinity mask goes: the first tile of the mask on which nothing
      runs, when the mask is not empty and leaves out the present tile. */
  function Target(s: State, t: nat, mask: set<nat>, u: nat): nat
    requires u <= |s.tiles|
    decreases |s.tiles| - u
  {
    if mask == {} || t in mask || u == |s.tiles| then t
    else if u in mask && !AnyRunning(s.tiles[u]) then u
    else Target(s, t, mask, u + 1)
  }

  function IdleSlot(t: Tile, x: nat): Option<nat>
    requires x <= |t.slots|
    decreases |t.slots| - x
  {
    if x == |t.slots| then None else if t.slots[x].status == Idle then Some(x) else IdleSlot(t, x + 1)
  }

  /** The front thread stalls and goes to the end of its queue. */
  function Rotated(s: State, t: nat): State
    requires t < |s.tiles| && InRange(s.tiles[t]) && s.tiles[t].queue != []
  {
    WithTile(s, t, Rotate(SetStatus(s.tiles[t], s.tiles[t].queue[0].idx, Stalled)))
  }

  ghost predicate MayMove(s: State, t: nat, x: nat) {
    && t < |s.tiles| && x < |s.tiles[t].slots| && s.tiles[t].slots[x].tid < |s.place|
    && forall u :: 1 <= u < |s.tiles| ==> InRange(s.tiles[u])
  }

  /** The thread in slot x moves to a tile of its mask, if it has to leave and there is room. */
  function Moved(s: State, t: nat, x: nat, mask: set<nat>): State
    requires MayMove(s, t, x) && 0 !in mask
  {
    var u := Target(s, t, mask, 0);
    TargetInRange(s, t, mask, 0);
    var y := if u == t then None else IdleSlot(s.tiles[u], 0);
    if y == None then s
    else
      IdleSlotIsIdle(s.tiles[u], 0);
      Migrate(s, t, x, u, y.value)
  }

  lemma MovedInRange(s: State, t: nat, x: nat, mask: set<nat>)
    requires MayMove(s, t, x) && 0 !in mask && t >= 1
    ensures |Moved(s, t, x, mask).tiles| == |s.tiles| && InRange(Moved(s, t, x, mask).tiles[t])
  {
    TargetInRange(s, t, mask, 0);
    IdleSlotIsIdle(s.tiles[Target(s, t, mask, 0)], 0);
    WithoutInRange(s.tiles[t].queue, x, |s.tiles[t].slots|);
  }

  function Yield(s: State, t: nat, mask: set<nat>): State
    requires 1 <= t < |s.tiles| && s.tiles[t].queue != [] && 0 !in mask && InRange(s.tiles[t])
    requires MayMove(s, t, s.tiles[t].queue[0].idx)
  {
    var x := s.tiles[t].queue[0].idx;
    MovedInRange(Rotated(s, t), t, x, mask);
    Resumed(Moved(Rotated(s, t), t, x, mask), t)
  }

  lemma {:induction false} WithoutInRange(queue: seq<Entry>, x: nat, n: nat)
    requires forall k :: 0 <= k < |queue| ==> queue[k].idx < n
    ensures forall k :: 0 <= k < |Without(queue, x)| ==> Without(queue, x)[k].idx < n
  {
    if queue == [] {
    } else {
      WithoutInRange(queue[1..], x, n);
    }
  }

  lemma {:induction false} TargetInRange(s: State, t: nat, mask: set<nat>, u: nat)
    requires u <= |s.tiles| && t < |s.tiles|
    ensures var r := Target(s, t, mask, u); r < |s.tiles| && (r != t ==> r in mask && !AnyRunning(s.tiles[r]))
    decreases |s.tiles| - u
  {
    if u < |s.tiles| { TargetInRange(s, t, mask, u + 1); }
  }

  ghost predicate Busy(tiles: seq<Tile>, u: nat) {
    u < |tiles| && exists x :: 0 <= x < |tiles[u].slots| && tiles[u].slots[x].status == Running
  }

  /** Where a thread on tile t with this mask belongs: it stays if the mask is empty or names its tile
      or if somebody runs on every tile of the mask; else it goes to the first one where nobody does. */
  ghost predicate GoesTo(tiles: seq<Tile>, t: nat, mask: set<nat>, u: nat) {
    if mask == {} || t in mask || (forall v :: 0 <= v < |tiles| && v in mask ==> Busy(tiles, v)) then u == t
    else u < |tiles| && u in mask && !Busy(tiles, u) && forall v :: 0 <= v < u && v in mask ==> Busy(tiles, v)
  }

  lemma {:induction false} TargetFrom(s: State, t: nat, mask: set<nat>, u: nat)
    requires u <= |s.tiles| && t < |s.tiles| && mask != {} && t !in mask
    requires forall v :: 0 <= v < u && v in mask ==> Busy(s.tiles, v)
    ensures GoesTo(s.tiles, t, mask, Target(s, t, mask, u))
    decreases |s.tiles| - u
  {
    if u == |s.tiles| {
    } else {
      assert Busy(s.tiles, u) <==> AnyRunning(s.tiles[u]);
      if !(u in mask && !AnyRunning(s.tiles[u])) { TargetFrom(s, t, mask, u + 1); }
    }
  }

  lemma {:induction false} TargetIs(s: State, t: nat, mask: set<nat>)
    requires t < |s.tiles|
    ensures GoesTo(s.tiles, t, mask, Target(s, t, mask, 0))
    ensures Target(s, t, mask, 0) == t <==>
            mask == {} || t in mask || forall v :: 0 <= v < |s.tiles| && v in mask ==> Busy(s.tiles, v)
  {
    if mask != {} && t !in mask { TargetFrom(s, t, mask, 0); }
  }

  lemma {:induction false} IdleSlotIsIdle(t: Tile, x: nat)
    requires x <= |t.slots|
    ensures var r := IdleSlot(t, x);
      match r
      case Some(y) =>
        && x <= y < |t.slots| && t.slots[y].status == Idle
        && forall z :: x <= z < y ==> t.slots[z].status != Idle
      case None => forall z :: x <= z < |t.slots| ==> t.slots[z].status != Idle
    decreases |t.slots| - x
  {
    if x < |t.slots| { IdleSlotIsIdle(t, x + 1); }
  }

  // --------------------------------------------------------------------- invariant of a tile

  ghost function Starts(log: seq<nat>, tid: nat): nat {
    if log == [] then 0 else Starts(log[..|log| - 1], tid) + B(log[|log| - 1] == tid)
  }

  lemma {:induction false} StartsAppend(log: seq<nat>, x: nat, tid: nat)
    ensures Starts(log + [x], tid) == Starts(log, tid) + B(x == tid)
  {
    assert (log + [x])[..|log|] == log;
  }

  ghost predicate InQueue(queue: seq<Entry>, x: nat) { exists k :: 0 <= k < |queue| && queue[k].idx == x }

  /** The queue lists each slot that is not idle, once, with its thread id. */
  ghost predicate Linked(t: Tile) {
    && (forall k :: 0 <= k < |t.queue| ==> t.queue[k].idx < |t.slots| && t.slots[t.queue[k].idx].tid == t.queue[k].tid)
    && (forall i, j :: 0 <= i < j < |t.queue| ==> t.queue[i].idx != t.queue[j].idx)
    && (forall x :: 0 <= x < |t.slots| ==> (t.slots[x].status != Idle <==> InQueue(t.queue, x)))
  }

  /** Stalled after it ran, or not started yet. */
  ghost predicate Waits(t: Tile, log: seq<nat>, k: nat)
    requires k < |t.queue| && t.queue[k].idx < |t.slots|
  {
    var status, n := t.slots[t.queue[k].idx].status, Starts(log, t.queue[k].tid);
    (status == Stalled && n == 1) || (status == Initializing && n == 0)
  }

  /** Running, or started and about to run. */
  ghost predicate Active(t: Tile, log: seq<nat>, k: nat)
    requires k < |t.queue| && t.queue[k].idx < |t.slots|
  {
    var status := t.slots[t.queue[k].idx].status;
    (status == Running || status == Initializing) && Starts(log, t.queue[k].tid) == 1
  }

  /** All threads of the tile wait from this position on. */
  ghost predicate WaitFrom(t: Tile, log: seq<nat>, from: nat) {
    Linked(t) && forall k :: from <= k < |t.queue| ==> Waits(t, log, k)
  }

  /** The front of the queue is the only active thread. */
  ghost predicate Settled(t: Tile, log: seq<nat>) {
    WaitFrom(t, log, 1) && (t.queue != [] ==> Active(t, log, 0))
  }

  lemma StartableIffEmpty(t: Tile, log: seq<nat>)
    requires Settled(t, log)
    ensures Startable(t) <==> t.queue == []
  {
    if t.queue != [] {
      assert t.slots[t.queue[0].idx].status in {Running, Initializing};
    } else {
      forall x | 0 <= x < |t.slots| ensures t.slots[x].status == Idle { assert !InQueue(t.queue, x); }
    }
  }

  lemma EnqueueLinked(t: Tile, x: nat, slot: Slot)
    requires Linked(t) && x < |t.slots| && t.slots[x].status == Idle && slot.status != Idle
    ensures Linked(Enqueue(t, x, slot))
  {
    var t' := Enqueue(t, x, slot);
    assert !InQueue(t.queue, x);
    assert t'.queue[|t.queue|].idx == x;
    forall z | 0 <= z < |t.slots| ensures t'.slots[z].status != Idle <==> InQueue(t'.queue, z) {
      if InQueue(t.queue, z) {
        var k :| 0 <= k < |t.queue| && t.queue[k].idx == z;
        assert t'.queue[k].idx == z;
      }
    }
  }

  lemma RotateLinked(t: Tile, v: Status)
    requires Linked(t) && t.queue != [] && v != Idle
    ensures Linked(Rotate(SetStatus(t, t.queue[0].idx, v)))
  {
    var t' := Rotate(SetStatus(t, t.queue[0].idx, v));
    forall z | 0 <= z < |t.slots| ensures t'.slots[z].status != Idle <==> InQueue(t'.queue, z) {
      RotatedIn(t.queue, t'.queue, z);
      assert t.slots[z].status != Idle <==> InQueue(t.queue, z);
      if z == t.queue[0].idx { assert InQueue(t.queue, z); }
    }
    forall i, j | 0 <= i < j < |t'.queue| ensures t'.queue[i].idx != t'.queue[j].idx { RotatedApart(t.queue, i, j); }
  }

  lemma RotatedIn(queue: seq<Entry>, queue': seq<Entry>, z: nat)
    requires queue != [] && queue' == queue[1..] + [queue[0]]
    ensures InQueue(queue', z) <==> InQueue(queue, z)
  {
    var n := |queue| - 1;
    if InQueue(queue, z) {
      var k :| 0 <= k < |queue| && queue[k].idx == z;
      assert queue'[if k == 0 then n else k - 1].idx == z;
    }
    if InQueue(queue', z) {
      var k :| 0 <= k < |queue'| && queue'[k].idx == z;
      assert queue[if k == n then 0 else k + 1].idx == z;
    }
  }

  lemma RotatedApart(queue: seq<Entry>, i: nat, j: nat)
    requires i < j < |queue| && forall x, y :: 0 <= x < y < |queue| ==> queue[x].idx != queue[y].idx
    ensures (queue[1..] + [queue[0]])[i].idx != (queue[1..] + [queue[0]])[j].idx
  {
    assert (queue[1..] + [queue[0]])[i] == queue[i + 1];
    if j < |queue| - 1 { assert (queue[1..] + [queue[0]])[j] == queue[j + 1]; }
  }

  lemma StatusLinked(t: Tile, k: nat, v: Status)
    requires Linked(t) && k < |t.queue| && v != Idle
    ensures Linked(SetStatus(t, t.queue[k].idx, v))
  {
    assert InQueue(t.queue, t.queue[k].idx);
  }

  /** Take the entry at a position out of the queue and make its slot idle. */
  function Taken(t: Tile, k: nat): Tile
    requires k < |t.queue| && t.queue[k].idx < |t.slots|
  {
    SetStatus(t, t.queue[k].idx, Idle).(queue := t.queue[..k] + t.queue[k + 1..])
  }

  lemma InTaken(queue: seq<Entry>, k: nat, z: nat)
    requires k < |queue| && forall i, j :: 0 <= i < j < |queue| ==> queue[i].idx != queue[j].idx
    ensures InQueue(queue[..k] + queue[k + 1..], z) <==> InQueue(queue, z) && z != queue[k].idx
  {
    var rest := queue[..k] + queue[k + 1..];
    if InQueue(queue, z) && z != queue[k].idx {
      var i :| 0 <= i < |queue| && queue[i].idx == z;
      assert rest[if i < k then i else i - 1].idx == z;
    }
    if InQueue(rest, z) {
      var i :| 0 <= i < |rest| && rest[i].idx == z;
      assert queue[if i < k then i else i + 1].idx == z;
    }
  }

  lemma TakenLinked(t: Tile, k: nat)
    requires Linked(t) && k < |t.queue|
    ensures Linked(Taken(t, k))
  {
    forall z | 0 <= z < |t.slots| { InTaken(t.queue, k, z); }
  }

  lemma {:induction false} WithoutAbsent(queue: seq<Entry>, x: nat)
    requires forall i :: 0 <= i < |queue| ==> queue[i].idx != x
    ensures Without(queue, x) == queue
  {
    if queue == [] {
    } else {
      WithoutAbsent(queue[1..], x);
    }
  }

  /** Searching the queue of the source tile takes out one entry and keeps the order of the rest. */
  lemma {:induction false} WithoutAt(queue: seq<Entry>, k: nat)
    requires k < |queue| && forall i :: 0 <= i < |queue| && i != k ==> queue[i].idx != queue[k].idx
    ensures Without(queue, queue[k].idx) == queue[..k] + queue[k + 1..]
  {
    if k == 0 {
      WithoutAbsent(queue[1..], queue[0].idx);
      assert [] + queue[1..] == queue[1..];
    } else {
      WithoutAt(queue[1..], k - 1);
      assert queue[1..][..k - 1] == queue[1..k] && queue[1..][k..] == queue[k + 1..];
      assert [queue[0]] + (queue[1..k] + queue[k + 1..]) == queue[..k] + queue[k + 1..];
    }
  }

  // ---------------------------------------------------------------------- global invariant

  /** The table points to the slot of every thread in the queue of a tile. */
  ghost predicate Placed(s: State, t: nat)
    requires t < |s.tiles|
  {
    forall k :: 0 <= k < |s.tiles[t].queue| ==>
      && 1 <= s.tiles[t].queue[k].tid <= s.counter < |s.place|
      && s.place[s.tiles[t].queue[k].tid] == (t, s.tiles[t].queue[k].idx)
  }

  /** On the open tiles nothing is active; on the others the front of the queue is. */
  ghost predicate InvBut(s: State, open: set<nat>) {
    && |s.tiles| >= 1 && s.tiles[0].slots != [] && s.tiles[0].slots[0].status == Running
    && (s.counter == 0 || s.counter < |s.place|)
    && (forall t :: 1 <= t < |s.tiles| ==>
          (if t in open then WaitFrom(s.tiles[t], s.starts, 0) else Settled(s.tiles[t], s.starts)) && Placed(s, t))
    && (forall x: nat :: Starts(s.starts, x) <= B(1 <= x <= s.counter))
  }

  ghost predicate Inv(s: State) { InvBut(s, {}) }

  lemma WaitFromLog(t: Tile, log: seq<nat>, tid: nat, from: nat)
    requires WaitFrom(t, log, from) && forall k :: 0 <= k < |t.queue| ==> t.queue[k].tid != tid
    ensures WaitFrom(t, log + [tid], from)
  {
    forall k | from <= k < |t.queue| ensures Waits(t, log + [tid], k) {
      assert Waits(t, log, k);
      StartsAppend(log, tid, t.queue[k].tid);
    }
  }

  lemma SettledLog(t: Tile, log: seq<nat>, tid: nat)
    requires Settled(t, log) && forall k :: 0 <= k < |t.queue| ==> t.queue[k].tid != tid
    ensures Settled(t, log + [tid])
  {
    WaitFromLog(t, log, tid, 1);
    if t.queue != [] { StartsAppend(log, tid, t.queue[0].tid); }
  }

  lemma DistinctTids(s: State, t: nat, u: nat, i: nat, j: nat)
    requires t < |s.tiles| && u < |s.tiles| && Placed(s, t) && Placed(s, u) && Linked(s.tiles[t])
    requires i < |s.tiles[t].queue| && j < |s.tiles[u].queue| && (t, i) != (u, j)
    ensures s.tiles[t].queue[i].tid != s.tiles[u].queue[j].tid
  {
    assert s.place[s.tiles[t].queue[i].tid] == (t, s.tiles[t].queue[i].idx);
    assert s.place[s.tiles[u].queue[j].tid] == (u, s.tiles[u].queue[j].idx);
  }

  lemma StartSettles(s: State, t: nat)
    requires 1 <= t < |s.tiles| && WaitFrom(s.tiles[t], s.starts, 0) && Placed(s, t) && s.tiles[t].queue != []
    requires s.tiles[t].slots[s.tiles[t].queue[0].idx].status == Initializing
    ensures Settled(s.tiles[t], s.starts + [s.tiles[t].queue[0].tid])
  {
    var tile, tid := s.tiles[t], s.tiles[t].queue[0].tid;
    StartsAppend(s.starts, tid, tid);
    assert Waits(tile, s.starts, 0);
    forall k | 1 <= k < |tile.queue| ensures Waits(tile, s.starts + [tid], k) {
      DistinctTids(s, t, t, 0, k);
      StartsAppend(s.starts, tid, tile.queue[k].tid);
      assert Waits(tile, s.starts, k);
    }
  }

  lemma ResumeSettles(t: Tile, log: seq<nat>)
    requires WaitFrom(t, log, 0) && t.queue != [] && t.slots[t.queue[0].idx].status != Initializing
    ensures Settled(SetStatus(t, t.queue[0].idx, Running), log)
  {
    StatusLinked(t, 0, Running);
    assert Waits(t, log, 0);
    forall k | 1 <= k < |t.queue| ensures Waits(SetStatus(t, t.queue[0].idx, Running), log, k) {
      assert Waits(t, log, k);
    }
  }

  /** Dispatching the front of an open tile closes it and disturbs no other tile. */
  lemma ResumedInv(s: State, t: nat, open: set<nat>)
    requires InvBut(s, open + {t}) && 1 <= t < |s.tiles|
    ensures InvBut(Resumed(s, t), open - {t})
  {
    var s', tile := Resumed(s, t), s.tiles[t];
    if tile.queue != [] {
      if tile.slots[tile.queue[0].idx].status == Initializing {
        StartSettles(s, t);
        forall x: nat ensures Starts(s'.starts, x) <= B(1 <= x <= s.counter) {
          StartsAppend(s.starts, tile.queue[0].tid, x);
          assert Waits(tile, s.starts, 0);
        }
        OthersKeep(s, t, open);
      } else {
        ResumeSettles(tile, s.starts);
      }
    }
  }

  lemma OthersKeep(s: State, t: nat, open: set<nat>)
    requires InvBut(s, open + {t}) && 1 <= t < |s.tiles| && s.tiles[t].queue != []
    ensures var log := s.starts + [s.tiles[t].queue[0].tid];
      forall u :: 1 <= u < |s.tiles| && u != t ==>
        if u in open then WaitFrom(s.tiles[u], log, 0) else Settled(s.tiles[u], log)
  {
    var tid := s.tiles[t].queue[0].tid;
    forall u | 1 <= u < |s.tiles| && u != t
      ensures if u in open then WaitFrom(s.tiles[u], s.starts + [tid], 0) else Settled(s.tiles[u], s.starts + [tid])
    {
      forall k | 0 <= k < |s.tiles[u].queue| ensures s.tiles[u].queue[k].tid != tid { DistinctTids(s, t, u, 0, k); }
      if u in open { WaitFromLog(s.tiles[u], s.starts, tid, 0); } else { SettledLog(s.tiles[u], s.starts, tid); }
    }
  }

  // ---------------------------------------------------------------------------- every step

  lemma {:induction false} EnqueueWaits(t: Tile, x: nat, slot: Slot, log: seq<nat>)
    requires Settled(t, log) && x < |t.slots| && t.slots[x].status == Idle
    requires
      || (slot.status == Stalled && Starts(log, slot.tid) == 1)
      || (slot.status == Initializing && Starts(log, slot.tid) == 0)
    ensures if t.queue == [] then WaitFrom(Enqueue(t, x, slot), log, 0) else Settled(Enqueue(t, x, slot), log)
  {
    var t' := Enqueue(t, x, slot);
    EnqueueLinked(t, x, slot);
    assert !InQueue(t.queue, x);
    forall k | 1 <= k < |t.queue| ensures Waits(t', log, k) { assert Waits(t, log, k); }
    assert Waits(t', log, |t.queue|);
  }

  lemma RunningIsFront(t: Tile, log: seq<nat>, x: nat)
    requires Settled(t, log) && x < |t.slots| && t.slots[x].status == Running
    ensures t.queue != [] && t.queue[0].idx == x
  {
    assert InQueue(t.queue, x);
    var k :| 0 <= k < |t.queue| && t.queue[k].idx == x;
    assert !Waits(t, log, k);
  }

  lemma SpawnedInv(s: State, t: nat, x: nat)
    requires Inv(s) && 1 <= t < |s.tiles| && x < |s.tiles[t].slots| && s.tiles[t].slots[x].status == Idle
    ensures InvBut(Spawned(s, t, x), if s.tiles[t].queue == [] then {t} else {})
  {
    var tid, s' := s.counter + 1, Spawned(s, t, x);
    assert Starts(s.starts, tid) == 0;
    EnqueueWaits(s.tiles[t], x, Slot(Initializing, tid), s.starts);
    forall u | 1 <= u < |s.tiles| ensures Placed(s', u) { assert Placed(s, u); }
    forall x: nat
      ensures Starts(s'.starts, x) <= B(1 <= x <= s'.counter)
    {
      assert Starts(s.starts, x) <= B(1 <= x <= s.counter);
    }
  }

  lemma NewFrontInv(s: State, t: nat)
    requires InvBut(s, {t}) && 1 <= t < |s.tiles| && s.tiles[t].queue != []
    ensures Inv(Dispatch(s, t))
  {
    assert {} + {t} == {t} && {} - {t} == {};
    ResumedInv(s, t, {});
  }

  lemma SpawnInv(s: State, from: nat, r: nat, t: nat, x: nat)
    requires Inv(s) && 1 <= t < |s.tiles| && x < |s.tiles[t].slots| && s.tiles[t].slots[x].status == Idle
    requires from < |s.tiles| && r < |s.tiles[from].slots| && s.tiles[from].slots[r].status == Running
    ensures Inv(Spawn(s, from, t, x))
  {
    SpawnedInv(s, t, x);
    StartableIffEmpty(s.tiles[t], s.starts);
    if from == t {
      RunningIsFront(s.tiles[t], s.starts, r);
    } else if s.tiles[t].queue == [] {
      NewFrontInv(Spawned(s, t, x), t);
    }
  }

  /** Only the front of a queue can be about to run after it was started. */
  lemma {:induction false} StartedIsFront(t: Tile, log: seq<nat>, x: nat)
    requires Settled(t, log) && x < |t.slots| && t.slots[x].status == Initializing && Starts(log, t.slots[x].tid) == 1
    ensures t.queue != [] && t.queue[0].idx == x
  {
    assert InQueue(t.queue, x);
    var k :| 0 <= k < |t.queue| && t.queue[k].idx == x;
    assert !Waits(t, log, k);
  }

  lemma StartedInv(s: State, t: nat, x: nat)
    requires Inv(s) && 1 <= t < |s.tiles| && x < |s.tiles[t].slots|
    requires s.tiles[t].slots[x].status == Initializing && Starts(s.starts, s.tiles[t].slots[x].tid) == 1
    ensures Inv(Started(s, t, x))
  {
    var tile := s.tiles[t];
    StartedIsFront(tile, s.starts, x);
    StatusLinked(tile, 0, Running);
    forall k | 1 <= k < |tile.queue|
      ensures Waits(SetStatus(tile, x, Running), s.starts, k)
    {
      assert Waits(tile, s.starts, k);
    }
    forall u | 1 <= u < |s.tiles| ensures Placed(Started(s, t, x), u) { assert Placed(s, u); }
  }

  /** An entry that stays waits as before. */
  lemma TakenWaits(t: Tile, k: nat, log: seq<nat>, i: nat)
    requires Linked(t) && k < |t.queue| && i < |t.queue| - 1
    requires Waits(t, log, if i < k then i else i + 1)
    ensures |Taken(t, k).queue| == |t.queue| - 1 && Taken(t, k).queue[i] == t.queue[if i < k then i else i + 1]
    ensures Taken(t, k).queue[i].idx < |Taken(t, k).slots| && Waits(Taken(t, k), log, i)
  {
    var j := if i < k then i else i + 1;
    assert Taken(t, k).queue[i] == t.queue[j];
    assert t.queue[j].idx != t.queue[k].idx;
  }

  lemma PoppedWaits(t: Tile, log: seq<nat>)
    requires Settled(t, log) && t.queue != []
    ensures WaitFrom(Taken(t, 0), log, 0) && Taken(t, 0).queue == t.queue[1..]
  {
    var t' := Taken(t, 0);
    TakenLinked(t, 0);
    assert t'.queue == t.queue[1..];
    forall i | 0 <= i < |t'.queue| ensures Waits(t', log, i) { TakenWaits(t, 0, log, i); }
  }

  /** Exchanging one tile for another in which everybody waits, with no entry that was not there. */
  lemma ReplaceTile(s: State, t: nat, tile: Tile, open: set<nat>)
    requires InvBut(s, open) && 1 <= t < |s.tiles| && WaitFrom(tile, s.starts, 0)
    requires forall k :: 0 <= k < |tile.queue| ==> tile.queue[k] in s.tiles[t].queue
    ensures InvBut(WithTile(s, t, tile), open + {t})
  {
    var s' := WithTile(s, t, tile);
    forall u | 1 <= u < |s.tiles| ensures Placed(s', u) {
      assert Placed(s, u);
      if u == t {
        forall k | 0 <= k < |tile.queue|
          ensures 1 <= tile.queue[k].tid <= s.counter < |s.place|
          ensures s.place[tile.queue[k].tid] == (t, tile.queue[k].idx)
        {
          var j :| 0 <= j < |s.tiles[t].queue| && s.tiles[t].queue[j] == tile.queue[k];
        }
      }
    }
  }

  lemma PoppedInv(s: State, t: nat)
    requires Inv(s) && 1 <= t < |s.tiles| && s.tiles[t].queue != []
    ensures InvBut(WithTile(s, t, Taken(s.tiles[t], 0)), {t})
  {
    PoppedWaits(s.tiles[t], s.starts);
    assert {} + {t} == {t};
    ReplaceTile(s, t, Taken(s.tiles[t], 0), {});
  }

  lemma ExitIsPop(s: State, t: nat)
    requires t < |s.tiles| && InRange(s.tiles[t]) && s.tiles[t].queue != [] && InRange(Taken(s.tiles[t], 0))
    ensures Exit(s, t, s.tiles[t].queue[0].idx) == Resumed(WithTile(s, t, Taken(s.tiles[t], 0)), t)
  {
    assert s.tiles[t].queue[..0] + s.tiles[t].queue[1..] == s.tiles[t].queue[1..];
  }

  lemma ExitInv(s: State, t: nat, x: nat)
    requires Inv(s) && 1 <= t < |s.tiles| && x < |s.tiles[t].slots| && s.tiles[t].slots[x].status == Running
    ensures s.tiles[t].queue != [] && Inv(Exit(s, t, x))
  {
    RunningIsFront(s.tiles[t], s.starts, x);
    PoppedInv(s, t);
    ExitIsPop(s, t);
    assert {} + {t} == {t} && {} - {t} == {};
    ResumedInv(WithTile(s, t, Taken(s.tiles[t], 0)), t, {});
  }

  lemma RotatedWaits(t: Tile, log: seq<nat>, k: nat)
    requires Settled(t, log) && t.queue != [] && k < |t.queue| && t.slots[t.queue[0].idx].status == Running
    ensures var t' := Rotate(SetStatus(t, t.queue[0].idx, Stalled));
      |t'.queue| == |t.queue| && t'.queue[k] in t.queue && t'.queue[k].idx < |t'.slots| && Waits(t', log, k)
  {
    var t', n := Rotate(SetStatus(t, t.queue[0].idx, Stalled)), |t.queue| - 1;
    if k < n {
      assert t'.queue[k] == t.queue[k + 1] && Waits(t, log, k + 1);
      assert t.queue[k + 1].idx != t.queue[0].idx;
    } else {
      assert t'.queue[k] == t.queue[0];
    }
  }

  lemma RotatedInv(s: State, t: nat)
    requires Inv(s) && 1 <= t < |s.tiles| && s.tiles[t].queue != []
    requires s.tiles[t].slots[s.tiles[t].queue[0].idx].status == Running
    ensures InvBut(Rotated(s, t), {t})
  {
    var tile := s.tiles[t];
    var tile' := Rotate(SetStatus(tile, tile.queue[0].idx, Stalled));
    RotateLinked(tile, Stalled);
    forall k | 0 <= k < |tile'.queue|
      ensures Waits(tile', s.starts, k) && tile'.queue[k] in tile.queue
    {
      RotatedWaits(tile, s.starts, k);
    }
    assert {} + {t} == {t};
    ReplaceTile(s, t, tile', {});
  }

  /** The state of a migration before the thread may run at its new place. */
  ghost function Transferred(s: State, t: nat, k: nat, u: nat, y: nat): State
    requires t < |s.tiles| && u < |s.tiles| && k < |s.tiles[t].queue| && InRange(s.tiles[t]) && y < |s.tiles[u].slots|
    requires s.tiles[t].queue[k].tid < |s.place|
  {
    var tile := s.tiles[t];
    s.(tiles := s.tiles[t := Taken(tile, k)][u := Enqueue(s.tiles[u], y, tile.slots[tile.queue[k].idx])],
       place := s.place[tile.queue[k].tid := (u, y)])
  }

  /** An idle slot on another tile for the thread at a place of the queue; the front of a tile is
      taken only if the tile is open. */
  ghost predicate CanMigrate(s: State, t: nat, k: nat, u: nat, y: nat, open: set<nat>) {
    && InvBut(s, open) && 1 <= t < |s.tiles| && 1 <= u < |s.tiles| && t != u && k < |s.tiles[t].queue|
    && y < |s.tiles[u].slots| && s.tiles[u].slots[y].status == Idle
    && (open == {t} || (open == {} && k > 0))
  }

  lemma TransferredInv(s: State, t: nat, k: nat, u: nat, y: nat, open: set<nat>)
    requires CanMigrate(s, t, k, u, y, open)
    ensures s.tiles[t].queue[k].tid < |s.place|
    ensures InvBut(Transferred(s, t, k, u, y), if s.tiles[u].queue == [] then open + {u} else open)
  {
    OneTaken(s.tiles[t], k, s.starts, if t in open then 0 else 1);
    EnqueueWaits(s.tiles[u], y, s.tiles[t].slots[s.tiles[t].queue[k].idx], s.starts);
    MovedPlaced(s, t, k, u, y, open);
  }

  /** Whoever waits behind the front can be taken; everybody else stays as before. */
  lemma OneTaken(t: Tile, k: nat, log: seq<nat>, from: nat)
    requires WaitFrom(t, log, from) && from <= k < |t.queue| && from <= 1
    ensures WaitFrom(Taken(t, k), log, from) && Waits(t, log, k)
    ensures from == 1 ==> Taken(t, k).queue[0] == t.queue[0] && (Active(t, log, 0) ==> Active(Taken(t, k), log, 0))
  {
    TakenLinked(t, k);
    forall i | from <= i < |t.queue| - 1 ensures Waits(Taken(t, k), log, i) { TakenWaits(t, k, log, i); }
  }

  lemma MigrateIsTransfer(s: State, t: nat, k: nat, u: nat, y: nat)
    requires t < |s.tiles| && u < |s.tiles| && t != u && k < |s.tiles[t].queue|
    requires Linked(s.tiles[t]) && y < |s.tiles[u].slots|
    requires s.tiles[t].queue[k].tid < |s.place| && InRange(s.tiles[u])
    ensures var s' := Transferred(s, t, k, u, y);
      Migrate(s, t, s.tiles[t].queue[k].idx, u, y) == if Startable(s.tiles[u]) then Resumed(s', u) else s'
    ensures Transferred(s, t, k, u, y).tiles[t].queue == s.tiles[t].queue[..k] + s.tiles[t].queue[k + 1..]
  {
    WithoutAt(s.tiles[t].queue, k);
  }

  /** Moving a waiting thread to an idle slot of another tile keeps the order of those it leaves. */
  lemma MigrateInv(s: State, t: nat, k: nat, u: nat, y: nat, open: set<nat>)
    requires CanMigrate(s, t, k, u, y, open)
    ensures var x := s.tiles[t].queue[k].idx;
      && s.tiles[t].slots[x].tid < |s.place| && InvBut(Migrate(s, t, x, u, y), open)
      && Migrate(s, t, x, u, y).tiles[t].queue == s.tiles[t].queue[..k] + s.tiles[t].queue[k + 1..]
  {
    TransferredInv(s, t, k, u, y, open);
    MigrateIsTransfer(s, t, k, u, y);
    StartableIffEmpty(s.tiles[u], s.starts);
    if s.tiles[u].queue == [] {
      assert (open + {u}) - {u} == open && open - {u} == open;
      ResumedInv(Transferred(s, t, k, u, y), u, open);
    }
  }

  lemma MovedPlaced(s: State, t: nat, k: nat, u: nat, y: nat, open: set<nat>)
    requires CanMigrate(s, t, k, u, y, open)
    ensures s.tiles[t].queue[k].tid < |s.place|
    ensures forall v :: 1 <= v < |s.tiles| ==> Placed(Transferred(s, t, k, u, y), v)
  {
    var tile := s.tiles[t];
    assert Placed(s, t);
    forall v | 1 <= v < |s.tiles| ensures Placed(Transferred(s, t, k, u, y), v) {
      assert Placed(s, v);
      forall i | 0 <= i < |s.tiles[v].queue| && (v != t || i != k)
        ensures s.tiles[v].queue[i].tid != tile.queue[k].tid
      {
        DistinctTids(s, t, v, k, i);
      }
    }
  }

  /** A request to migrate any thread that does not run keeps the invariant if and only if the
      thread is not at the front: one at the front was started and is about to run. */
  lemma MigrateRequest(s: State, t: nat, k: nat, u: nat, y: nat)
    requires Inv(s) && 1 <= t < |s.tiles| && 1 <= u < |s.tiles| && t != u && k < |s.tiles[t].queue|
    requires y < |s.tiles[u].slots| && s.tiles[u].slots[y].status == Idle
    requires s.tiles[t].slots[s.tiles[t].queue[k].idx].status != Running
    ensures s.tiles[t].slots[s.tiles[t].queue[k].idx].tid < |s.place|
    ensures Inv(Migrate(s, t, s.tiles[t].queue[k].idx, u, y)) <==> k > 0
  {
    assert Placed(s, t);
    if k > 0 {
      MigrateInv(s, t, k, u, y, {});
    } else {
      MigrateIsTransfer(s, t, k, u, y);
      StartedMigrates(s, t, u, y);
    }
  }

  lemma StartedMigrates(s: State, t: nat, u: nat, y: nat)
    requires Inv(s) && 1 <= t < |s.tiles| && 1 <= u < |s.tiles| && t != u && s.tiles[t].queue != []
    requires y < |s.tiles[u].slots| && s.tiles[u].slots[y].status == Idle && s.tiles[t].queue[0].tid < |s.place|
    requires s.tiles[t].slots[s.tiles[t].queue[0].idx].status != Running
    ensures var s' := Transferred(s, t, 0, u, y);
      InRange(s'.tiles[u]) && !Inv(if Startable(s.tiles[u]) then Resumed(s', u) else s')
  {
    var s', tid := Transferred(s, t, 0, u, y), s.tiles[t].queue[0].tid;
    StartableIffEmpty(s.tiles[u], s.starts);
    if Startable(s.tiles[u]) {
      StartsAppend(s.starts, tid, tid);
      assert Starts(Resumed(s', u).starts, tid) == 2;
    } else {
      assert !Waits(s'.tiles[u], s'.starts, |s.tiles[u].queue|);
    }
  }

  lemma ReadyToMove(s: State, t: nat, open: set<nat>)
    requires InvBut(s, open) && 1 <= t < |s.tiles| && s.tiles[t].queue != []
    ensures InRange(s.tiles[t]) && MayMove(s, t, s.tiles[t].queue[0].idx)
    ensures MayMove(s, t, s.tiles[t].queue[|s.tiles[t].queue| - 1].idx)
  {
    assert Placed(s, t);
  }

  lemma LastMigrates(s: State, t: nat, u: nat, y: nat)
    requires t < |s.tiles| && s.tiles[t].queue != []
    requires CanMigrate(s, t, |s.tiles[t].queue| - 1, u, y, {t})
    ensures var x, n := s.tiles[t].queue[|s.tiles[t].queue| - 1].idx, |s.tiles[t].queue| - 1;
      && s.tiles[t].slots[x].tid < |s.place| && InvBut(Migrate(s, t, x, u, y), {t})
      && Migrate(s, t, x, u, y).tiles[t].queue == s.tiles[t].queue[..n]
  {
    var queue, n := s.tiles[t].queue, |s.tiles[t].queue| - 1;
    MigrateInv(s, t, n, u, y, {t});
    assert queue[..n] + queue[n + 1..] == queue[..n];
  }

  /** A thread at the end of an open tile that may move: the rest of its queue stays as it is, and
      the queues of the other tiles can only grow at the end. */
  lemma MovedInv(s: State, t: nat, x: nat, mask: set<nat>)
    requires InvBut(s, {t}) && 1 <= t < |s.tiles| && s.tiles[t].queue != [] && 0 !in mask
    requires x == s.tiles[t].queue[|s.tiles[t].queue| - 1].idx && s.tiles[t].slots[x].status == Stalled
    ensures MayMove(s, t, x) && InvBut(Moved(s, t, x, mask), {t})
    ensures var s' := Moved(s, t, x, mask);
      && |s'.tiles| == |s.tiles| && s'.counter == s.counter
      && s.tiles[t].queue[..|s.tiles[t].queue| - 1] <= s'.tiles[t].queue <= s.tiles[t].queue
      && forall v :: 0 <= v < |s.tiles| && v != t ==> s.tiles[v].queue <= s'.tiles[v].queue
  {
    ReadyToMove(s, t, {t});
    TargetInRange(s, t, mask, 0);
    var u := Target(s, t, mask, 0);
    IdleSlotIsIdle(s.tiles[u], 0);
    if u != t && IdleSlot(s.tiles[u], 0).Some? {
      var y := IdleSlot(s.tiles[u], 0).value;
      LastMigrates(s, t, u, y);
      forall v | 0 <= v < |s.tiles| { MigrateQueues(s, t, x, u, y, v); }
    }
  }

  lemma MigrateQueues(s: State, t: nat, x: nat, u: nat, y: nat, v: nat)
    requires t < |s.tiles| && u < |s.tiles| && t != u && x < |s.tiles[t].slots|
    requires y < |s.tiles[u].slots| && v < |s.tiles|
    requires InRange(s.tiles[u]) && s.tiles[t].slots[x].tid < |s.place|
    ensures var s' := Migrate(s, t, x, u, y);
      |s'.tiles| == |s.tiles| && s'.counter == s.counter && (v != t ==> s.tiles[v].queue <= s'.tiles[v].queue)
  {
  }

  /** A running thread is at the front, so after the rotation it is at the end. */
  lemma YieldMoves(s: State, t: nat, mask: set<nat>)
    requires Inv(s) && 1 <= t < |s.tiles| && s.tiles[t].queue != [] && 0 !in mask
    requires s.tiles[t].slots[s.tiles[t].queue[0].idx].status == Running
    ensures var s1, x := Rotated(s, t), s.tiles[t].queue[0].idx;
      && MayMove(s, t, x) && MayMove(s1, t, x) && InvBut(s1, {t}) && InvBut(Moved(s1, t, x, mask), {t})
      && |Moved(s1, t, x, mask).tiles| == |s.tiles|
      && s1.tiles[t].queue != [] && x == s1.tiles[t].queue[|s1.tiles[t].queue| - 1].idx
      && s1.tiles[t].slots[x].status == Stalled
  {
    ReadyToMove(s, t, {});
    RotatedInv(s, t);
    var s1, n := Rotated(s, t), |s.tiles[t].queue| - 1;
    assert s1.tiles[t].queue[n] == s.tiles[t].queue[0];
    MovedInv(s1, t, s.tiles[t].queue[0].idx, mask);
  }

  lemma YieldInv(s: State, t: nat, mask: set<nat>)
    requires Inv(s) && 1 <= t < |s.tiles| && s.tiles[t].queue != [] && 0 !in mask
    requires s.tiles[t].slots[s.tiles[t].queue[0].idx].status == Running
    ensures MayMove(s, t, s.tiles[t].queue[0].idx) && Inv(Yield(s, t, mask))
  {
    YieldMoves(s, t, mask);
    assert {} + {t} == {t} && {} - {t} == {};
    ResumedInv(Moved(Rotated(s, t), t, s.tiles[t].queue[0].idx, mask), t, {});
  }

  // --------------------------------------------------------------------------------- runs

  /** The messages the master handles. The affinity mask is whatever the thread has set before. */
  datatype Step =
    | SpawnStep(from: nat, requester: nat, tile: nat, slot: nat)
    | StartStep(tile: nat, slot: nat)
    | ExitStep(tile: nat, slot: nat)
    | YieldStep(tile: nat, slot: nat, mask: set<nat>)

  function Initial(tiles: nat, slots: nat): (s: State)
    requires tiles >= 1 && slots >= 1
    ensures Inv(s) && |s.tiles| == tiles
  {
    var idle := Tile(seq(slots, _ => Slot(Idle, 0)), []);
    State(seq(tiles, _ => idle)[0 := SetStatus(idle, 0, Running)], [], 0, [])
  }

  /** A running thread may spawn, yield or exit; a started one reports in. */
  ghost predicate Enabled(s: State, a: Step) {
    && 1 <= a.tile < |s.tiles| && a.slot < |s.tiles[a.tile].slots|
    && var slot := s.tiles[a.tile].slots[a.slot];
       match a
       case SpawnStep(from, r, _, _) =>
         && slot.status == Idle && from < |s.tiles| && r < |s.tiles[from].slots|
         && s.tiles[from].slots[r].status == Running
       case StartStep(_, _) => slot.status == Initializing && Starts(s.starts, slot.tid) == 1
       case ExitStep(_, _) => slot.status == Running
       case YieldStep(_, _, mask) => slot.status == Running && 0 !in mask
  }

  lemma EnabledFront(s: State, a: Step)
    requires Inv(s) && Enabled(s, a) && (a.ExitStep? || a.YieldStep?)
    ensures var tile := s.tiles[a.tile];
      tile.queue != [] && tile.queue[0].idx == a.slot && InRange(tile) && MayMove(s, a.tile, a.slot)
  {
    RunningIsFront(s.tiles[a.tile], s.starts, a.slot);
    ReadyToMove(s, a.tile, {});
  }

  ghost function Next(s: State, a: Step): State
    requires Inv(s) && Enabled(s, a)
  {
    match a
    case SpawnStep(from, _, t, x) => Spawn(s, from, t, x)
    case StartStep(t, x) => Started(s, t, x)
    case ExitStep(t, x) => EnabledFront(s, a); Exit(s, t, x)
    case YieldStep(t, x, mask) => EnabledFront(s, a); Yield(s, t, mask)
  }

  lemma StepInv(s: State, a: Step)
    requires Inv(s) && Enabled(s, a)
    ensures Inv(Next(s, a))
  {
    match a
    case SpawnStep(from, r, t, x) => SpawnInv(s, from, r, t, x);
    case StartStep(t, x) => StartedInv(s, t, x);
    case ExitStep(t, x) => ExitInv(s, t, x);
    case YieldStep(t, x, mask) => EnabledFront(s, a); YieldInv(s, t, mask);
  }

  ghost predicate IsRun(s: State, run: seq<Step>)
    requires Inv(s)
    decreases |run|
  {
    run == [] || (Enabled(s, run[0]) && (StepInv(s, run[0]); IsRun(Next(s, run[0]), run[1..])))
  }

  ghost function After(s: State, run: seq<Step>): (r: State)
    requires Inv(s) && IsRun(s, run)
    ensures Inv(r)
    decreases |run|
  {
    if run == [] then s else StepInv(s, run[0]); After(Next(s, run[0]), run[1..])
  }

  /** Running, or started and not yet running. */
  ghost predicate Occupies(slot: Slot, log: seq<nat>) {
    slot.status == Running || (slot.status == Initializing && Starts(log, slot.tid) == 1)
  }

  lemma {:induction false} FrontOccupies(t: Tile, log: seq<nat>, x: nat)
    requires Settled(t, log) && x < |t.slots|
    ensures Occupies(t.slots[x], log) <==> (t.queue != [] && t.queue[0].idx == x)
    ensures !Occupies(t.slots[x], log) && t.slots[x].status != Idle ==>
              t.slots[x].status == Stalled || (t.slots[x].status == Initializing && Starts(log, t.slots[x].tid) == 0)
  {
    if t.slots[x].status == Running {
      RunningIsFront(t, log, x);
    } else if t.slots[x].status == Initializing && Starts(log, t.slots[x].tid) == 1 {
      StartedIsFront(t, log, x);
    } else if t.slots[x].status == Initializing {
      assert InQueue(t.queue, x);
      var k :| 0 <= k < |t.queue| && t.queue[k].idx == x;
      if k > 0 { assert Waits(t, log, k); }
    }
  }

  lemma StepSize(s: State, a: Step)
    requires Inv(s) && Enabled(s, a)
    ensures |Next(s, a).tiles| == |s.tiles|
  {
    if a.YieldStep? {
      EnabledFront(s, a);
      YieldMoves(s, a.tile, a.mask);
    }
  }

  lemma {:induction false} RunSize(s: State, run: seq<Step>)
    requires Inv(s) && IsRun(s, run)
    ensures |After(s, run).tiles| == |s.tiles|
    decreases |run|
  {
    if run == [] {
    } else {
      StepInv(s, run[0]);
      StepSize(s, run[0]);
      RunSize(Next(s, run[0]), run[1..]);
    }
  }

  /** In every reachable state, on every tile but 0: the queue names the slots that are not idle,
      each once; its front is the only thread that runs or was started and will run; everybody else
      is stalled or not started; and the table leads from each thread id to its slot. */
  lemma {:induction false} TileInvariant(tiles: nat, slots: nat, run: seq<Step>, t: nat)
    requires tiles >= 1 && slots >= 1 && IsRun(Initial(tiles, slots), run) && 1 <= t < tiles
    ensures |After(Initial(tiles, slots), run).tiles| == tiles
    ensures var s := After(Initial(tiles, slots), run);
      var tile := s.tiles[t];
      && (forall i, j :: 0 <= i < j < |tile.queue| ==> tile.queue[i].idx != tile.queue[j].idx)
      && (forall x :: 0 <= x < |tile.slots| ==> (tile.slots[x].status != Idle <==> InQueue(tile.queue, x)))
      && (forall x :: 0 <= x < |tile.slots| ==>
            (Occupies(tile.slots[x], s.starts) <==> tile.queue != [] && tile.queue[0].idx == x))
      && (forall x :: 0 <= x < |tile.slots| && !Occupies(tile.slots[x], s.starts) && tile.slots[x].status != Idle ==>
            || tile.slots[x].status == Stalled
            || (tile.slots[x].status == Initializing && Starts(s.starts, tile.slots[x].tid) == 0))
      && Placed(s, t)
  {
    RunSize(Initial(tiles, slots), run);
    var s := After(Initial(tiles, slots), run);
    forall x | 0 <= x < |s.tiles[t].slots| { FrontOccupies(s.tiles[t], s.starts, x); }
  }

  // --------------------------------------------------------------------- bounded waiting

  /** A yield or an exit on the tile. */
  predicate Advances(a: Step, t: nat) { (a.ExitStep? || a.YieldStep?) && a.tile == t }

  lemma DispatchQueues(s: State, t: nat, u: nat)
    requires t < |s.tiles| && InRange(s.tiles[t]) && u < |s.tiles|
    ensures |Resumed(s, t).tiles| == |s.tiles| && Resumed(s, t).tiles[u].queue == s.tiles[u].queue
  {
  }

  lemma YieldQueues(s: State, t: nat, mask: set<nat>, u: nat)
    requires Inv(s) && 1 <= t < |s.tiles| && s.tiles[t].queue != [] && 0 !in mask && 1 <= u < |s.tiles|
    requires s.tiles[t].slots[s.tiles[t].queue[0].idx].status == Running
    ensures MayMove(s, t, s.tiles[t].queue[0].idx)
    ensures var s' := Yield(s, t, mask);
      && |s'.tiles| == |s.tiles| && s'.counter == s.counter
      && (if u == t then s.tiles[t].queue[1..] else s.tiles[u].queue) <= s'.tiles[u].queue
  {
    YieldMoves(s, t, mask);
    var s1, n, x := Rotated(s, t), |s.tiles[t].queue| - 1, s.tiles[t].queue[0].idx;
    assert s1.tiles[t].queue[..n] == s.tiles[t].queue[1..];
    MovedInv(s1, t, x, mask);
    DispatchQueues(Moved(s1, t, x, mask), t, u);
  }

  /** Round robin: a yield or an exit takes the front away, everything else only adds at the end. */
  lemma QueueStep(s: State, a: Step, t: nat)
    requires Inv(s) && Enabled(s, a) && 1 <= t < |s.tiles|
    ensures |Next(s, a).tiles| == |s.tiles| && (Advances(a, t) ==> s.tiles[t].queue != [])
    ensures (if Advances(a, t) then s.tiles[t].queue[1..] else s.tiles[t].queue) <= Next(s, a).tiles[t].queue
  {
    match a
    case SpawnStep(from, _, u, x) => SpawnQueues(s, from, u, x, t);
    case ExitStep(u, x) => EnabledFront(s, a); ExitQueues(s, u, x, t);
    case YieldStep(u, _, mask) => EnabledFront(s, a); YieldQueues(s, u, mask, t);
    case StartStep(_, _) =>
  }

  lemma SpawnQueues(s: State, from: nat, u: nat, x: nat, t: nat)
    requires u < |s.tiles| && InRange(s.tiles[u]) && x < |s.tiles[u].slots| && t < |s.tiles|
    ensures var s' := Spawn(s, from, u, x); |s'.tiles| == |s.tiles| && s.tiles[t].queue <= s'.tiles[t].queue
  {
  }

  lemma ExitQueues(s: State, u: nat, x: nat, t: nat)
    requires u < |s.tiles| && InRange(s.tiles[u]) && x < |s.tiles[u].slots| && s.tiles[u].queue != [] && t < |s.tiles|
    ensures var s' := Exit(s, u, x);
      |s'.tiles| == |s.tiles| && (if u == t then s.tiles[t].queue[1..] else s.tiles[t].queue) <= s'.tiles[t].queue
  {
  }

  /** A thread is at this position of a tile's queue. */
  ghost predicate At(s: State, t: nat, p: int, e: Entry) {
    t < |s.tiles| && 0 <= p < |s.tiles[t].queue| && s.tiles[t].queue[p] == e
  }

  lemma AtStep(s: State, a: Step, t: nat, p: nat, q: nat, e: Entry)
    requires Inv(s) && Enabled(s, a) && 1 <= t && At(s, t, p, e) && p == q + B(Advances(a, t))
    ensures At(Next(s, a), t, q, e)
  {
    QueueStep(s, a, t);
    MovedUp(s.tiles[t].queue, Next(s, a).tiles[t].queue, Advances(a, t), p, q);
  }

  lemma MovedUp(before: seq<Entry>, after: seq<Entry>, advance: bool, p: nat, q: nat)
    requires p < |before| && p == q + B(advance) && (if advance then before[1..] else before) <= after
    ensures q < |after| && after[q] == before[p]
  {
    if advance { assert before[1..][q] == before[p]; }
  }

  /** The state after the first step of a run. */
  lemma FirstStep(s: State, run: seq<Step>) returns (s': State)
    requires Inv(s) && IsRun(s, run) && run != []
    ensures Enabled(s, run[0]) && s' == Next(s, run[0]) && Inv(s')
    ensures IsRun(s', run[1..]) && After(s, run) == After(s', run[1..])
  {
    StepInv(s, run[0]);
    s' := Next(s, run[0]);
  }

  function Advanced(run: seq<Step>, t: nat): nat {
    if run == [] then 0 else B(Advances(run[0], t)) + Advanced(run[1..], t)
  }

  lemma AtAfterFirst(s: State, run: seq<Step>, t: nat, p: nat, q: nat, e: Entry) returns (s': State)
    requires Inv(s) && IsRun(s, run) && run != [] && 1 <= t && At(s, t, p, e) && p == q + B(Advances(run[0], t))
    ensures Inv(s') && IsRun(s', run[1..]) && After(s, run) == After(s', run[1..])
    ensures At(s', t, q, e)
  {
    s' := FirstStep(s, run);
    AtStep(s, run[0], t, p, q, e);
  }

  /** Bounded waiting: each yield or exit on its tile brings a thread one place nearer to the front
      and nothing ever takes it back, so it is at the front after as many of these as its position. */
  lemma {:induction false} BoundedWaiting(s: State, run: seq<Step>, t: nat, p: nat, q: nat, e: Entry)
    requires Inv(s) && IsRun(s, run) && 1 <= t && At(s, t, p, e) && p == q + Advanced(run, t)
    ensures At(After(s, run), t, q, e)
    decreases |run|
  {
    if run == [] {
    } else {
      var p' := q + Advanced(run[1..], t);
      var s' := AtAfterFirst(s, run, t, p, p', e);
      BoundedWaiting(s', run[1..], t, p', q, e);
    }
  }

  // ------------------------------------------------------------------- every thread is started

  /** The thread waits in its slot for its first turn. */
  ghost predicate Unstarted(s: State, tid: nat) {
    && tid < |s.place| && s.place[tid].0 < |s.tiles| && s.place[tid].1 < |s.tiles[s.place[tid].0].slots|
    && s.tiles[s.place[tid].0].slots[s.place[tid].1] == Slot(Initializing, tid)
  }

  /** The thread was started, once, or it will be. */
  ghost predicate Remembered(s: State, tid: nat) {
    Starts(s.starts, tid) == 1 || (Starts(s.starts, tid) == 0 && Unstarted(s, tid))
  }

  /** Changing a slot that does not hold an unstarted thread. */
  lemma SlotRemembers(s: State, s': State, t: nat, x: nat, tid: nat)
    requires t < |s.tiles| == |s'.tiles| && x < |s.tiles[t].slots| && Remembered(s, tid) && s'.starts == s.starts
    requires s.tiles[t].slots[x].status == Initializing ==> Starts(s.starts, s.tiles[t].slots[x].tid) > 0
    requires forall u :: 0 <= u < |s.tiles| ==> |s'.tiles[u].slots| == |s.tiles[u].slots|
    requires forall u, z :: 0 <= u < |s.tiles| && 0 <= z < |s.tiles[u].slots| && (u, z) != (t, x) ==>
      s'.tiles[u].slots[z] == s.tiles[u].slots[z]
    requires tid < |s.place| ==> tid < |s'.place| && s'.place[tid] == s.place[tid]
    ensures Remembered(s', tid)
  {
  }

  lemma ResumedRemembers(s: State, t: nat, tid: nat)
    requires t < |s.tiles| && InRange(s.tiles[t]) && Remembered(s, tid)
    requires s.tiles[t].queue != [] && s.tiles[t].slots[s.tiles[t].queue[0].idx].status == Initializing ==>
               Starts(s.starts, s.tiles[t].queue[0].tid) == 0
    ensures Remembered(Resumed(s, t), tid)
  {
    if s.tiles[t].queue != [] {
      var e := s.tiles[t].queue[0];
      if s.tiles[t].slots[e.idx].status == Initializing {
        StartRemembers(s, e.tid, tid);
      } else {
        SlotRemembers(s, Resumed(s, t), t, e.idx, tid);
      }
    }
  }

  lemma {:induction false} StartRemembers(s: State, x: nat, tid: nat)
    requires Remembered(s, tid) && Starts(s.starts, x) == 0
    ensures Remembered(s.(starts := s.starts + [x]), tid)
  {
    StartsAppend(s.starts, x, tid);
  }

  lemma OpenFront(s: State, t: nat, open: set<nat>)
    requires InvBut(s, open) && t in open && 1 <= t < |s.tiles| && s.tiles[t].queue != []
    requires s.tiles[t].slots[s.tiles[t].queue[0].idx].status == Initializing
    ensures Starts(s.starts, s.tiles[t].queue[0].tid) == 0
  {
    assert Waits(s.tiles[t], s.starts, 0);
  }

  lemma SpawnRemembers(s: State, from: nat, r: nat, t: nat, x: nat, tid: nat)
    requires Inv(s) && 1 <= t < |s.tiles| && x < |s.tiles[t].slots| && s.tiles[t].slots[x].status == Idle
    requires from < |s.tiles| && r < |s.tiles[from].slots| && s.tiles[from].slots[r].status == Running
    requires 1 <= tid <= s.counter + 1 && (tid <= s.counter ==> Remembered(s, tid))
    ensures Remembered(Spawn(s, from, t, x), tid)
  {
    var c, s' := s.counter + 1, Spawned(s, t, x);
    assert Starts(s.starts, c) == 0;
    if tid <= s.counter { SlotRemembers(s, s', t, x, tid); }
    SpawnedInv(s, t, x);
    StartableIffEmpty(s.tiles[t], s.starts);
    if from != t && s.tiles[t].queue == [] {
      OpenFront(s', t, {t});
      ResumedRemembers(s', t, tid);
    }
  }

  lemma ExitRemembers(s: State, t: nat, x: nat, tid: nat)
    requires Inv(s) && 1 <= t < |s.tiles| && x < |s.tiles[t].slots|
    requires s.tiles[t].slots[x].status == Running && Remembered(s, tid)
    ensures s.tiles[t].queue != [] && Remembered(Exit(s, t, x), tid)
  {
    var tile := s.tiles[t];
    RunningIsFront(tile, s.starts, x);
    PoppedWaits(tile, s.starts);
    var s' := WithTile(s, t, Taken(tile, 0));
    SlotRemembers(s, s', t, x, tid);
    if s'.tiles[t].queue != [] { assert Waits(s'.tiles[t], s.starts, 0); }
    ResumedRemembers(s', t, tid);
  }

  lemma MigrateRemembers(s: State, t: nat, u: nat, y: nat, tid: nat)
    requires InvBut(s, {t}) && 1 <= t < |s.tiles| && 1 <= u < |s.tiles| && t != u && s.tiles[t].queue != []
    requires y < |s.tiles[u].slots| && s.tiles[u].slots[y].status == Idle && Remembered(s, tid)
    requires var x := s.tiles[t].queue[|s.tiles[t].queue| - 1].idx; s.tiles[t].slots[x].status == Stalled
    ensures var x := s.tiles[t].queue[|s.tiles[t].queue| - 1].idx;
      s.tiles[t].slots[x].tid < |s.place| && Remembered(Migrate(s, t, x, u, y), tid)
  {
    var n := |s.tiles[t].queue| - 1;
    var x := s.tiles[t].queue[n].idx;
    assert Placed(s, t);
    assert Waits(s.tiles[t], s.starts, n);
    var slot := s.tiles[t].slots[x];
    var source := Tile(s.tiles[t].slots[x := slot.(status := Idle)], Without(s.tiles[t].queue, x));
    var s1 := WithTile(s, t, source);
    SlotRemembers(s, s1, t, x, tid);
    var s2 := s1.(tiles := s1.tiles[u := Enqueue(s.tiles[u], y, slot)]);
    SlotRemembers(s1, s2, u, y, tid);
    var s3 := s2.(place := s.place[slot.tid := (u, y)]);
    assert Remembered(s3, tid);
    assert s3.tiles == s.tiles[t := source][u := Enqueue(s.tiles[u], y, slot)];
    StartableIffEmpty(s.tiles[u], s.starts);
    if s.tiles[u].queue == [] { ResumedRemembers(s3, u, tid); }
  }

  lemma MovedRemembers(s: State, t: nat, x: nat, mask: set<nat>, tid: nat)
    requires InvBut(s, {t}) && 1 <= t < |s.tiles| && s.tiles[t].queue != []
    requires 0 !in mask && MayMove(s, t, x) && Remembered(s, tid)
    requires x == s.tiles[t].queue[|s.tiles[t].queue| - 1].idx && s.tiles[t].slots[x].status == Stalled
    ensures Remembered(Moved(s, t, x, mask), tid)
  {
    TargetInRange(s, t, mask, 0);
    var u := Target(s, t, mask, 0);
    IdleSlotIsIdle(s.tiles[u], 0);
    if u != t && IdleSlot(s.tiles[u], 0).Some? { MigrateRemembers(s, t, u, IdleSlot(s.tiles[u], 0).value, tid); }
  }

  lemma YieldRemembers(s: State, t: nat, mask: set<nat>, tid: nat)
    requires Inv(s) && 1 <= t < |s.tiles| && s.tiles[t].queue != [] && 0 !in mask && Remembered(s, tid)
    requires s.tiles[t].slots[s.tiles[t].queue[0].idx].status == Running
    ensures MayMove(s, t, s.tiles[t].queue[0].idx) && Remembered(Yield(s, t, mask), tid)
  {
    YieldMoves(s, t, mask);
    var s1, x := Rotated(s, t), s.tiles[t].queue[0].idx;
    SlotRemembers(s, s1, t, x, tid);
    MovedRemembers(s1, t, x, mask, tid);
    OpenResumes(Moved(s1, t, x, mask), t, tid);
  }

  lemma OpenResumes(s: State, t: nat, tid: nat)
    requires InvBut(s, {t}) && 1 <= t < |s.tiles| && Remembered(s, tid)
    ensures Remembered(Resumed(s, t), tid)
  {
    if s.tiles[t].queue != [] { assert Waits(s.tiles[t], s.starts, 0); }
    ResumedRemembers(s, t, tid);
  }

  /** Only a spawn gives out a thread id, and always a new one. */
  lemma CounterStep(s: State, a: Step)
    requires Inv(s) && Enabled(s, a)
    ensures Next(s, a).counter == s.counter + B(a.SpawnStep?)
  {
    if a.YieldStep? { EnabledFront(s, a); YieldQueues(s, a.tile, a.mask, a.tile); }
    else if a.ExitStep? { EnabledFront(s, a); }
  }

  lemma StepRemembers(s: State, a: Step, tid: nat)
    requires Inv(s) && Enabled(s, a) && 1 <= tid <= s.counter + B(a.SpawnStep?)
    requires (tid <= s.counter ==> Remembered(s, tid))
    ensures Remembered(Next(s, a), tid)
  {
    match a
    case SpawnStep(from, r, t, x) => SpawnRemembers(s, from, r, t, x, tid);
    case StartStep(t, x) => SlotRemembers(s, Next(s, a), t, x, tid);
    case ExitStep(t, x) => ExitRemembers(s, t, x, tid);
    case YieldStep(t, x, mask) => EnabledFront(s, a); YieldRemembers(s, t, mask, tid);
  }

  ghost predicate AllRemembered(s: State) { forall tid: nat :: 1 <= tid <= s.counter ==> Remembered(s, tid) }

  lemma RemembersAfterFirst(s: State, run: seq<Step>) returns (s': State)
    requires Inv(s) && IsRun(s, run) && run != [] && AllRemembered(s)
    ensures Inv(s') && IsRun(s', run[1..]) && After(s, run) == After(s', run[1..]) && AllRemembered(s')
  {
    s' := FirstStep(s, run);
    CounterStep(s, run[0]);
    forall tid: nat | 1 <= tid <= s'.counter ensures Remembered(s', tid) { StepRemembers(s, run[0], tid); }
  }

  lemma {:induction false} RunRemembers(s: State, run: seq<Step>)
    requires Inv(s) && IsRun(s, run) && AllRemembered(s)
    ensures AllRemembered(After(s, run))
    decreases |run|
  {
    if run == [] {
    } else {
      var s' := RemembersAfterFirst(s, run);
      RunRemembers(s', run[1..]);
    }
  }

  /** In every reachable state a thread id that was given out has been started exactly once, unless
      its thread still waits in its slot for the first turn; no other thread id is ever started. */
  lemma {:induction false} StartedExactlyOnce(tiles: nat, slots: nat, run: seq<Step>, tid: nat)
    requires tiles >= 1 && slots >= 1 && IsRun(Initial(tiles, slots), run)
    ensures var s := After(Initial(tiles, slots), run);
      if 1 <= tid <= s.counter then
        Starts(s.starts, tid) == 1 || (Starts(s.starts, tid) == 0 && Unstarted(s, tid))
      else Starts(s.starts, tid) == 0
  {
    RunRemembers(Initial(tiles, slots), run);
    var s := After(Initial(tiles, slots), run);
    if 1 <= tid <= s.counter { assert Remembered(s, tid); }
    else { assert Starts(s.starts, tid) <= B(1 <= tid <= s.counter); }
  }
}
