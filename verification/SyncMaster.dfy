/** The handlers of the synchronisation server as the master runs them, in place. Each one is the
    corresponding step of the protocol, and none of the thread manager's checks can fail. */
module SyncMaster {
  import opened Basics
  import opened SyncServer

  lemma CondStalled(sv: Server, q: nat)
    requires ServerInv(sv) && q < |sv.conds|
    ensures AllStalled(sv.status, sv.conds[q].cores)
  {
    var cores := sv.conds[q].cores;
    forall i | 0 <= i < |cores| ensures sv.status[cores[i]] == Stalled && Occurs(cores, cores[i]) <= 1 {
      OccursIn(cores, cores[i]);
      InCondQueue(sv.conds, q, cores[i]);
      assert Queued(sv, cores[i]) == B(sv.status[cores[i]] == Stalled);
    }
  }

  lemma BarrierStalled(sv: Server, b: nat, c: CoreId)
    requires ServerInv(sv) && b < |sv.barriers| && c < |sv.status| && sv.status[c] == Running
    ensures AllStalled(sv.status[c := Stalled], sv.barriers[b].waiting + [c])
  {
    var waiting := sv.barriers[b].waiting;
    forall i | 0 <= i <= |waiting|
      ensures var d := (waiting + [c])[i]; sv.status[c := Stalled][d] == Stalled && Occurs(waiting + [c], d) <= 1
    {
      var d := (waiting + [c])[i];
      OccursAppend(waiting, c, d);
      InBarrierQueue(sv.barriers, b, d);
      OccursIn(waiting, d);
      assert Queued(sv, d) == B(sv.status[d] == Stalled);
    }
  }

  /** A broadcast that has dealt with the first waiters and has woken some of them so far. */
  ghost predicate GrantedSoFar(start: seq<Mutex>, ms: seq<Mutex>, q: Cond, i: nat, woken: seq<CoreId>)
    requires i <= |q.cores| == |q.muxes| && InRange(q.muxes, |ms|) && |start| == |ms|
  {
    var rest := GrantAll(ms, Cond(q.cores[i..], q.muxes[i..]));
    (rest.0, woken + rest.1) == GrantAll(start, q)
  }

  lemma GrantFromStart(ms: seq<Mutex>, q: Cond)
    requires |q.cores| == |q.muxes| && InRange(q.muxes, |ms|)
    ensures GrantedSoFar(ms, ms, q, 0, [])
  {
    assert q.cores[0..] == q.cores && q.muxes[0..] == q.muxes;
    assert [] + GrantAll(ms, q).1 == GrantAll(ms, q).1;
  }

  lemma {:induction false} GrantFromEnd(start: seq<Mutex>, ms: seq<Mutex>, q: Cond, woken: seq<CoreId>)
    requires |q.cores| == |q.muxes| && InRange(q.muxes, |ms|)
    requires |start| == |ms| && GrantedSoFar(start, ms, q, |q.cores|, woken)
    ensures GrantAll(start, q) == (ms, woken)
  {
    assert woken + [] == woken;
  }

  lemma GrantFromStep(start: seq<Mutex>, ms: seq<Mutex>, q: Cond, i: nat, woken: seq<CoreId>)
    requires i < |q.cores| == |q.muxes| && InRange(q.muxes, |ms|)
    requires |start| == |ms| && GrantedSoFar(start, ms, q, i, woken)
    ensures var (m, granted) := Lock(ms[q.muxes[i]], q.cores[i]);
      GrantedSoFar(start, ms[q.muxes[i] := m], q, i + 1, if granted then woken + [q.cores[i]] else woken)
  {
    var (m, granted) := Lock(ms[q.muxes[i]], q.cores[i]);
    assert q.cores[i..][1..] == q.cores[i + 1..] && q.muxes[i..][1..] == q.muxes[i + 1..];
    var rest := GrantAll(ms[q.muxes[i] := m], Cond(q.cores[i + 1..], q.muxes[i + 1..])).1;
    assert woken + ((if granted then [q.cores[i]] else []) + rest) ==
           (if granted then woken + [q.cores[i]] else woken) + rest;
  }

  /** The same answer for each of some cores, in their order. */
  method Notify(cores: seq<CoreId>, a: Answer) returns (replies: seq<Reply>)
    ensures replies == RepliesTo(cores, a)
  {
    var i := 0;
    replies := [];
    while i < |cores|
      invariant i <= |cores| && replies == RepliesTo(cores[..i], a)
    {
      replies := replies + [Reply(cores[i], a)];
      i := i + 1;
    }
    assert cores[..i] == cores;
  }

  class Master {
    var mutexes: seq<Mutex>
    var conds: seq<Cond>
    var barriers: seq<Barrier>
    var status: seq<Status>

    ghost function State(): Server
      reads this
    {
      Server(mutexes, conds, barriers, status)
    }

    constructor (cores: nat)
      ensures ServerInv(State()) && mutexes == [] && conds == [] && barriers == []
      ensures |status| == cores && forall c :: 0 <= c < cores ==> status[c] == Running
    {
      mutexes, conds, barriers, status := [], [], [], seq(cores, _ => Running);
    }

    method StallThread(c: CoreId)
      requires c < |status| && status[c] == Running
      modifies this`status
      ensures status == old(status)[c := Stalled]
    {
      status := status[c := Stalled];
    }

    method ResumeThread(c: CoreId)
      requires c < |status| && status[c] != Running
      modifies this`status
      ensures status == old(status)[c := Running]
    {
      status := status[c := Running];
    }

    method LockMutex(m: nat, c: CoreId) returns (granted: bool)
      requires m < |mutexes| && c < |status| && status[c] == Running
      modifies this`mutexes, this`status
      ensures mutexes == old(mutexes)[m := Lock(old(mutexes[m]), c).0] && granted == Lock(old(mutexes[m]), c).1
      ensures status == if granted then old(status) else old(status)[c := Stalled]
    {
      if mutexes[m].owner == None {
        mutexes := mutexes[m := mutexes[m].(owner := Some(c))];
        granted := true;
      } else {
        StallThread(c);
        mutexes := mutexes[m := mutexes[m].(waiting := mutexes[m].waiting + [c])];
        granted := false;
      }
    }

    method UnlockMutex(m: nat, c: CoreId) returns (owner: Option<CoreId>)
      requires m < |mutexes| && mutexes[m].owner == Some(c)
      requires mutexes[m].waiting != [] ==> mutexes[m].waiting[0] < |status| && status[mutexes[m].waiting[0]] == Stalled
      modifies this`mutexes, this`status
      ensures mutexes == old(mutexes)[m := Unlock(old(mutexes[m]))] && owner == mutexes[m].owner
      ensures status == if owner.Some? then old(status)[owner.value := Running] else old(status)
    {
      var mux := mutexes[m];
      if mux.waiting == [] {
        mutexes := mutexes[m := mux.(owner := None)];
      } else {
        mutexes := mutexes[m := Mutex(Some(mux.waiting[0]), mux.waiting[1..])];
        ResumeThread(mux.waiting[0]);
      }
      owner := mutexes[m].owner;
    }

    lemma FirstStalled(m: nat)
      requires ServerInv(State()) && m < |mutexes| && mutexes[m].waiting != []
      ensures mutexes[m].waiting[0] < |status| && status[mutexes[m].waiting[0]] == Stalled
    {
      InMutexQueue(mutexes, m, mutexes[m].waiting[0]);
      OccursIn(mutexes[m].waiting, mutexes[m].waiting[0]);
    }

    method MutexInit(c: CoreId) returns (replies: seq<Reply>)
      requires ServerInv(State()) && c < |status| && status[c] == Running
      modifies this`mutexes
      ensures Outcome(State(), replies) == Handle(old(State()), c, Request.MutexInit) && ServerInv(State())
      ensures mutexes == old(mutexes) + [Mutex(None, [])] && replies == [Reply(c, Created(|old(mutexes)|))]
    {
      HandleInv(State(), c, Request.MutexInit);
      mutexes := mutexes + [FRESH_MUTEX];
      replies := [Reply(c, Created(|mutexes| - 1))];
    }

    method MutexLock(c: CoreId, m: nat, time: nat) returns (replies: seq<Reply>)
      requires ServerInv(State()) && Legal(State(), c, Request.MutexLock(m, time)) && status[c] == Running
      modifies this`mutexes, this`status
      ensures Outcome(State(), replies) == Handle(old(State()), c, Request.MutexLock(m, time)) && ServerInv(State())
      ensures forall k :: 0 <= k < |replies| && replies[k].answer.LockResponse? ==> replies[k].answer.time == time
    {
      HandleInv(State(), c, Request.MutexLock(m, time));
      var granted := LockMutex(m, c);
      replies := if granted then [Reply(c, LockResponse(time))] else [];
    }

    method MutexUnlock(c: CoreId, m: nat, time: nat) returns (replies: seq<Reply>)
      requires ServerInv(State()) && Legal(State(), c, Request.MutexUnlock(m, time)) && status[c] == Running
      modifies this`mutexes, this`status
      ensures Outcome(State(), replies) == Handle(old(State()), c, Request.MutexUnlock(m, time)) && ServerInv(State())
      ensures forall k :: 0 <= k < |replies| && replies[k].answer.LockResponse? ==> replies[k].answer.time == time
    {
      HandleInv(State(), c, Request.MutexUnlock(m, time));
      if mutexes[m].waiting != [] { FirstStalled(m); }
      var owner := UnlockMutex(m, c);
      replies := [];
      if owner.Some? { replies := [Reply(owner.value, LockResponse(time))]; }
      replies := replies + [Reply(c, UnlockResponse)];
    }

    method CondInit(c: CoreId) returns (replies: seq<Reply>)
      requires ServerInv(State()) && c < |status| && status[c] == Running
      modifies this`conds
      ensures Outcome(State(), replies) == Handle(old(State()), c, Request.CondInit) && ServerInv(State())
      ensures conds == old(conds) + [Cond([], [])] && replies == [Reply(c, Created(|old(conds)|))]
    {
      HandleInv(State(), c, Request.CondInit);
      conds := conds + [Cond([], [])];
      replies := [Reply(c, Created(|conds| - 1))];
    }

    method CondWait(c: CoreId, q: nat, m: nat, time: nat) returns (replies: seq<Reply>)
      requires ServerInv(State()) && Legal(State(), c, Request.CondWait(q, m, time)) && status[c] == Running
      modifies this
      ensures Outcome(State(), replies) == Handle(old(State()), c, Request.CondWait(q, m, time)) && ServerInv(State())
      ensures forall k :: 0 <= k < |replies| && replies[k].answer.LockResponse? ==> replies[k].answer.time == time
    {
      HandleInv(State(), c, Request.CondWait(q, m, time));
      if mutexes[m].waiting != [] { FirstStalled(m); }
      StallThread(c);
      conds := conds[q := Cond(conds[q].cores + [c], conds[q].muxes + [m])];
      var owner := UnlockMutex(m, c);
      replies := if owner.Some? then [Reply(owner.value, LockResponse(time))] else [];
    }

    /** Take the first waiter off a condition variable and let it ask for its mutex. */
    method SignalCond(q: nat) returns (woken: Option<CoreId>)
      requires q < |conds| && |conds[q].cores| == |conds[q].muxes|
      requires InRange(conds[q].muxes, |mutexes|) && AllStalled(status, conds[q].cores)
      modifies this
      ensures barriers == old(barriers)
      ensures old(conds[q].cores) == [] ==>
        woken == None && mutexes == old(mutexes) && conds == old(conds) && status == old(status)
      ensures old(conds[q].cores) != [] ==>
        var c, m := old(conds[q].cores[0]), old(conds[q].muxes[0]);
        && conds == old(conds)[q := EraseFirst(old(conds[q]))]
        && mutexes == old(mutexes)[m := Lock(old(mutexes)[m], c).0]
        && woken == (if Lock(old(mutexes)[m], c).1 then Some(c) else None)
        && status == if woken.Some? then old(status)[c := Running] else old(status)
    {
      if conds[q].cores == [] { return None; }
      var c, m := conds[q].cores[0], conds[q].muxes[0];
      conds := conds[q := EraseFirst(conds[q])];
      var granted := Wake(c, m);
      woken := if granted then Some(c) else None;
    }

    method CondSignal(c: CoreId, q: nat, time: nat) returns (replies: seq<Reply>)
      requires ServerInv(State()) && Legal(State(), c, Request.CondSignal(q, time)) && status[c] == Running
      modifies this
      ensures Outcome(State(), replies) == Handle(old(State()), c, Request.CondSignal(q, time)) && ServerInv(State())
      ensures forall k :: 0 <= k < |replies| && replies[k].answer.LockResponse? ==> replies[k].answer.time == time
    {
      HandleInv(State(), c, Request.CondSignal(q, time));
      CondStalled(State(), q);
      var woken := SignalCond(q);
      replies := [];
      if woken.Some? { replies := [Reply(woken.value, LockResponse(time))]; }
      replies := replies + [Reply(c, SignalResponse)];
    }

    /** A signalled waiter runs again unless it has to queue for its mutex. */
    method Wake(c: CoreId, m: nat) returns (granted: bool)
      requires m < |mutexes| && c < |status| && status[c] == Stalled
      modifies this`mutexes, this`status
      ensures mutexes == old(mutexes)[m := Lock(old(mutexes[m]), c).0] && granted == Lock(old(mutexes[m]), c).1
      ensures status == if granted then old(status)[c := Running] else old(status)
    {
      ResumeThread(c);
      granted := LockMutex(m, c);
    }

    method WakeAll(all: Cond) returns (woken: seq<CoreId>)
      requires |all.cores| == |all.muxes| && InRange(all.muxes, |mutexes|) && AllStalled(status, all.cores)
      modifies this`mutexes, this`status
      ensures (mutexes, woken) == GrantAll(old(mutexes), all)
      ensures InRange(woken, |old(status)|) && status == SetAll(old(status), woken, Running)
    {
      var i := 0;
      woken := [];
      GrantFromStart(mutexes, all);
      Different(status, all.cores);
      while i < |all.cores|
        invariant i <= |all.cores| && |mutexes| == |old(mutexes)| && |status| == |old(status)|
        invariant forall j :: i <= j < |all.cores| ==> status[all.cores[j]] == Stalled
        invariant InRange(woken, |old(status)|) && status == SetAll(old(status), woken, Running)
        invariant GrantedSoFar(old(mutexes), mutexes, all, i, woken)
      {
        var c := all.cores[i];
        GrantFromStep(old(mutexes), mutexes, all, i, woken);
        var granted := Wake(c, all.muxes[i]);
        if granted {
          SetAllAppend(old(status), woken, c, Running);
          woken := woken + [c];
        }
        i := i + 1;
      }
      GrantFromEnd(old(mutexes), mutexes, all, woken);
    }

    method CondBroadcast(c: CoreId, q: nat, time: nat) returns (replies: seq<Reply>)
      requires ServerInv(State()) && Legal(State(), c, Request.CondBroadcast(q, time)) && status[c] == Running
      modifies this
      ensures Outcome(State(), replies) == Handle(old(State()), c, Request.CondBroadcast(q, time)) && ServerInv(State())
      ensures forall k :: 0 <= k < |replies| && replies[k].answer.LockResponse? ==> replies[k].answer.time == time
    {
      HandleInv(State(), c, Request.CondBroadcast(q, time));
      CondStalled(State(), q);
      var woken := WakeAll(conds[q]);
      conds := conds[q := Cond([], [])];
      replies := Notify(woken, LockResponse(time));
      replies := replies + [Reply(c, BroadcastResponse)];
    }

    method BarrierInit(c: CoreId, count: nat) returns (replies: seq<Reply>)
      requires ServerInv(State()) && c < |status| && status[c] == Running
      modifies this`barriers
      ensures Outcome(State(), replies) == Handle(old(State()), c, Request.BarrierInit(count)) && ServerInv(State())
      ensures barriers == old(barriers) + [Barrier(count, [], 0)] && replies == [Reply(c, Created(|old(barriers)|))]
    {
      HandleInv(State(), c, Request.BarrierInit(count));
      barriers := barriers + [Barrier(count, [], 0)];
      replies := [Reply(c, Created(|barriers| - 1))];
    }

    method ResumeAll(cores: seq<CoreId>)
      requires AllStalled(status, cores)
      modifies this`status
      ensures |status| == |old(status)| && status == SetAll(old(status), cores, Running)
    {
      var i := 0;
      while i < |cores|
        invariant i <= |cores| && InRange(cores[..i], |old(status)|)
        invariant status == SetAll(old(status), cores[..i], Running)
      {
        OccursBefore(cores, i);
        SetAllAt(old(status), cores[..i], Running, cores[i]);
        ResumeThread(cores[i]);
        SetAllAppend(old(status), cores[..i], cores[i], Running);
        assert cores[..i + 1] == cores[..i] + [cores[i]];
        i := i + 1;
      }
      assert cores[..i] == cores;
    }

    method BarrierWait(c: CoreId, b: nat, time: nat) returns (replies: seq<Reply>)
      requires ServerInv(State()) && Legal(State(), c, Request.BarrierWait(b, time)) && status[c] == Running
      modifies this`barriers, this`status
      ensures Outcome(State(), replies) == Handle(old(State()), c, Request.BarrierWait(b, time)) && ServerInv(State())
    {
      HandleInv(State(), c, Request.BarrierWait(b, time));
      BarrierStalled(State(), b, c);
      var waiting := barriers[b].waiting + [c];
      barriers := barriers[b := barriers[b].(waiting := waiting)];
      StallThread(c);
      if |waiting| == 1 || time > barriers[b].maxTime {
        barriers := barriers[b := barriers[b].(maxTime := time)];
      }
      replies := [];
      if |waiting| == barriers[b].count {
        ResumeAll(waiting);
        StallThenResume(old(status), waiting, c);
        barriers := barriers[b := barriers[b].(waiting := [])];
        replies := Notify(waiting, BarrierResponse(barriers[b].maxTime));
      }
    }
  }

  lemma StallThenResume(status: seq<Status>, cores: seq<CoreId>, c: CoreId)
    requires InRange(cores, |status|) && c in cores
    ensures SetAll(status[c := Stalled], cores, Running) == SetAll(status, cores, Running)
  {
    OccursIn(cores, c);
    forall d | 0 <= d < |status|
      ensures SetAll(status[c := Stalled], cores, Running)[d] == SetAll(status, cores, Running)[d]
    {
      SetAllAt(status[c := Stalled], cores, Running, d);
      SetAllAt(status, cores, Running, d);
    }
  }
}
