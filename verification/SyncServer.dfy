/** Mutexes, condition variables and barriers kept by the master process, one message at a time.
    A request either is answered or leaves its core in exactly one queue. */
module SyncServer {
  import opened Basics

  type CoreId = nat

  datatype Status = Running | Stalled

  datatype Mutex = Mutex(owner: Option<CoreId>, waiting: seq<CoreId>)

  /** The waiters of a condition variable: who waits, and which mutex is stored beside them. */
  datatype Cond = Cond(cores: seq<CoreId>, muxes: seq<nat>)

  datatype Barrier = Barrier(count: nat, waiting: seq<CoreId>, maxTime: nat)

  datatype Server = Server(mutexes: seq<Mutex>, conds: seq<Cond>, barriers: seq<Barrier>, status: seq<Status>)

  datatype Request =
    | MutexInit | MutexLock(mux: nat, time: nat) | MutexUnlock(mux: nat, time: nat)
    | CondInit | CondWait(cond: nat, mux: nat, time: nat)
    | CondSignal(cond: nat, time: nat) | CondBroadcast(cond: nat, time: nat)
    | BarrierInit(count: nat) | BarrierWait(barrier: nat, time: nat)

  datatype Answer =
    | Created(id: nat)
    | LockResponse(time: nat)      // also the answer to a condition wait
    | UnlockResponse | SignalResponse | BroadcastResponse
    | BarrierResponse(time: nat)

  datatype Reply = Reply(to: CoreId, answer: Answer)

  datatype Outcome = Outcome(server: Server, replies: seq<Reply>)

  const FRESH_MUTEX: Mutex := Mutex(None, [])

  // ---------------------------------------------------------------------- the objects

  function Lock(m: Mutex, c: CoreId): (Mutex, bool) {
    if m.owner == None then (m.(owner := Some(c)), true) else (m.(waiting := m.waiting + [c]), false)
  }

  function Unlock(m: Mutex): Mutex {
    if m.waiting == [] then m.(owner := None) else Mutex(Some(m.waiting[0]), m.waiting[1..])
  }

  /** Erasing the first waiter of the vector: the core ids move down by one, but assigning the
      mutex references has no effect, so these stay where they are and the last one is dropped. */
  function EraseFirst(q: Cond): Cond
    requires |q.cores| == |q.muxes| > 0
  {
    Cond(q.cores[1..], q.muxes[..|q.muxes| - 1])
  }

  /** The loop of a broadcast: every waiter in turn tries to take its mutex. */
  function GrantAll(ms: seq<Mutex>, q: Cond): (r: (seq<Mutex>, seq<CoreId>))
    requires |q.cores| == |q.muxes| && InRange(q.muxes, |ms|)
    ensures |r.0| == |ms|
    decreases |q.cores|
  {
    if q.cores == [] then (ms, [])
    else
      var (m, granted) := Lock(ms[q.muxes[0]], q.cores[0]);
      var (ms', woken) := GrantAll(ms[q.muxes[0] := m], Cond(q.cores[1..], q.muxes[1..]));
      (ms', (if granted then [q.cores[0]] else []) + woken)
  }

  function SetAll(status: seq<Status>, cores: seq<CoreId>, v: Status): (r: seq<Status>)
    requires InRange(cores, |status|)
    ensures |r| == |status|
    decreases |cores|
  {
    if cores == [] then status else SetAll(status[cores[0] := v], cores[1..], v)
  }

  function Arrive(b: Barrier, c: CoreId, time: nat): Barrier {
    b.(waiting := b.waiting + [c], maxTime := if b.waiting == [] || time > b.maxTime then time else b.maxTime)
  }

  function RepliesTo(cores: seq<CoreId>, a: Answer): seq<Reply> {
    seq(|cores|, k requires 0 <= k < |cores| => Reply(cores[k], a))
  }

  // ---------------------------------------------------------------------- the handlers

  ghost predicate InRange(cores: seq<CoreId>, n: nat) {
    forall k :: 0 <= k < |cores| ==> cores[k] < n
  }

  /** Every reference kept by the server points to something that exists. */
  ghost predicate Shaped(sv: Server) {
    var n := |sv.status|;
    && (forall m :: 0 <= m < |sv.mutexes| ==>
          InRange(sv.mutexes[m].waiting, n) && (sv.mutexes[m].owner.Some? ==> sv.mutexes[m].owner.value < n))
    && (forall q :: 0 <= q < |sv.conds| ==>
          InRange(sv.conds[q].cores, n) && InRange(sv.conds[q].muxes, |sv.mutexes|) &&
          |sv.conds[q].cores| == |sv.conds[q].muxes|)
    && (forall b :: 0 <= b < |sv.barriers| ==> InRange(sv.barriers[b].waiting, n))
  }

  /** What the handlers assert about a request: the object exists, an unlock comes from the owner,
      a barrier is not over-subscribed. */
  ghost predicate Legal(sv: Server, c: CoreId, r: Request) {
    && c < |sv.status|
    && match r
       case MutexLock(m, _) => m < |sv.mutexes|
       case MutexUnlock(m, _) => m < |sv.mutexes| && sv.mutexes[m].owner == Some(c)
       case CondWait(q, m, _) => m < |sv.mutexes| && q < |sv.conds| && sv.mutexes[m].owner == Some(c)
       case CondSignal(q, _) => q < |sv.conds|
       case CondBroadcast(q, _) => q < |sv.conds|
       case BarrierWait(b, _) => b < |sv.barriers| && |sv.barriers[b].waiting| + 1 <= sv.barriers[b].count
       case _ => true
  }

  /** Pass the mutex on, and with it the lock response to whoever gets it. */
  ghost function HandOver(sv: Server, m: nat, time: nat): Outcome
    requires m < |sv.mutexes| && InRange(sv.mutexes[m].waiting, |sv.status|)
  {
    var mx := Unlock(sv.mutexes[m]);
    var sv' := sv.(mutexes := sv.mutexes[m := mx]);
    if mx.owner.Some? then
      Outcome(sv'.(status := sv.status[mx.owner.value := Running]), [Reply(mx.owner.value, LockResponse(time))])
    else Outcome(sv', [])
  }

  ghost function Handle(sv: Server, c: CoreId, r: Request): Outcome
    requires Shaped(sv) && Legal(sv, c, r)
  {
    match r
    case MutexInit => Outcome(sv.(mutexes := sv.mutexes + [FRESH_MUTEX]), [Reply(c, Created(|sv.mutexes|))])
    case CondInit => Outcome(sv.(conds := sv.conds + [Cond([], [])]), [Reply(c, Created(|sv.conds|))])
    case BarrierInit(n) =>
      Outcome(sv.(barriers := sv.barriers + [Barrier(n, [], 0)]), [Reply(c, Created(|sv.barriers|))])
    case MutexLock(m, time) =>
      var (mx, granted) := Lock(sv.mutexes[m], c);
      var sv' := sv.(mutexes := sv.mutexes[m := mx]);
      if granted then Outcome(sv', [Reply(c, LockResponse(time))])
      else Outcome(sv'.(status := sv.status[c := Stalled]), [])
    case MutexUnlock(m, time) =>
      var o := HandOver(sv, m, time);
      Outcome(o.server, o.replies + [Reply(c, UnlockResponse)])
    case CondWait(q, m, time) =>
      var cond := Cond(sv.conds[q].cores + [c], sv.conds[q].muxes + [m]);
      HandOver(sv.(conds := sv.conds[q := cond], status := sv.status[c := Stalled]), m, time)
    case CondSignal(q, time) =>
      var cond := sv.conds[q];
      if cond.cores == [] then Outcome(sv, [Reply(c, SignalResponse)])
      else
        var (mx, granted) := Lock(sv.mutexes[cond.muxes[0]], cond.cores[0]);
        var sv' := sv.(conds := sv.conds[q := EraseFirst(cond)], mutexes := sv.mutexes[cond.muxes[0] := mx]);
        if granted then
          Outcome(sv'.(status := sv.status[cond.cores[0] := Running]),
                  [Reply(cond.cores[0], LockResponse(time)), Reply(c, SignalResponse)])
        else Outcome(sv', [Reply(c, SignalResponse)])
    case CondBroadcast(q, time) =>
      var (ms, woken) := GrantAll(sv.mutexes, sv.conds[q]);
      WokenAreWaiters(sv.mutexes, sv.conds[q], |sv.status|);
      Outcome(sv.(conds := sv.conds[q := Cond([], [])], mutexes := ms, status := SetAll(sv.status, woken, Running)),
              RepliesTo(woken, LockResponse(time)) + [Reply(c, BroadcastResponse)])
    case BarrierWait(i, time) =>
      var b := Arrive(sv.barriers[i], c, time);
      if |b.waiting| == b.count then
        Outcome(sv.(barriers := sv.barriers[i := b.(waiting := [])], status := SetAll(sv.status, b.waiting, Running)),
                RepliesTo(b.waiting, BarrierResponse(b.maxTime)))
      else
        Outcome(sv.(barriers := sv.barriers[i := b], status := sv.status[c := Stalled]), [])
  }

  lemma {:induction false} WokenAreWaiters(ms: seq<Mutex>, q: Cond, n: nat)
    requires |q.cores| == |q.muxes| && InRange(q.muxes, |ms|) && InRange(q.cores, n)
    ensures InRange(GrantAll(ms, q).1, n)
    decreases |q.cores|
  {
    if q.cores == [] {
    } else {
      var (m, granted) := Lock(ms[q.muxes[0]], q.cores[0]);
      var rest := Cond(q.cores[1..], q.muxes[1..]);
      WokenAreWaiters(ms[q.muxes[0] := m], rest, n);
      var woken := GrantAll(ms[q.muxes[0] := m], rest).1;
      assert GrantAll(ms, q).1 == (if granted then [q.cores[0]] else []) + woken;
    }
  }

  // ----------------------------------------------------------------- who is in a queue

  /** How often a core occurs in a queue. */
  ghost function Occurs(s: seq<CoreId>, d: CoreId): nat {
    if s == [] then 0 else Occurs(s[..|s| - 1], d) + B(s[|s| - 1] == d)
  }

  lemma {:induction false} OccursAppend(s: seq<CoreId>, c: CoreId, d: CoreId)
    ensures Occurs(s + [c], d) == Occurs(s, d) + B(c == d)
  {
    assert (s + [c])[..|s|] == s;
  }

  lemma {:induction false} OccursFirst(s: seq<CoreId>, d: CoreId)
    requires s != []
    ensures Occurs(s, d) == B(s[0] == d) + Occurs(s[1..], d)
  {
    if |s| > 1 {
      OccursFirst(s[..|s| - 1], d);
      assert s[1..][..|s| - 2] == s[..|s| - 1][1..];
    } else {
      assert s[..0] == [] && s[1..] == [];
    }
  }

  ghost function MutexQueues(ms: seq<Mutex>, d: CoreId): nat {
    if ms == [] then 0 else MutexQueues(ms[..|ms| - 1], d) + Occurs(ms[|ms| - 1].waiting, d)
  }

  ghost function CondQueues(qs: seq<Cond>, d: CoreId): nat {
    if qs == [] then 0 else CondQueues(qs[..|qs| - 1], d) + Occurs(qs[|qs| - 1].cores, d)
  }

  ghost function BarrierQueues(bs: seq<Barrier>, d: CoreId): nat {
    if bs == [] then 0 else BarrierQueues(bs[..|bs| - 1], d) + Occurs(bs[|bs| - 1].waiting, d)
  }

  lemma {:induction false} MutexQueuesUpdate(ms: seq<Mutex>, i: nat, m: Mutex, d: CoreId)
    requires i < |ms|
    ensures MutexQueues(ms[i := m], d) + Occurs(ms[i].waiting, d) == MutexQueues(ms, d) + Occurs(m.waiting, d)
  {
    var n := |ms| - 1;
    if i == n {
      assert ms[i := m][..n] == ms[..n];
    } else {
      MutexQueuesUpdate(ms[..n], i, m, d);
      assert ms[i := m][..n] == ms[..n][i := m];
    }
  }

  lemma {:induction false} CondQueuesUpdate(qs: seq<Cond>, i: nat, q: Cond, d: CoreId)
    requires i < |qs|
    ensures CondQueues(qs[i := q], d) + Occurs(qs[i].cores, d) == CondQueues(qs, d) + Occurs(q.cores, d)
  {
    var n := |qs| - 1;
    if i == n {
      assert qs[i := q][..n] == qs[..n];
    } else {
      CondQueuesUpdate(qs[..n], i, q, d);
      assert qs[i := q][..n] == qs[..n][i := q];
    }
  }

  lemma {:induction false} BarrierQueuesUpdate(bs: seq<Barrier>, i: nat, b: Barrier, d: CoreId)
    requires i < |bs|
    ensures BarrierQueues(bs[i := b], d) + Occurs(bs[i].waiting, d) == BarrierQueues(bs, d) + Occurs(b.waiting, d)
  {
    var n := |bs| - 1;
    if i == n {
      assert bs[i := b][..n] == bs[..n];
    } else {
      BarrierQueuesUpdate(bs[..n], i, b, d);
      assert bs[i := b][..n] == bs[..n][i := b];
    }
  }

  lemma {:induction false} QueuesAppend(sv: Server, d: CoreId, n: nat)
    ensures MutexQueues(sv.mutexes + [FRESH_MUTEX], d) == MutexQueues(sv.mutexes, d)
    ensures CondQueues(sv.conds + [Cond([], [])], d) == CondQueues(sv.conds, d)
    ensures BarrierQueues(sv.barriers + [Barrier(n, [], 0)], d) == BarrierQueues(sv.barriers, d)
  {
    MutexQueuesAppend(sv.mutexes, FRESH_MUTEX, d);
    CondQueuesAppend(sv.conds, Cond([], []), d);
    BarrierQueuesAppend(sv.barriers, Barrier(n, [], 0), d);
  }

  lemma {:induction false} MutexQueuesAppend(ms: seq<Mutex>, m: Mutex, d: CoreId)
    ensures MutexQueues(ms + [m], d) == MutexQueues(ms, d) + Occurs(m.waiting, d)
  {
    assert (ms + [m])[..|ms|] == ms;
  }

  lemma {:induction false} CondQueuesAppend(qs: seq<Cond>, q: Cond, d: CoreId)
    ensures CondQueues(qs + [q], d) == CondQueues(qs, d) + Occurs(q.cores, d)
  {
    assert (qs + [q])[..|qs|] == qs;
  }

  lemma {:induction false} BarrierQueuesAppend(bs: seq<Barrier>, b: Barrier, d: CoreId)
    ensures BarrierQueues(bs + [b], d) == BarrierQueues(bs, d) + Occurs(b.waiting, d)
  {
    assert (bs + [b])[..|bs|] == bs;
  }

  /** How often a core occurs in any queue of the server. */
  ghost function Queued(sv: Server, d: CoreId): nat {
    MutexQueues(sv.mutexes, d) + CondQueues(sv.conds, d) + BarrierQueues(sv.barriers, d)
  }

  /** How many of these replies go to a core. */
  ghost function Answers(replies: seq<Reply>, d: CoreId): nat {
    if replies == [] then 0 else Answers(replies[..|replies| - 1], d) + B(replies[|replies| - 1].to == d)
  }

  lemma {:induction false} AnswersAppend(rs: seq<Reply>, r: Reply, d: CoreId)
    ensures Answers(rs + [r], d) == Answers(rs, d) + B(r.to == d)
  {
    assert (rs + [r])[..|rs|] == rs;
  }

  lemma {:induction false} AnswersOne(r: Reply, d: CoreId)
    ensures Answers([r], d) == B(r.to == d)
  {
    AnswersAppend([], r, d);
    assert [] + [r] == [r];
  }

  lemma {:induction false} AnswersToAll(cores: seq<CoreId>, a: Answer, d: CoreId)
    ensures Answers(RepliesTo(cores, a), d) == Occurs(cores, d)
  {
    if cores == [] {
    } else {
      var n := |cores| - 1;
      AnswersToAll(cores[..n], a, d);
      assert RepliesTo(cores, a)[..n] == RepliesTo(cores[..n], a);
    }
  }

  // ----------------------------------------------------------------------- conservation

  lemma {:induction false} GrantBalance(ms: seq<Mutex>, q: Cond, d: CoreId)
    requires |q.cores| == |q.muxes| && InRange(q.muxes, |ms|)
    ensures MutexQueues(GrantAll(ms, q).0, d) + Occurs(GrantAll(ms, q).1, d) == MutexQueues(ms, d) + Occurs(q.cores, d)
    decreases |q.cores|
  {
    if q.cores == [] {
    } else {
      var i, c := q.muxes[0], q.cores[0];
      var (m, granted) := Lock(ms[i], c);
      var rest := Cond(q.cores[1..], q.muxes[1..]);
      GrantBalance(ms[i := m], rest, d);
      MutexQueuesUpdate(ms, i, m, d);
      OccursFirst(q.cores, d);
      OccursAppend(ms[i].waiting, c, d);
      var woken := GrantAll(ms[i := m], rest).1;
      if granted {
        OccursFirst([c] + woken, d);
        assert ([c] + woken)[1..] == woken;
      } else {
        assert [] + woken == woken;
      }
    }
  }

  lemma {:induction false} HandOverBalance(sv: Server, m: nat, time: nat, d: CoreId)
    requires m < |sv.mutexes| && InRange(sv.mutexes[m].waiting, |sv.status|)
    ensures var o := HandOver(sv, m, time); Queued(o.server, d) + Answers(o.replies, d) == Queued(sv, d)
  {
    MutexQueuesUpdate(sv.mutexes, m, Unlock(sv.mutexes[m]), d);
    if sv.mutexes[m].waiting != [] {
      OccursFirst(sv.mutexes[m].waiting, d);
      AnswersOne(HandOver(sv, m, time).replies[0], d);
    }
  }

  ghost predicate Balanced(sv: Server, c: CoreId, o: Outcome, d: CoreId) {
    Queued(o.server, d) + Answers(o.replies, d) == Queued(sv, d) + B(c == d)
  }

  lemma CreateBalance(sv: Server, c: CoreId, r: Request, d: CoreId)
    requires Shaped(sv) && Legal(sv, c, r) && (r.MutexInit? || r.CondInit? || r.BarrierInit?)
    ensures Balanced(sv, c, Handle(sv, c, r), d)
  {
    QueuesAppend(sv, d, if r.BarrierInit? then r.count else 0);
    AnswersOne(Handle(sv, c, r).replies[0], d);
  }

  lemma MutexBalance(sv: Server, c: CoreId, r: Request, d: CoreId)
    requires Shaped(sv) && Legal(sv, c, r) && (r.MutexLock? || r.MutexUnlock?)
    ensures Balanced(sv, c, Handle(sv, c, r), d)
  {
    var o := Handle(sv, c, r);
    if r.MutexLock? {
      MutexQueuesUpdate(sv.mutexes, r.mux, Lock(sv.mutexes[r.mux], c).0, d);
      OccursAppend(sv.mutexes[r.mux].waiting, c, d);
      if o.replies != [] { AnswersOne(o.replies[0], d); }
    } else {
      HandOverBalance(sv, r.mux, r.time, d);
      AnswersAppend(HandOver(sv, r.mux, r.time).replies, Reply(c, UnlockResponse), d);
    }
  }

  lemma CondWaitBalance(sv: Server, c: CoreId, r: Request, d: CoreId)
    requires Shaped(sv) && Legal(sv, c, r) && r.CondWait?
    ensures Balanced(sv, c, Handle(sv, c, r), d)
  {
    var cond := Cond(sv.conds[r.cond].cores + [c], sv.conds[r.cond].muxes + [r.mux]);
    CondQueuesUpdate(sv.conds, r.cond, cond, d);
    OccursAppend(sv.conds[r.cond].cores, c, d);
    HandOverBalance(sv.(conds := sv.conds[r.cond := cond], status := sv.status[c := Stalled]), r.mux, r.time, d);
  }

  lemma SignalBalance(sv: Server, c: CoreId, r: Request, d: CoreId)
    requires Shaped(sv) && Legal(sv, c, r) && r.CondSignal?
    ensures Balanced(sv, c, Handle(sv, c, r), d)
  {
    var o, cond := Handle(sv, c, r), sv.conds[r.cond];
    if cond.cores == [] {
      AnswersOne(o.replies[0], d);
    } else {
      var m := cond.muxes[0];
      CondQueuesUpdate(sv.conds, r.cond, EraseFirst(cond), d);
      MutexQueuesUpdate(sv.mutexes, m, Lock(sv.mutexes[m], cond.cores[0]).0, d);
      OccursFirst(cond.cores, d);
      OccursAppend(sv.mutexes[m].waiting, cond.cores[0], d);
      AnswersOne(o.replies[0], d);
      if |o.replies| == 2 {
        AnswersAppend([o.replies[0]], o.replies[1], d);
        assert o.replies == [o.replies[0]] + [o.replies[1]];
      }
    }
  }

  lemma BroadcastBalance(sv: Server, c: CoreId, r: Request, d: CoreId)
    requires Shaped(sv) && Legal(sv, c, r) && r.CondBroadcast?
    ensures Balanced(sv, c, Handle(sv, c, r), d)
  {
    GrantBalance(sv.mutexes, sv.conds[r.cond], d);
    CondQueuesUpdate(sv.conds, r.cond, Cond([], []), d);
    var woken := GrantAll(sv.mutexes, sv.conds[r.cond]).1;
    AnswersToAll(woken, LockResponse(r.time), d);
    AnswersAppend(RepliesTo(woken, LockResponse(r.time)), Reply(c, BroadcastResponse), d);
  }

  lemma BarrierBalance(sv: Server, c: CoreId, r: Request, d: CoreId)
    requires Shaped(sv) && Legal(sv, c, r) && r.BarrierWait?
    ensures Balanced(sv, c, Handle(sv, c, r), d)
  {
    var o := Handle(sv, c, r);
    var b := Arrive(sv.barriers[r.barrier], c, r.time);
    OccursAppend(sv.barriers[r.barrier].waiting, c, d);
    BarrierQueuesUpdate(sv.barriers, r.barrier, o.server.barriers[r.barrier], d);
    AnswersToAll(b.waiting, BarrierResponse(b.maxTime), d);
  }

  /** Conservation: handling a request moves its core into one queue or answers it, and every other
      core that is answered leaves the queue it was in. */
  lemma Balance(sv: Server, c: CoreId, r: Request, d: CoreId)
    requires Shaped(sv) && Legal(sv, c, r)
    ensures Balanced(sv, c, Handle(sv, c, r), d)
  {
    match r
    case MutexLock(_, _) => MutexBalance(sv, c, r, d);
    case MutexUnlock(_, _) => MutexBalance(sv, c, r, d);
    case CondWait(_, _, _) => CondWaitBalance(sv, c, r, d);
    case CondSignal(_, _) => SignalBalance(sv, c, r, d);
    case CondBroadcast(_, _) => BroadcastBalance(sv, c, r, d);
    case BarrierWait(_, _) => BarrierBalance(sv, c, r, d);
    case _ => CreateBalance(sv, c, r, d);
  }

  // --------------------------------------------------------------- new objects and lock times

  /** One answer, to the core that asked: the id of an object that did not exist before and is there
      now, in its initial state; everything else is as it was. */
  lemma CreatedIsNew(sv: Server, c: CoreId, r: Request)
    requires Shaped(sv) && Legal(sv, c, r) && (r.MutexInit? || r.CondInit? || r.BarrierInit?)
    ensures var o := Handle(sv, c, r);
      && |o.replies| == 1 && o.replies[0].to == c && o.replies[0].answer.Created? && o.server.status == sv.status
      && var id, sv' := o.replies[0].answer.id, o.server;
         match r
         case MutexInit =>
           && id == |sv.mutexes| && |sv'.mutexes| == id + 1 && sv'.mutexes[..id] == sv.mutexes
           && sv'.mutexes[id].owner == None && sv'.mutexes[id].waiting == []
           && sv'.conds == sv.conds && sv'.barriers == sv.barriers
         case CondInit =>
           && id == |sv.conds| && |sv'.conds| == id + 1 && sv'.conds[..id] == sv.conds
           && sv'.conds[id].cores == [] && sv'.mutexes == sv.mutexes && sv'.barriers == sv.barriers
         case BarrierInit(n) =>
           && id == |sv.barriers| && |sv'.barriers| == id + 1 && sv'.barriers[..id] == sv.barriers
           && sv'.barriers[id].count == n && sv'.barriers[id].waiting == []
           && sv'.mutexes == sv.mutexes && sv'.conds == sv.conds
  {
  }

  /** Whoever is told that it has a mutex is told the time of the request that gave it the mutex. */
  lemma LockTimes(sv: Server, c: CoreId, r: Request, k: nat)
    requires Shaped(sv) && Legal(sv, c, r) && k < |Handle(sv, c, r).replies|
    requires Handle(sv, c, r).replies[k].answer.LockResponse?
    ensures r.MutexLock? || r.MutexUnlock? || r.CondWait? || r.CondSignal? || r.CondBroadcast?
    ensures Handle(sv, c, r).replies[k].answer.time == r.time
  {
  }

  // ----------------------------------------------------------------- the server's invariant

  /** A core is stalled exactly when it is in a queue, it is in one queue at most, nobody waits for
      a mutex without an owner, and no barrier keeps a complete generation. */
  ghost predicate ServerInv(sv: Server) {
    && Shaped(sv)
    && (forall d :: 0 <= d < |sv.status| ==> Queued(sv, d) == B(sv.status[d] == Stalled))
    && (forall m :: 0 <= m < |sv.mutexes| && sv.mutexes[m].owner == None ==> sv.mutexes[m].waiting == [])
    && (forall b :: 0 <= b < |sv.barriers| ==>
          sv.barriers[b].waiting == [] || |sv.barriers[b].waiting| < sv.barriers[b].count)
  }

  lemma {:induction false} OccursIn(s: seq<CoreId>, d: CoreId)
    ensures Occurs(s, d) > 0 <==> d in s
  {
    if s == [] {
    } else {
      OccursIn(s[..|s| - 1], d);
      assert s == s[..|s| - 1] + [s[|s| - 1]];
    }
  }

  lemma {:induction false} SetAllAt(status: seq<Status>, cores: seq<CoreId>, v: Status, d: CoreId)
    requires InRange(cores, |status|) && d < |status|
    ensures SetAll(status, cores, v)[d] == if Occurs(cores, d) > 0 then v else status[d]
    decreases |cores|
  {
    if cores == [] {
    } else {
      SetAllAt(status[cores[0] := v], cores[1..], v, d);
      OccursFirst(cores, d);
    }
  }

  lemma {:induction false} OccursConcat(s: seq<CoreId>, t: seq<CoreId>, d: CoreId)
    ensures Occurs(s + t, d) == Occurs(s, d) + Occurs(t, d)
  {
    if t == [] {
      assert s + t == s;
    } else {
      OccursConcat(s, t[..|t| - 1], d);
      assert (s + t)[..|s + t| - 1] == s + t[..|t| - 1];
    }
  }

  lemma {:induction false} SetAllAppend(status: seq<Status>, cores: seq<CoreId>, c: CoreId, v: Status)
    requires InRange(cores, |status|) && c < |status|
    ensures SetAll(status, cores + [c], v) == SetAll(status, cores, v)[c := v]
    decreases |cores|
  {
    if cores == [] {
      assert cores + [c] == [c];
    } else {
      SetAllAppend(status[cores[0] := v], cores[1..], c, v);
      assert (cores + [c])[1..] == cores[1..] + [c];
    }
  }

  /** The cores of a queue, each of them once and each of them stalled. */
  ghost predicate AllStalled(status: seq<Status>, cores: seq<CoreId>) {
    && InRange(cores, |status|)
    && forall i :: 0 <= i < |cores| ==> status[cores[i]] == Stalled && Occurs(cores, cores[i]) <= 1
  }

  lemma {:induction false} OccursBefore(s: seq<CoreId>, i: nat)
    requires i < |s| && Occurs(s, s[i]) <= 1
    ensures Occurs(s[..i], s[i]) == 0
  {
    if i < |s| - 1 {
      OccursBefore(s[..|s| - 1], i);
      assert s[..|s| - 1][..i] == s[..i];
    }
  }

  lemma Different(status: seq<Status>, cores: seq<CoreId>)
    requires AllStalled(status, cores)
    ensures forall i, j :: 0 <= i < j < |cores| ==> cores[i] != cores[j]
  {
    forall i, j | 0 <= i < j < |cores| ensures cores[i] != cores[j] {
      OccursBefore(cores, j);
      OccursIn(cores[..j], cores[j]);
      assert cores[i] in cores[..j];
    }
  }

  /** An answer makes a core run, a request without an answer stalls its core, nothing else changes. */
  ghost predicate StatusMoves(sv: Server, c: CoreId, o: Outcome, d: CoreId)
    requires d < |sv.status|
  {
    && |o.server.status| == |sv.status|
    && o.server.status[d] == if Answers(o.replies, d) > 0 then Running else if d == c then Stalled else sv.status[d]
  }

  lemma MutexStatus(sv: Server, c: CoreId, r: Request, d: CoreId)
    requires Shaped(sv) && Legal(sv, c, r) && (r.MutexLock? || r.MutexUnlock?)
    requires d < |sv.status| && sv.status[c] == Running
    ensures StatusMoves(sv, c, Handle(sv, c, r), d)
  {
    if r.MutexLock? {
      var o := Handle(sv, c, r);
      if o.replies != [] { AnswersOne(o.replies[0], d); }
    } else {
      var h := HandOver(sv, r.mux, r.time);
      AnswersAppend(h.replies, Reply(c, UnlockResponse), d);
      if h.replies != [] { AnswersOne(h.replies[0], d); }
    }
  }

  lemma SignalStatus(sv: Server, c: CoreId, r: Request, d: CoreId)
    requires Shaped(sv) && Legal(sv, c, r) && r.CondSignal? && d < |sv.status| && sv.status[c] == Running
    ensures StatusMoves(sv, c, Handle(sv, c, r), d)
  {
    var o := Handle(sv, c, r);
    AnswersOne(o.replies[0], d);
    if |o.replies| == 2 {
      AnswersAppend([o.replies[0]], o.replies[1], d);
      assert o.replies == [o.replies[0]] + [o.replies[1]];
    }
  }

  lemma BroadcastStatus(sv: Server, c: CoreId, r: Request, d: CoreId)
    requires Shaped(sv) && Legal(sv, c, r) && r.CondBroadcast? && d < |sv.status| && sv.status[c] == Running
    ensures StatusMoves(sv, c, Handle(sv, c, r), d)
  {
    var woken := GrantAll(sv.mutexes, sv.conds[r.cond]).1;
    WokenAreWaiters(sv.mutexes, sv.conds[r.cond], |sv.status|);
    SetAllAt(sv.status, woken, Running, d);
    AnswersToAll(woken, LockResponse(r.time), d);
    AnswersAppend(RepliesTo(woken, LockResponse(r.time)), Reply(c, BroadcastResponse), d);
  }

  lemma BarrierStatus(sv: Server, c: CoreId, r: Request, d: CoreId)
    requires Shaped(sv) && Legal(sv, c, r) && r.BarrierWait? && d < |sv.status|
    ensures StatusMoves(sv, c, Handle(sv, c, r), d)
  {
    var b := Arrive(sv.barriers[r.barrier], c, r.time);
    if |b.waiting| == b.count {
      AnswersToAll(b.waiting, BarrierResponse(b.maxTime), d);
      SetAllAt(sv.status, b.waiting, Running, d);
      OccursAppend(sv.barriers[r.barrier].waiting, c, d);
    }
  }

  lemma StatusOf(sv: Server, c: CoreId, r: Request, d: CoreId)
    requires Shaped(sv) && Legal(sv, c, r) && d < |sv.status| && sv.status[c] == Running
    ensures StatusMoves(sv, c, Handle(sv, c, r), d)
  {
    match r
    case MutexLock(_, _) => MutexStatus(sv, c, r, d);
    case MutexUnlock(_, _) => MutexStatus(sv, c, r, d);
    case CondSignal(_, _) => SignalStatus(sv, c, r, d);
    case CondBroadcast(_, _) => BroadcastStatus(sv, c, r, d);
    case BarrierWait(_, _) => BarrierStatus(sv, c, r, d);
    case _ =>
      var o := Handle(sv, c, r);
      if o.replies != [] { AnswersOne(o.replies[0], d); }
  }

  /** In a broadcast no mutex loses its owner, and none without owner collects waiters. */
  lemma {:induction false} GrantKeeps(ms: seq<Mutex>, q: Cond, n: nat, m: nat)
    requires |q.cores| == |q.muxes| && InRange(q.muxes, |ms|) && InRange(q.cores, n) && m < |ms|
    requires InRange(ms[m].waiting, n) && (ms[m].owner.Some? ==> ms[m].owner.value < n)
    ensures var m' := GrantAll(ms, q).0[m];
      && InRange(m'.waiting, n) && (m'.owner.Some? ==> m'.owner.value < n)
      && (ms[m].owner.Some? ==> m'.owner == ms[m].owner)
      && ((ms[m].owner == None ==> ms[m].waiting == []) ==> (m'.owner == None ==> m'.waiting == []))
    decreases |q.cores|
  {
    if q.cores == [] {
    } else {
      var (x, granted) := Lock(ms[q.muxes[0]], q.cores[0]);
      GrantKeeps(ms[q.muxes[0] := x], Cond(q.cores[1..], q.muxes[1..]), n, m);
    }
  }

  lemma MutexesShaped(sv: Server, c: CoreId, r: Request)
    requires Shaped(sv) && Legal(sv, c, r)
    ensures var sv' := Handle(sv, c, r).server;
      && |sv'.status| == |sv.status| && |sv'.mutexes| >= |sv.mutexes|
      && forall m :: 0 <= m < |sv'.mutexes| ==>
           && InRange(sv'.mutexes[m].waiting, |sv.status|)
           && (sv'.mutexes[m].owner.Some? ==> sv'.mutexes[m].owner.value < |sv.status|)
  {
    if r.CondBroadcast? {
      WokenAreWaiters(sv.mutexes, sv.conds[r.cond], |sv.status|);
      forall m | 0 <= m < |sv.mutexes| { GrantKeeps(sv.mutexes, sv.conds[r.cond], |sv.status|, m); }
    }
  }

  lemma HandleShaped(sv: Server, c: CoreId, r: Request)
    requires Shaped(sv) && Legal(sv, c, r)
    ensures Shaped(Handle(sv, c, r).server) && |Handle(sv, c, r).server.status| == |sv.status|
  {
    MutexesShaped(sv, c, r);
    QueuesShaped(sv, c, r);
  }

  lemma QueuesShaped(sv: Server, c: CoreId, r: Request)
    requires Shaped(sv) && Legal(sv, c, r)
    ensures var sv', n := Handle(sv, c, r).server, |sv.status|;
      && (forall b :: 0 <= b < |sv'.barriers| ==> InRange(sv'.barriers[b].waiting, n))
      && |sv'.mutexes| >= |sv.mutexes|
      && forall q :: 0 <= q < |sv'.conds| ==>
           && InRange(sv'.conds[q].cores, n) && InRange(sv'.conds[q].muxes, |sv.mutexes|)
           && |sv'.conds[q].cores| == |sv'.conds[q].muxes|
  {
  }

  /** Every legal request of a core that is not waiting keeps the invariant. */
  lemma HandleInv(sv: Server, c: CoreId, r: Request)
    requires ServerInv(sv) && Legal(sv, c, r) && sv.status[c] == Running
    ensures ServerInv(Handle(sv, c, r).server)
  {
    var sv' := Handle(sv, c, r).server;
    HandleShaped(sv, c, r);
    forall d | 0 <= d < |sv.status| ensures Queued(sv', d) == B(sv'.status[d] == Stalled) {
      Balance(sv, c, r, d);
      StatusOf(sv, c, r, d);
    }
    HandleQueues(sv, c, r);
  }

  lemma HandleQueues(sv: Server, c: CoreId, r: Request)
    requires ServerInv(sv) && Legal(sv, c, r)
    ensures var sv' := Handle(sv, c, r).server;
      && (forall m :: 0 <= m < |sv'.mutexes| && sv'.mutexes[m].owner == None ==> sv'.mutexes[m].waiting == [])
      && (forall b :: 0 <= b < |sv'.barriers| ==>
            sv'.barriers[b].waiting == [] || |sv'.barriers[b].waiting| < sv'.barriers[b].count)
  {
    if r.CondBroadcast? {
      forall m | 0 <= m < |sv.mutexes| { GrantKeeps(sv.mutexes, sv.conds[r.cond], |sv.status|, m); }
    }
  }

  // ------------------------------------------------------------------------ order of grants

  /** The waiters of a condition variable that are listed with one mutex, in arrival order. */
  function Naming(q: Cond, m: nat): seq<CoreId>
    requires |q.cores| == |q.muxes|
    decreases |q.cores|
  {
    if q.cores == [] then []
    else (if q.muxes[0] == m then [q.cores[0]] else []) + Naming(Cond(q.cores[1..], q.muxes[1..]), m)
  }

  /** Mutex after a batch of cores asked for it in this order: the first becomes the owner if there
      is none, everybody else is appended. */
  function Joined(m: Mutex, cores: seq<CoreId>): Mutex {
    if m.owner == None && cores != [] then Mutex(Some(cores[0]), m.waiting + cores[1..])
    else m.(waiting := m.waiting + cores)
  }

  lemma JoinedStep(m: Mutex, c: CoreId, rest: seq<CoreId>)
    ensures Joined(Lock(m, c).0, rest) == Joined(m, [c] + rest)
  {
    assert ([c] + rest)[1..] == rest;
    assert m.waiting + ([c] + rest) == m.waiting + [c] + rest;
  }

  /** Broadcast, one mutex at a time: at most one waiter is granted the mutex, and only when it was
      free; the others are appended to its queue in arrival order. */
  lemma {:induction false} BroadcastPerMutex(ms: seq<Mutex>, q: Cond, m: nat)
    requires |q.cores| == |q.muxes| && InRange(q.muxes, |ms|) && m < |ms|
    ensures GrantAll(ms, q).0[m] == Joined(ms[m], Naming(q, m))
    decreases |q.cores|
  {
    if q.cores == [] {
      assert ms[m].waiting + [] == ms[m].waiting;
    } else {
      var (x, granted) := Lock(ms[q.muxes[0]], q.cores[0]);
      var rest := Cond(q.cores[1..], q.muxes[1..]);
      BroadcastPerMutex(ms[q.muxes[0] := x], rest, m);
      if q.muxes[0] == m { JoinedStep(ms[m], q.cores[0], Naming(rest, m)); }
      else { assert [] + Naming(rest, m) == Naming(rest, m); }
    }
  }

  ghost predicate AllName(q: Cond, m: nat) { forall k :: 0 <= k < |q.muxes| ==> q.muxes[k] == m }

  lemma {:induction false} NamingAll(q: Cond, m: nat)
    requires |q.cores| == |q.muxes| && AllName(q, m)
    ensures Naming(q, m) == q.cores
    decreases |q.cores|
  {
    if q.cores == [] {
    } else {
      NamingAll(Cond(q.cores[1..], q.muxes[1..]), m);
    }
  }

  /** When all waiters name one mutex a broadcast wakes the first of them, or nobody. */
  lemma {:induction false} BroadcastWakes(ms: seq<Mutex>, q: Cond, m: nat)
    requires |q.cores| == |q.muxes| && m < |ms| && AllName(q, m)
    ensures GrantAll(ms, q).1 == if ms[m].owner == None && q.cores != [] then [q.cores[0]] else []
    decreases |q.cores|
  {
    if q.cores == [] {
    } else {
      var (x, granted) := Lock(ms[m], q.cores[0]);
      BroadcastWakes(ms[m := x], Cond(q.cores[1..], q.muxes[1..]), m);
    }
  }

  /** Who asks for a mutex in a step: a lock request, or a waiter that was signalled. */
  ghost function Asks(sv: Server, c: CoreId, r: Request, m: nat): seq<CoreId>
    requires Shaped(sv) && Legal(sv, c, r)
  {
    match r
    case MutexLock(x, _) => if x == m then [c] else []
    case CondSignal(q, _) =>
      if sv.conds[q].cores != [] && sv.conds[q].muxes[0] == m then [sv.conds[q].cores[0]] else []
    case CondBroadcast(q, _) => Naming(sv.conds[q], m)
    case _ => []
  }

  /** Who becomes the owner of a mutex in a step. */
  ghost function Grants(sv: Server, sv': Server, m: nat): seq<CoreId>
    requires m < |sv.mutexes| <= |sv'.mutexes|
  {
    var before, after := sv.mutexes[m].owner, sv'.mutexes[m].owner;
    if after.Some? && after != before then [after.value] else []
  }

  /** The requests that make their core give up a mutex. */
  predicate Releases(r: Request, m: nat) {
    (r.MutexUnlock? && r.mux == m) || (r.CondWait? && r.mux == m)
  }

  /** What a step does to one mutex: it is handed over, or some cores ask for it. */
  lemma MutexAfter(sv: Server, c: CoreId, r: Request, m: nat)
    requires Shaped(sv) && Legal(sv, c, r) && m < |sv.mutexes|
    ensures var sv' := Handle(sv, c, r).server;
      && |sv'.mutexes| >= |sv.mutexes|
      && sv'.mutexes[m] == if Releases(r, m) then Unlock(sv.mutexes[m]) else Joined(sv.mutexes[m], Asks(sv, c, r, m))
  {
    if r.CondBroadcast? {
      BroadcastPerMutex(sv.mutexes, sv.conds[r.cond], m);
    } else if Asks(sv, c, r, m) != [] {
      JoinedStep(sv.mutexes[m], Asks(sv, c, r, m)[0], []);
      assert Asks(sv, c, r, m) + [] == Asks(sv, c, r, m);
      JoinedNone(Lock(sv.mutexes[m], Asks(sv, c, r, m)[0]).0);
    } else {
      JoinedNone(sv.mutexes[m]);
    }
  }

  lemma JoinedNone(m: Mutex)
    ensures Joined(m, []) == m
  {
    assert m.waiting + [] == m.waiting;
  }

  lemma JoinedFifo(m: Mutex, asks: seq<CoreId>)
    requires m.owner == None ==> m.waiting == []
    ensures var m' := Joined(m, asks);
      m.waiting + asks == (if m'.owner.Some? && m'.owner != m.owner then [m'.owner.value] else []) + m'.waiting
  {
  }

  /** Hand-off is first in, first out: whoever asked and is not yet granted is in the queue, in the
      order of asking. */
  lemma FifoStep(sv: Server, c: CoreId, r: Request, m: nat)
    requires ServerInv(sv) && Legal(sv, c, r) && sv.status[c] == Running && m < |sv.mutexes|
    ensures var sv' := Handle(sv, c, r).server;
      && |sv'.mutexes| >= |sv.mutexes|
      && sv.mutexes[m].waiting + Asks(sv, c, r, m) == Grants(sv, sv', m) + sv'.mutexes[m].waiting
  {
    MutexAfter(sv, c, r, m);
    if Releases(r, m) {
      NotWaiting(sv, c, m);
    } else {
      JoinedFifo(sv.mutexes[m], Asks(sv, c, r, m));
    }
  }

  lemma {:induction false} InMutexQueue(ms: seq<Mutex>, m: nat, d: CoreId)
    requires m < |ms|
    ensures Occurs(ms[m].waiting, d) <= MutexQueues(ms, d)
  {
    if m < |ms| - 1 { InMutexQueue(ms[..|ms| - 1], m, d); }
  }

  lemma {:induction false} InCondQueue(qs: seq<Cond>, q: nat, d: CoreId)
    requires q < |qs|
    ensures Occurs(qs[q].cores, d) <= CondQueues(qs, d)
  {
    if q < |qs| - 1 { InCondQueue(qs[..|qs| - 1], q, d); }
  }

  lemma {:induction false} InBarrierQueue(bs: seq<Barrier>, b: nat, d: CoreId)
    requires b < |bs|
    ensures Occurs(bs[b].waiting, d) <= BarrierQueues(bs, d)
  {
    if b < |bs| - 1 { InBarrierQueue(bs[..|bs| - 1], b, d); }
  }

  lemma NotWaiting(sv: Server, c: CoreId, m: nat)
    requires ServerInv(sv) && c < |sv.status| && sv.status[c] == Running && m < |sv.mutexes|
    ensures c !in sv.mutexes[m].waiting
  {
    InMutexQueue(sv.mutexes, m, c);
    OccursIn(sv.mutexes[m].waiting, c);
  }

  // -------------------------------------------------------- signals and the stored mutexes

  /** The waiters left after a number of successive signals. */
  ghost function AfterSignals(q: Cond, j: nat): (r: Cond)
    requires |q.cores| == |q.muxes| && j <= |q.cores|
    ensures |r.cores| == |r.muxes| == |q.cores| - j
  {
    if j == 0 then q else EraseFirst(AfterSignals(q, j - 1))
  }

  lemma {:induction false} SignalsShift(q: Cond, j: nat)
    requires |q.cores| == |q.muxes| && j <= |q.cores|
    ensures AfterSignals(q, j) == Cond(q.cores[j..], q.muxes[..|q.muxes| - j])
  {
    if j == 0 {
    } else {
      SignalsShift(q, j - 1);
    }
  }

  /** The core woken by a signal asks for the mutex it waited with, at every one of the signals, if
      and only if all waiters named the same mutex. */
  lemma {:induction false} SignalsRelockRightMutex(q: Cond)
    requires |q.cores| == |q.muxes|
    ensures (forall j :: 0 <= j < |q.cores| ==> AfterSignals(q, j).muxes[0] == q.muxes[j])
       <==> (forall j :: 0 <= j < |q.cores| ==> q.muxes[j] == q.muxes[0])
  {
    forall j | 0 <= j < |q.cores|
      ensures AfterSignals(q, j).muxes[0] == q.muxes[0] && AfterSignals(q, j).cores[0] == q.cores[j]
    {
      SignalsShift(q, j);
    }
  }

  ghost predicate Handles(sv: Server, c: CoreId, r: Request, sv': Server) {
    Shaped(sv) && Legal(sv, c, r) && sv' == Handle(sv, c, r).server
  }

  lemma WaitStep(sv: Server, c: CoreId, q: nat, m: nat, t: nat) returns (sv': Server)
    requires Shaped(sv) && Legal(sv, c, CondWait(q, m, t)) && sv.mutexes[m].waiting == []
    ensures Handles(sv, c, CondWait(q, m, t), sv') && Shaped(sv') && |sv'.status| == |sv.status|
    ensures sv'.mutexes == sv.mutexes[m := FRESH_MUTEX]
    ensures sv'.conds == sv.conds[q := Cond(sv.conds[q].cores + [c], sv.conds[q].muxes + [m])]
  {
    HandleShaped(sv, c, CondWait(q, m, t));
    sv' := Handle(sv, c, CondWait(q, m, t)).server;
  }

  lemma SignalStep(sv: Server, e: CoreId, q: nat, t: nat) returns (sv': Server)
    requires Shaped(sv) && Legal(sv, e, CondSignal(q, t)) && sv.conds[q].cores != []
    ensures Handles(sv, e, CondSignal(q, t), sv') && Shaped(sv') && |sv'.status| == |sv.status|
    ensures sv'.conds == sv.conds[q := EraseFirst(sv.conds[q])]
    ensures var m := sv.conds[q].muxes[0]; sv'.mutexes == sv.mutexes[m := Lock(sv.mutexes[m], sv.conds[q].cores[0]).0]
  {
    HandleShaped(sv, e, CondSignal(q, t));
    sv' := Handle(sv, e, CondSignal(q, t)).server;
  }

  lemma TwoWaits(sv: Server, c: CoreId, m: nat, d: CoreId, m': nat, q: nat, t: nat) returns (s1: Server, s2: Server)
    requires Shaped(sv) && c < |sv.status| && d < |sv.status| && m < |sv.mutexes| && m' < |sv.mutexes|
    requires m != m' && sv.mutexes[m] == Mutex(Some(c), []) && sv.mutexes[m'] == Mutex(Some(d), [])
    requires q < |sv.conds| && sv.conds[q] == Cond([], [])
    ensures Handles(sv, c, CondWait(q, m, t), s1) && Handles(s1, d, CondWait(q, m', t), s2)
    ensures Shaped(s2) && |s2.status| == |sv.status| && s2.mutexes == sv.mutexes[m := FRESH_MUTEX][m' := FRESH_MUTEX]
    ensures s2.conds == sv.conds[q := Cond([c, d], [m, m'])]
  {
    s1 := WaitStep(sv, c, q, m, t);
    s2 := WaitStep(s1, d, q, m', t);
    assert s1.conds[q] == Cond([c], [m]);
    assert [c] + [d] == [c, d] && [m] + [m'] == [m, m'];
  }

  lemma TwoSignals(sv: Server, e: CoreId, q: nat, t: nat, c: CoreId, d: CoreId, m: nat, m': nat)
    returns (s1: Server, s2: Server)
    requires Shaped(sv) && Legal(sv, e, CondSignal(q, t)) && sv.conds[q] == Cond([c, d], [m, m'])
    requires m < |sv.mutexes| && sv.mutexes[m] == FRESH_MUTEX
    ensures Handles(sv, e, CondSignal(q, t), s1) && Handles(s1, e, CondSignal(q, t), s2)
    ensures s2.mutexes == sv.mutexes[m := Mutex(Some(c), [d])] && s2.conds == sv.conds[q := Cond([], [])]
  {
    s1 := SignalStep(sv, e, q, t);
    assert s1.conds[q] == Cond([d], [m]);
    s2 := SignalStep(s1, e, q, t);
    assert s2.conds[q] == Cond([], []);
    assert [] + [d] == [d];
  }

  /** Cores c and d wait with different mutexes. After two signals d waits for the mutex of c, while
      the one it named is free. */
  lemma WrongMutexAfterSignal(sv: Server, c: CoreId, m: nat, d: CoreId, m': nat, e: CoreId, q: nat, t: nat)
    returns (s1: Server, s2: Server, s3: Server, s4: Server)
    requires Shaped(sv) && c < |sv.status| && d < |sv.status|
    requires e < |sv.status| && m < |sv.mutexes| && m' < |sv.mutexes|
    requires m != m' && sv.mutexes[m] == Mutex(Some(c), []) && sv.mutexes[m'] == Mutex(Some(d), [])
    requires q < |sv.conds| && sv.conds[q] == Cond([], [])
    ensures Handles(sv, c, CondWait(q, m, t), s1) && Handles(s1, d, CondWait(q, m', t), s2)
    ensures Handles(s2, e, CondSignal(q, t), s3) && Handles(s3, e, CondSignal(q, t), s4)
    ensures s4.mutexes == sv.mutexes[m' := FRESH_MUTEX][m := Mutex(Some(c), [d])] && s4.conds == sv.conds
  {
    s1, s2 := TwoWaits(sv, c, m, d, m', q, t);
    Updates(sv.mutexes, m, m', FRESH_MUTEX, Mutex(Some(c), [d]));
    Updates(sv.conds, q, q, Cond([c, d], [m, m']), Cond([], []));
    s3, s4 := TwoSignals(s2, e, q, t, c, d, m, m');
  }

  lemma Updates<T>(s: seq<T>, i: nat, j: nat, x: T, y: T)
    requires i < |s| && j < |s|
    ensures s[i := x][j := x][i := y] == s[j := x][i := y] && s[i := x][i := y] == s[i := y]
    ensures i != j ==> s[i := x][j := x][i] == x
    ensures s[i] == y ==> s[i := x][i := y] == s
  {
  }
}
