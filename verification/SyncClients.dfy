/** The synchronisation server together with its blocking clients and the messages between them,
    one thread per core. Messages of different cores may overtake each other. */
module SyncClients {
  import opened Basics
  import opened SyncServer

  datatype Message = Message(from: CoreId, request: Request)

  /** What each client is blocked on, the messages in flight, and the mutexes each client has been
      told it holds and has not asked to give up. */
  datatype System = System(server: Server, clients: seq<Option<Request>>, sent: seq<Message>, replies: seq<Reply>,
                           holds: seq<set<nat>>)

  datatype Step = Call(core: CoreId, request: Request) | Serve(message: nat) | Return(reply: nat)

  function Initial(n: nat): System {
    System(Server([], [], [], seq(n, _ => Running)), seq(n, _ => None), [], [], seq(n, _ => {}))
  }

  function LockMux(r: Request): Option<nat> {
    match r
    case MutexLock(m, _) => Some(m)
    case CondWait(_, m, _) => Some(m)
    case _ => None
  }

  function Without<T>(s: seq<T>, k: nat): seq<T>
    requires k < |s|
  {
    s[..k] + s[k + 1..]
  }

  /** The waiters of a condition variable concurrently name one mutex, as pthread_cond_wait of
      POSIX.1-2017 requires. */
  ghost predicate SameMutex(sv: Server, r: Request)
    requires r.CondWait? ==> r.cond < |sv.conds|
  {
    r.CondWait? ==> AllName(sv.conds[r.cond], r.mux)
  }

  ghost predicate Enabled(s: System, a: Step) {
    match a
    case Call(c, r) => c < |s.clients| == |s.holds| && s.clients[c] == None
    case Serve(k) => k < |s.sent| && Shaped(s.server) && Legal(s.server, s.sent[k].from, s.sent[k].request) &&
                     SameMutex(s.server, s.sent[k].request)
    case Return(k) => k < |s.replies| && s.replies[k].to < |s.clients| == |s.holds| &&
                      s.clients[s.replies[k].to].Some?
  }

  ghost function Next(s: System, a: Step): System
    requires Enabled(s, a)
  {
    match a
    case Call(c, r) =>
      s.(clients := s.clients[c := Some(r)], sent := s.sent + [Message(c, r)],
         holds := s.holds[c := set m | m in s.holds[c] && !Releases(r, m)])
    case Serve(k) =>
      var o := Handle(s.server, s.sent[k].from, s.sent[k].request);
      s.(server := o.server, sent := Without(s.sent, k), replies := s.replies + o.replies)
    case Return(k) =>
      var c, r := s.replies[k].to, s.clients[s.replies[k].to].value;
      s.(clients := s.clients[c := None], replies := Without(s.replies, k),
         holds := if s.replies[k].answer.LockResponse? && LockMux(r).Some?
                  then s.holds[c := s.holds[c] + {LockMux(r).value}] else s.holds)
  }

  // ---------------------------------------------------------------------- what a queue means

  /** The core is blocked in a call that must obtain this mutex. */
  ghost predicate WantsMutex(want: seq<Option<Request>>, c: CoreId, m: nat) {
    c < |want| && want[c].Some? && LockMux(want[c].value) == Some(m)
  }

  ghost predicate WaitsOn(want: seq<Option<Request>>, c: CoreId, q: nat, m: nat) {
    c < |want| && want[c].Some? && want[c].value.CondWait? && want[c].value.cond == q && want[c].value.mux == m
  }

  ghost predicate AtBarrier(want: seq<Option<Request>>, c: CoreId, b: nat) {
    c < |want| && want[c].Some? && want[c].value.BarrierWait? && want[c].value.barrier == b
  }

  ghost predicate MutexWants(sv: Server, want: seq<Option<Request>>) {
    forall m, k :: 0 <= m < |sv.mutexes| && 0 <= k < |sv.mutexes[m].waiting| ==>
      WantsMutex(want, sv.mutexes[m].waiting[k], m)
  }

  /** Beside every waiter stands the mutex it waits with. */
  ghost predicate StoredRight(q: Cond, i: nat, want: seq<Option<Request>>) {
    |q.cores| == |q.muxes| && forall k :: 0 <= k < |q.cores| ==> WaitsOn(want, q.cores[k], i, q.muxes[k])
  }

  ghost predicate OneMutex(q: Cond) {
    forall k :: 0 <= k < |q.muxes| ==> q.muxes[k] == q.muxes[0]
  }

  ghost predicate CondWants(sv: Server, want: seq<Option<Request>>) {
    forall q :: 0 <= q < |sv.conds| ==> StoredRight(sv.conds[q], q, want) && OneMutex(sv.conds[q])
  }

  /** The stored time is the largest arrival time of the cores waiting now. */
  ghost predicate IsMaxTime(time: nat, cores: seq<CoreId>, b: nat, want: seq<Option<Request>>) {
    && (forall k :: 0 <= k < |cores| ==> AtBarrier(want, cores[k], b) && want[cores[k]].value.time <= time)
    && (cores != [] ==> exists k :: 0 <= k < |cores| && want[cores[k]].value.time == time)
  }

  ghost predicate BarrierWants(sv: Server, want: seq<Option<Request>>) {
    forall b :: 0 <= b < |sv.barriers| ==> IsMaxTime(sv.barriers[b].maxTime, sv.barriers[b].waiting, b, want)
  }

  /** The answer is the one its client is blocked for; a lock response finds its receiver the owner. */
  ghost predicate ReplyOk(sv: Server, want: seq<Option<Request>>, reply: Reply) {
    && reply.to < |want| && want[reply.to].Some?
    && var r := want[reply.to].value;
       match reply.answer
       case LockResponse(_) => LockMux(r).Some? && Owns(sv, reply.to, LockMux(r).value)
       case UnlockResponse => r.MutexUnlock?
       case SignalResponse => r.CondSignal?
       case BroadcastResponse => r.CondBroadcast?
       case BarrierResponse(time) => r.BarrierWait? && r.time <= time
       case Created(_) => r.MutexInit? || r.CondInit? || r.BarrierInit?
  }

  ghost predicate Owns(sv: Server, c: CoreId, m: nat) {
    m < |sv.mutexes| && sv.mutexes[m].owner == Some(c)
  }

  // ---------------------------------------------------------------------- handlers and clients

  lemma OwnerKept(sv: Server, c: CoreId, r: Request, x: CoreId, m: nat)
    requires Shaped(sv) && Legal(sv, c, r) && Owns(sv, x, m) && !(c == x && Releases(r, m))
    ensures Owns(Handle(sv, c, r).server, x, m)
  {
    MutexAfter(sv, c, r, m);
  }

  lemma AsksWant(sv: Server, want: seq<Option<Request>>, c: CoreId, r: Request, m: nat)
    requires Shaped(sv) && Legal(sv, c, r) && CondWants(sv, want) && c < |want| && want[c] == Some(r)
    ensures forall k :: 0 <= k < |Asks(sv, c, r, m)| ==> WantsMutex(want, Asks(sv, c, r, m)[k], m)
  {
    if r.CondBroadcast? {
      var q := sv.conds[r.cond];
      if q.cores != [] {
        if q.muxes[0] == m { NamingAll(q, m); } else { NamingNone(q, m); }
      }
    }
  }

  lemma {:induction false} NamingNone(q: Cond, m: nat)
    requires |q.cores| == |q.muxes| && forall k :: 0 <= k < |q.muxes| ==> q.muxes[k] != m
    ensures Naming(q, m) == []
    decreases |q.cores|
  {
    if q.cores == [] {
    } else {
      NamingNone(Cond(q.cores[1..], q.muxes[1..]), m);
    }
  }

  lemma KeepsMutexWants(sv: Server, want: seq<Option<Request>>, c: CoreId, r: Request)
    requires Shaped(sv) && Legal(sv, c, r) && MutexWants(sv, want)
    requires CondWants(sv, want) && c < |want| && want[c] == Some(r)
    ensures MutexWants(Handle(sv, c, r).server, want)
  {
    var sv' := Handle(sv, c, r).server;
    forall m, k | 0 <= m < |sv'.mutexes| && 0 <= k < |sv'.mutexes[m].waiting|
      ensures WantsMutex(want, sv'.mutexes[m].waiting[k], m)
    {
      if m < |sv.mutexes| {
        MutexAfter(sv, c, r, m);
        AsksWant(sv, want, c, r, m);
        JoinedMembers(sv.mutexes[m], Asks(sv, c, r, m));
      }
    }
  }

  lemma JoinedMembers(m: Mutex, asks: seq<CoreId>)
    ensures forall k :: 0 <= k < |Joined(m, asks).waiting| ==>
      Joined(m, asks).waiting[k] in m.waiting || Joined(m, asks).waiting[k] in asks
  {
  }

  lemma KeepsCondWants(sv: Server, want: seq<Option<Request>>, c: CoreId, r: Request)
    requires Shaped(sv) && Legal(sv, c, r) && CondWants(sv, want)
    requires c < |want| && want[c] == Some(r) && SameMutex(sv, r)
    ensures CondWants(Handle(sv, c, r).server, want)
  {
    var sv' := Handle(sv, c, r).server;
    forall q | 0 <= q < |sv'.conds| ensures StoredRight(sv'.conds[q], q, want) && OneMutex(sv'.conds[q]) {
      if q < |sv.conds| { assert StoredRight(sv.conds[q], q, want) && OneMutex(sv.conds[q]); }
    }
  }

  /** A signal leaves the right mutex beside every remaining waiter if and only if all waiters named
      one mutex: the condition in `SameMutex` cannot be dropped. */
  lemma SignalKeepsStored(sv: Server, want: seq<Option<Request>>, c: CoreId, r: Request)
    requires Shaped(sv) && Legal(sv, c, r) && r.CondSignal? && StoredRight(sv.conds[r.cond], r.cond, want)
    ensures var q, sv' := sv.conds[r.cond], Handle(sv, c, r).server;
      && |sv'.conds| == |sv.conds|
      && (StoredRight(sv'.conds[r.cond], r.cond, want) <==> OneMutex(q))
  {
    var q := sv.conds[r.cond];
    if q.cores != [] && StoredRight(EraseFirst(q), r.cond, want) { AllAlike(q, r.cond, want, |q.cores|); }
  }

  lemma {:induction false} AllAlike(q: Cond, i: nat, want: seq<Option<Request>>, n: nat)
    requires q.cores != [] && StoredRight(q, i, want) && StoredRight(EraseFirst(q), i, want) && n <= |q.cores|
    ensures forall k :: 0 <= k < n ==> q.muxes[k] == q.muxes[0]
  {
    if n <= 1 {
    } else {
      AllAlike(q, i, want, n - 1);
      assert EraseFirst(q).cores[n - 2] == q.cores[n - 1] && EraseFirst(q).muxes[n - 2] == q.muxes[n - 2];
    }
  }

  lemma KeepsBarrierWants(sv: Server, want: seq<Option<Request>>, c: CoreId, r: Request)
    requires Shaped(sv) && Legal(sv, c, r) && BarrierWants(sv, want) && c < |want| && want[c] == Some(r)
    ensures BarrierWants(Handle(sv, c, r).server, want)
  {
    if r.BarrierWait? { ArriveMax(sv.barriers[r.barrier], want, c, r.barrier); }
  }

  lemma ArriveMax(b: Barrier, want: seq<Option<Request>>, c: CoreId, i: nat)
    requires IsMaxTime(b.maxTime, b.waiting, i, want) && AtBarrier(want, c, i)
    ensures var b' := Arrive(b, c, want[c].value.time); IsMaxTime(b'.maxTime, b'.waiting, i, want)
  {
    var time := want[c].value.time;
    var b' := Arrive(b, c, time);
    assert b'.waiting[|b.waiting|] == c;
    if b'.maxTime != time {
      var k :| 0 <= k < |b.waiting| && want[b.waiting[k]].value.time == b.maxTime;
      assert b'.waiting[k] == b.waiting[k];
    }
  }

  /** Either the barrier keeps this core waiting and answers nobody, or the core completes a
      generation: as many cores as the count, each of them waiting in this barrier, are all answered
      with the largest of their arrival times. */
  ghost predicate ReleasedOrWaiting(sv: Server, want: seq<Option<Request>>, c: CoreId, b: nat, o: Outcome) {
    && b < |sv.barriers| == |o.server.barriers| && c < |o.server.status|
    && var cores := sv.barriers[b].waiting + [c];
       if |cores| == sv.barriers[b].count then
         && o.server.barriers[b].waiting == [] && o.server.status[c] == Running
         && exists time :: IsMaxTime(time, cores, b, want) && o.replies == RepliesTo(cores, BarrierResponse(time))
       else
         && o.server.barriers[b].waiting == cores && o.server.status[c] == Stalled && o.replies == []
  }

  lemma BarrierGeneration(sv: Server, want: seq<Option<Request>>, c: CoreId, r: Request)
    requires Shaped(sv) && Legal(sv, c, r) && BarrierWants(sv, want)
    requires c < |want| && want[c] == Some(r) && r.BarrierWait?
    ensures ReleasedOrWaiting(sv, want, c, r.barrier, Handle(sv, c, r))
  {
    ArriveMax(sv.barriers[r.barrier], want, c, r.barrier);
    var cores := sv.barriers[r.barrier].waiting + [c];
    SetAllAt(sv.status, cores, Running, c);
    assert cores[|cores| - 1] == c;
  }

  /** Whoever a broadcast wakes owns the mutex it waits with. */
  lemma {:induction false} WokenOwn(sv: Server, q: Cond, i: nat, want: seq<Option<Request>>, ms: seq<Mutex>, x: CoreId)
    requires StoredRight(q, i, want) && OneMutex(q) && InRange(q.muxes, |sv.mutexes|)
    requires ms == GrantAll(sv.mutexes, q).0 && x in GrantAll(sv.mutexes, q).1
    ensures x < |want| && want[x].Some? && want[x].value.CondWait?
    ensures want[x].value.mux < |ms| && ms[want[x].value.mux].owner == Some(x)
  {
    if q.cores != [] {
      var m := q.muxes[0];
      BroadcastWakes(sv.mutexes, q, m);
      BroadcastPerMutex(sv.mutexes, q, m);
      NamingAll(q, m);
      assert WaitsOn(want, q.cores[0], i, m);
    }
  }

  lemma BroadcastReplies(sv: Server, want: seq<Option<Request>>, c: CoreId, r: Request)
    requires Shaped(sv) && Legal(sv, c, r) && CondWants(sv, want)
    requires c < |want| && want[c] == Some(r) && r.CondBroadcast?
    ensures var o := Handle(sv, c, r); forall k :: 0 <= k < |o.replies| ==> ReplyOk(o.server, want, o.replies[k])
  {
    var q, o := sv.conds[r.cond], Handle(sv, c, r);
    var (ms, woken) := GrantAll(sv.mutexes, q);
    forall k | 0 <= k < |o.replies| ensures ReplyOk(o.server, want, o.replies[k]) {
      if k < |woken| {
        assert o.replies[k].to == woken[k];
        WokenOwn(sv, q, r.cond, want, ms, woken[k]);
      }
    }
  }

  lemma MutexReplies(sv: Server, want: seq<Option<Request>>, c: CoreId, r: Request)
    requires Shaped(sv) && Legal(sv, c, r) && MutexWants(sv, want) && c < |want| && want[c] == Some(r)
    requires r.MutexLock? || r.MutexUnlock? || r.CondWait?
    ensures var o := Handle(sv, c, r); forall k :: 0 <= k < |o.replies| ==> ReplyOk(o.server, want, o.replies[k])
  {
    if r.CondWait? || r.MutexUnlock? {
      var m := sv.mutexes[r.mux];
      if m.waiting != [] { assert WantsMutex(want, m.waiting[0], r.mux); }
    }
  }

  /** Every answer a handler sends is the one its receiver is blocked for. */
  lemma NewReplies(sv: Server, want: seq<Option<Request>>, c: CoreId, r: Request)
    requires Shaped(sv) && Legal(sv, c, r) && c < |want| && want[c] == Some(r)
    requires MutexWants(sv, want) && CondWants(sv, want) && BarrierWants(sv, want)
    ensures var o := Handle(sv, c, r); forall k :: 0 <= k < |o.replies| ==> ReplyOk(o.server, want, o.replies[k])
  {
    match r
    case MutexLock(_, _) => MutexReplies(sv, want, c, r);
    case MutexUnlock(_, _) => MutexReplies(sv, want, c, r);
    case CondWait(_, _, _) => MutexReplies(sv, want, c, r);
    case CondBroadcast(_, _) => BroadcastReplies(sv, want, c, r);
    case BarrierWait(_, _) => BarrierGeneration(sv, want, c, r);
    case _ =>
  }

  // ------------------------------------------------------------------------ counting messages

  function Senders(sent: seq<Message>): seq<CoreId> {
    seq(|sent|, k requires 0 <= k < |sent| => sent[k].from)
  }

  function Receivers(replies: seq<Reply>): seq<CoreId> {
    seq(|replies|, k requires 0 <= k < |replies| => replies[k].to)
  }

  lemma {:induction false} AnswersCount(replies: seq<Reply>, d: CoreId)
    ensures Answers(replies, d) == Occurs(Receivers(replies), d)
  {
    if replies == [] {
    } else {
      AnswersCount(replies[..|replies| - 1], d);
      assert Receivers(replies)[..|replies| - 1] == Receivers(replies[..|replies| - 1]);
    }
  }

  lemma {:induction false} OccursWithout(s: seq<CoreId>, k: nat, d: CoreId)
    requires k < |s|
    ensures Occurs(Without(s, k), d) + B(s[k] == d) == Occurs(s, d)
  {
    assert s == s[..k] + s[k..];
    OccursConcat(s[..k], s[k..], d);
    OccursConcat(s[..k], s[k + 1..], d);
    OccursFirst(s[k..], d);
    assert s[k..][1..] == s[k + 1..];
  }

  lemma {:induction false} SentWithout(sent: seq<Message>, k: nat, d: CoreId)
    requires k < |sent|
    ensures Occurs(Senders(Without(sent, k)), d) + B(sent[k].from == d) == Occurs(Senders(sent), d)
  {
    assert Senders(Without(sent, k)) == Without(Senders(sent), k);
    OccursWithout(Senders(sent), k, d);
  }

  lemma {:induction false} RepliesWithout(replies: seq<Reply>, k: nat, d: CoreId)
    requires k < |replies|
    ensures Occurs(Receivers(Without(replies, k)), d) + B(replies[k].to == d) == Occurs(Receivers(replies), d)
  {
    assert Receivers(Without(replies, k)) == Without(Receivers(replies), k);
    OccursWithout(Receivers(replies), k, d);
  }

  lemma {:induction false} RepliesConcat(before: seq<Reply>, more: seq<Reply>, d: CoreId)
    ensures Occurs(Receivers(before + more), d) == Occurs(Receivers(before), d) + Answers(more, d)
  {
    assert Receivers(before + more) == Receivers(before) + Receivers(more);
    OccursConcat(Receivers(before), Receivers(more), d);
    AnswersCount(more, d);
  }

  // ------------------------------------------------------------------------- the invariant

  /** A blocked core has one message in flight, or is in one queue, or has one reply pending; a core
      that is not blocked has none of these. */
  ghost predicate Accounted(s: System, d: CoreId)
    requires d < |s.clients|
  {
    Occurs(Senders(s.sent), d) + Queued(s.server, d) + Occurs(Receivers(s.replies), d) == B(s.clients[d].Some?)
  }

  ghost predicate HoldsOwned(s: System) {
    forall c, m :: 0 <= c < |s.holds| && c < |s.clients| && m in s.holds[c] ==>
      Owns(s.server, c, m) && !(s.clients[c].Some? && Releases(s.clients[c].value, m))
  }

  ghost predicate Inv(s: System) {
    && |s.clients| == |s.holds| == |s.server.status|
    && ServerInv(s.server)
    && (forall d :: 0 <= d < |s.clients| ==> Accounted(s, d))
    && (forall k :: 0 <= k < |s.sent| ==>
          s.sent[k].from < |s.clients| && s.clients[s.sent[k].from] == Some(s.sent[k].request))
    && MutexWants(s.server, s.clients) && CondWants(s.server, s.clients) && BarrierWants(s.server, s.clients)
    && (forall k :: 0 <= k < |s.replies| ==> ReplyOk(s.server, s.clients, s.replies[k]))
    && HoldsOwned(s)
  }

  lemma InitialInv(n: nat)
    ensures Inv(Initial(n))
  {
  }

  lemma CallInv(s: System, a: Step)
    requires Inv(s) && a.Call? && Enabled(s, a)
    ensures Inv(Next(s, a))
  {
    var s' := Next(s, a);
    assert Senders(s'.sent) == Senders(s.sent) + [a.core];
    forall d | 0 <= d < |s.clients| ensures Accounted(s', d) {
      assert Accounted(s, d);
      OccursAppend(Senders(s.sent), a.core, d);
    }
    assert BarrierWants(s.server, s'.clients) by {
      forall b | 0 <= b < |s.server.barriers|
        ensures IsMaxTime(s.server.barriers[b].maxTime, s.server.barriers[b].waiting, b, s'.clients)
      {
        assert IsMaxTime(s.server.barriers[b].maxTime, s.server.barriers[b].waiting, b, s.clients);
      }
    }
  }

  lemma {:induction false} HasSent(s: System, c: CoreId, k: nat)
    requires k < |s.sent| && s.sent[k].from == c
    ensures Occurs(Senders(s.sent), c) > 0
  {
    OccursIn(Senders(s.sent), c);
    assert Senders(s.sent)[k] == c;
  }

  lemma {:induction false} HasReply(s: System, c: CoreId, k: nat)
    requires k < |s.replies| && s.replies[k].to == c
    ensures Occurs(Receivers(s.replies), c) > 0
  {
    OccursIn(Receivers(s.replies), c);
    assert Receivers(s.replies)[k] == c;
  }

  lemma ServeAccounts(s: System, a: Step, d: CoreId)
    requires Inv(s) && a.Serve? && Enabled(s, a) && d < |s.clients|
    ensures Accounted(Next(s, a), d)
  {
    var s', c, r := Next(s, a), s.sent[a.message].from, s.sent[a.message].request;
    Balance(s.server, c, r, d);
    RepliesConcat(s.replies, Handle(s.server, c, r).replies, d);
    SentWithout(s.sent, a.message, d);
    assert Accounted(s, d);
  }

  lemma ServeReplies(s: System, a: Step)
    requires Inv(s) && a.Serve? && Enabled(s, a)
    ensures var s' := Next(s, a); forall k :: 0 <= k < |s'.replies| ==> ReplyOk(s'.server, s'.clients, s'.replies[k])
  {
    var s', c, r := Next(s, a), s.sent[a.message].from, s.sent[a.message].request;
    NewReplies(s.server, s.clients, c, r);
    forall k | 0 <= k < |s.replies| ensures ReplyOk(s'.server, s.clients, s.replies[k]) {
      assert ReplyOk(s.server, s.clients, s.replies[k]);
      if s.replies[k].answer.LockResponse? {
        var x := s.replies[k].to;
        HasSent(s, c, a.message);
        HasReply(s, x, k);
        assert Accounted(s, c);
        OwnerKept(s.server, c, r, x, LockMux(s.clients[x].value).value);
      }
    }
  }

  lemma ServeHolds(s: System, a: Step)
    requires Inv(s) && a.Serve? && Enabled(s, a)
    ensures HoldsOwned(Next(s, a))
  {
    var s', c, r := Next(s, a), s.sent[a.message].from, s.sent[a.message].request;
    forall x, m | 0 <= x < |s.holds| && m in s.holds[x] ensures Owns(s'.server, x, m) {
      OwnerKept(s.server, c, r, x, m);
    }
  }

  lemma ServeInv(s: System, a: Step)
    requires Inv(s) && a.Serve? && Enabled(s, a)
    ensures Inv(Next(s, a))
  {
    var s', c, r := Next(s, a), s.sent[a.message].from, s.sent[a.message].request;
    HasSent(s, c, a.message);
    assert Accounted(s, c);
    HandleInv(s.server, c, r);
    HandleShaped(s.server, c, r);
    forall d | 0 <= d < |s.clients| { ServeAccounts(s, a, d); }
    KeepsMutexWants(s.server, s.clients, c, r);
    KeepsCondWants(s.server, s.clients, c, r);
    KeepsBarrierWants(s.server, s.clients, c, r);
    ServeReplies(s, a);
    ServeHolds(s, a);
  }

  /** The client that takes a reply has nothing else anywhere. */
  lemma ReplyIsLast(s: System, a: Step)
    requires Inv(s) && a.Return? && Enabled(s, a)
    ensures var s', c := Next(s, a), s.replies[a.reply].to;
      && (forall d :: 0 <= d < |s'.clients| ==> Accounted(s', d))
      && Queued(s.server, c) == 0
      && (forall k :: 0 <= k < |s.sent| ==> s.sent[k].from != c)
      && (forall k :: 0 <= k < |s'.replies| ==> s'.replies[k].to != c)
  {
    var s', c := Next(s, a), s.replies[a.reply].to;
    HasReply(s, c, a.reply);
    forall d | 0 <= d < |s.clients| ensures Accounted(s', d) {
      assert Accounted(s, d);
      RepliesWithout(s.replies, a.reply, d);
    }
    assert Accounted(s', c);
    forall k | 0 <= k < |s.sent| ensures s.sent[k].from != c { if s.sent[k].from == c { HasSent(s, c, k); } }
    forall k | 0 <= k < |s'.replies| ensures s'.replies[k].to != c { if s'.replies[k].to == c { HasReply(s', c, k); } }
  }

  lemma ReturnInv(s: System, a: Step)
    requires Inv(s) && a.Return? && Enabled(s, a)
    ensures Inv(Next(s, a))
  {
    ReplyIsLast(s, a);
    UnqueuedWants(s.server, s.clients, s.replies[a.reply].to);
    assert ReplyOk(s.server, s.clients, s.replies[a.reply]);
  }

  /** Nothing that is queued depends on a core that is in no queue. */
  lemma UnqueuedWants(sv: Server, want: seq<Option<Request>>, c: CoreId)
    requires c < |want| && Queued(sv, c) == 0 && MutexWants(sv, want) && CondWants(sv, want) && BarrierWants(sv, want)
    ensures MutexWants(sv, want[c := None]) && CondWants(sv, want[c := None]) && BarrierWants(sv, want[c := None])
  {
    forall m | 0 <= m < |sv.mutexes| ensures c !in sv.mutexes[m].waiting {
      InMutexQueue(sv.mutexes, m, c);
      OccursIn(sv.mutexes[m].waiting, c);
    }
    forall q | 0 <= q < |sv.conds| ensures c !in sv.conds[q].cores {
      InCondQueue(sv.conds, q, c);
      OccursIn(sv.conds[q].cores, c);
    }
    forall b | 0 <= b < |sv.barriers|
      ensures IsMaxTime(sv.barriers[b].maxTime, sv.barriers[b].waiting, b, want[c := None])
    {
      InBarrierQueue(sv.barriers, b, c);
      OccursIn(sv.barriers[b].waiting, c);
      assert IsMaxTime(sv.barriers[b].maxTime, sv.barriers[b].waiting, b, want);
    }
  }

  lemma StepInv(s: System, a: Step)
    requires Inv(s) && Enabled(s, a)
    ensures Inv(Next(s, a))
  {
    match a
    case Call(_, _) => CallInv(s, a);
    case Serve(_) => ServeInv(s, a);
    case Return(_) => ReturnInv(s, a);
  }

  // ---------------------------------------------------------------------------------- runs

  ghost predicate IsRun(s: System, run: seq<Step>)
    decreases |run|
  {
    run == [] || (Enabled(s, run[0]) && IsRun(Next(s, run[0]), run[1..]))
  }

  ghost function After(s: System, run: seq<Step>): System
    requires IsRun(s, run)
    decreases |run|
  {
    if run == [] then s else After(Next(s, run[0]), run[1..])
  }

  lemma {:induction false} RunInv(s: System, run: seq<Step>)
    requires Inv(s) && IsRun(s, run)
    ensures Inv(After(s, run))
    decreases |run|
  {
    if run == [] {
    } else {
      StepInv(s, run[0]);
      RunInv(Next(s, run[0]), run[1..]);
    }
  }

  /** In every reachable state a core blocked on a request is in exactly one wait queue, or has
      exactly one message on the way; it is stalled if and only if it is queued; a mutex without
      owner has no waiters. */
  lemma {:induction false} BlockedInOnePlace(n: nat, run: seq<Step>, d: CoreId)
    requires IsRun(Initial(n), run) && d < n
    ensures var s := After(Initial(n), run);
      && |s.clients| == |s.server.status| == n
      && Occurs(Senders(s.sent), d) + Queued(s.server, d) + Occurs(Receivers(s.replies), d) == B(s.clients[d].Some?)
      && (s.server.status[d] == Stalled <==> Queued(s.server, d) == 1)
      && forall m :: 0 <= m < |s.server.mutexes| && s.server.mutexes[m].owner == None ==>
           s.server.mutexes[m].waiting == []
  {
    InitialInv(n);
    RunInv(Initial(n), run);
    RunSize(Initial(n), run);
    assert Accounted(After(Initial(n), run), d);
  }

  lemma {:induction false} RunSize(s: System, run: seq<Step>)
    requires Inv(s) && IsRun(s, run)
    ensures |After(s, run).clients| == |s.clients|
    decreases |run|
  {
    if run == [] {
    } else {
      StepInv(s, run[0]);
      RunSize(Next(s, run[0]), run[1..]);
    }
  }

  /** Two clients never hold the same mutex. */
  lemma {:induction false} MutualExclusion(n: nat, run: seq<Step>, c: CoreId, d: CoreId, m: nat)
    requires IsRun(Initial(n), run)
    requires var s := After(Initial(n), run); c < |s.holds| && d < |s.holds| && m in s.holds[c] && m in s.holds[d]
    ensures c == d
  {
    InitialInv(n);
    RunInv(Initial(n), run);
    assert HoldsOwned(After(Initial(n), run));
  }

  /** Every reply on its way is the one its receiver waits for. */
  lemma {:induction false} RepliesMatch(n: nat, run: seq<Step>, k: nat)
    requires IsRun(Initial(n), run) && k < |After(Initial(n), run).replies|
    ensures var s := After(Initial(n), run); ReplyOk(s.server, s.clients, s.replies[k])
  {
    InitialInv(n);
    RunInv(Initial(n), run);
  }

  /** In every reachable state a barrier is let through by the arrival that completes its count,
      and by no other. */
  lemma {:induction false} BarrierReleases(n: nat, run: seq<Step>, a: Step)
    requires IsRun(Initial(n), run) && a.Serve? && Enabled(After(Initial(n), run), a)
    requires After(Initial(n), run).sent[a.message].request.BarrierWait?
    ensures var s := After(Initial(n), run);
      var c, r := s.sent[a.message].from, s.sent[a.message].request;
      && Shaped(s.server) && Legal(s.server, c, r) && Next(s, a).server == Handle(s.server, c, r).server
      && Next(s, a).replies == s.replies + Handle(s.server, c, r).replies
      && ReleasedOrWaiting(s.server, s.clients, c, r.barrier, Handle(s.server, c, r))
  {
    InitialInv(n);
    RunInv(Initial(n), run);
    var s := After(Initial(n), run);
    BarrierGeneration(s.server, s.clients, s.sent[a.message].from, s.sent[a.message].request);
  }

  ghost function Calls(s: System, run: seq<Step>, c: CoreId): nat
    requires IsRun(s, run)
    decreases |run|
  {
    if run == [] then 0 else B(run[0].Call? && run[0].core == c) + Calls(Next(s, run[0]), run[1..], c)
  }

  ghost function Returns(s: System, run: seq<Step>, c: CoreId): nat
    requires IsRun(s, run)
    decreases |run|
  {
    if run == [] then 0
    else B(run[0].Return? && s.replies[run[0].reply].to == c) + Returns(Next(s, run[0]), run[1..], c)
  }

  /** How many answers a step sends to a core. */
  ghost function AnswersAt(s: System, a: Step, c: CoreId): nat
    requires Enabled(s, a)
  {
    if a.Serve? then Answers(Handle(s.server, s.sent[a.message].from, s.sent[a.message].request).replies, c) else 0
  }

  /** How many answers the server sent to a core. */
  ghost function Answered(s: System, run: seq<Step>, c: CoreId): nat
    requires IsRun(s, run)
    decreases |run|
  {
    if run == [] then 0 else AnswersAt(s, run[0], c) + Answered(Next(s, run[0]), run[1..], c)
  }

  lemma {:induction false} AnsweredStep(s: System, a: Step, c: CoreId)
    requires Inv(s) && Enabled(s, a) && c < |s.clients|
    ensures var s' := Next(s, a);
      && |s'.clients| == |s.clients|
      && Occurs(Receivers(s'.replies), c) + B(a.Return? && s.replies[a.reply].to == c) ==
         Occurs(Receivers(s.replies), c) + AnswersAt(s, a, c)
  {
    if a.Serve? {
      RepliesConcat(s.replies, Handle(s.server, s.sent[a.message].from, s.sent[a.message].request).replies, c);
    } else if a.Return? {
      RepliesWithout(s.replies, a.reply, c);
    }
  }

  lemma {:induction false} CallTotals(s: System, run: seq<Step>, c: CoreId)
    requires Inv(s) && IsRun(s, run) && c < |s.clients|
    ensures |After(s, run).clients| == |s.clients|
    ensures Calls(s, run, c) + B(s.clients[c].Some?) == Returns(s, run, c) + B(After(s, run).clients[c].Some?)
    ensures Answered(s, run, c) + Occurs(Receivers(s.replies), c) ==
            Returns(s, run, c) + Occurs(Receivers(After(s, run).replies), c)
    decreases |run|
  {
    if run == [] {
    } else {
      StepInv(s, run[0]);
      AnsweredStep(s, run[0], c);
      CallTotals(Next(s, run[0]), run[1..], c);
    }
  }

  /** Each blocking request is answered at most once: the server has sent a core as many answers as
      it made calls, except for the call that is still in flight or queued. */
  lemma {:induction false} AnsweredAtMostOnce(n: nat, run: seq<Step>, c: CoreId)
    requires IsRun(Initial(n), run) && c < n
    ensures var s := After(Initial(n), run);
      && Calls(Initial(n), run, c) == Answered(Initial(n), run, c) + Occurs(Senders(s.sent), c) + Queued(s.server, c)
      && Answered(Initial(n), run, c) <= Calls(Initial(n), run, c) <= Answered(Initial(n), run, c) + 1
  {
    InitialInv(n);
    RunInv(Initial(n), run);
    CallTotals(Initial(n), run, c);
    assert Accounted(After(Initial(n), run), c);
  }

  // ------------------------------------------------------------------------- order of grants

  ghost function WaitingFor(sv: Server, m: nat): seq<CoreId> {
    if m < |sv.mutexes| then sv.mutexes[m].waiting else []
  }

  ghost function AsksAt(s: System, a: Step, m: nat): seq<CoreId>
    requires Enabled(s, a)
  {
    if a.Serve? && m < |s.server.mutexes| then
      Asks(s.server, s.sent[a.message].from, s.sent[a.message].request, m)
    else []
  }

  ghost function GrantsAt(s: System, a: Step, m: nat): seq<CoreId>
    requires Enabled(s, a)
  {
    if a.Serve? && m < |s.server.mutexes| <= |Next(s, a).server.mutexes| then
      Grants(s.server, Next(s, a).server, m)
    else []
  }

  /** The cores that asked for a mutex during a run, in the order the server took their requests. */
  ghost function Asked(s: System, run: seq<Step>, m: nat): seq<CoreId>
    requires IsRun(s, run)
    decreases |run|
  {
    if run == [] then [] else AsksAt(s, run[0], m) + Asked(Next(s, run[0]), run[1..], m)
  }

  /** The cores that became its owner, in that order. */
  ghost function Granted(s: System, run: seq<Step>, m: nat): seq<CoreId>
    requires IsRun(s, run)
    decreases |run|
  {
    if run == [] then [] else GrantsAt(s, run[0], m) + Granted(Next(s, run[0]), run[1..], m)
  }

  lemma FifoAt(s: System, a: Step, m: nat)
    requires Inv(s) && Enabled(s, a)
    ensures WaitingFor(s.server, m) + AsksAt(s, a, m) == GrantsAt(s, a, m) + WaitingFor(Next(s, a).server, m)
  {
    if a.Serve? {
      var c, r := s.sent[a.message].from, s.sent[a.message].request;
      HasSent(s, c, a.message);
      assert Accounted(s, c);
      if m < |s.server.mutexes| { FifoStep(s.server, c, r, m); } else { CreatedEmpty(s.server, c, r, m); }
    }
  }

  lemma CreatedEmpty(sv: Server, c: CoreId, r: Request, m: nat)
    requires Shaped(sv) && Legal(sv, c, r) && m >= |sv.mutexes|
    ensures WaitingFor(Handle(sv, c, r).server, m) == []
  {
  }

  lemma Regroup(w: seq<CoreId>, a: seq<CoreId>, later: seq<CoreId>, g: seq<CoreId>, gs: seq<CoreId>, w1: seq<CoreId>,
                w2: seq<CoreId>)
    requires w + a == g + w1 && w1 + later == gs + w2
    ensures w + (a + later) == (g + gs) + w2
  {
    assert w + (a + later) == (w + a) + later == g + (w1 + later) == (g + gs) + w2;
  }

  /** First in, first out over every run: the cores that asked for a mutex are those that were
      granted it followed by those that still wait, in the order of asking. */
  lemma {:induction false} RunFifo(s: System, run: seq<Step>, m: nat)
    requires Inv(s) && IsRun(s, run)
    ensures WaitingFor(s.server, m) + Asked(s, run, m) == Granted(s, run, m) + WaitingFor(After(s, run).server, m)
    decreases |run|
  {
    if run == [] {
    } else {
      var s' := Next(s, run[0]);
      StepInv(s, run[0]);
      FifoAt(s, run[0], m);
      RunFifo(s', run[1..], m);
      Regroup(WaitingFor(s.server, m), AsksAt(s, run[0], m), Asked(s', run[1..], m), GrantsAt(s, run[0], m),
              Granted(s', run[1..], m), WaitingFor(s'.server, m), WaitingFor(After(s, run).server, m));
    }
  }
}
