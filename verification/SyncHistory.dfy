/** What whole runs of the synchronisation protocol amount to: barriers let through one generation
    after another, condition variables wake in order, and no mutex stays with a core that gave it up. */
module SyncHistory {
  import opened Arithmetic
  import opened Basics
  import opened SyncClients
  import opened SyncServer

  // ------------------------------------------------------------------------------- barriers

  ghost function CountsOf(sv: Server): seq<nat> {
    seq(|sv.barriers|, b requires 0 <= b < |sv.barriers| => sv.barriers[b].count)
  }

  /** The count asked for, if the step serves a request for a new barrier. */
  ghost function CountAt(s: System, a: Step): seq<nat>
    requires Enabled(s, a)
  {
    if a.Serve? && s.sent[a.message].request.BarrierInit? then [s.sent[a.message].request.count] else []
  }

  /** The counts asked for during a run, in the order the server took the requests. */
  ghost function CountsAsked(s: System, run: seq<Step>): seq<nat>
    requires IsRun(s, run)
    decreases |run|
  {
    if run == [] then [] else CountAt(s, run[0]) + CountsAsked(Next(s, run[0]), run[1..])
  }

  lemma CountsStep(s: System, a: Step)
    requires Enabled(s, a)
    ensures CountsOf(Next(s, a).server) == CountsOf(s.server) + CountAt(s, a)
  {
  }

  /** The state after the first step of a run, and the count asked for in it. */
  lemma {:induction false} FirstCount(s: System, run: seq<Step>) returns (s': System, more: seq<nat>)
    requires IsRun(s, run) && run != []
    ensures IsRun(s', run[1..]) && After(s, run) == After(s', run[1..])
    ensures CountsAsked(s, run) == more + CountsAsked(s', run[1..]) && CountsOf(s'.server) == CountsOf(s.server) + more
  {
    CountsStep(s, run[0]);
    s', more := Next(s, run[0]), CountAt(s, run[0]);
  }

  /** Every barrier has the count it was asked for with. */
  lemma {:induction false} RunCounts(s: System, run: seq<Step>)
    requires IsRun(s, run)
    ensures CountsOf(After(s, run).server) == CountsOf(s.server) + CountsAsked(s, run)
    decreases |run|
  {
    if run == [] {
    } else {
      var s', more := FirstCount(s, run);
      RunCounts(s', run[1..]);
    }
  }

  ghost function WaitingAt(sv: Server, b: nat): seq<CoreId> {
    if b < |sv.barriers| then sv.barriers[b].waiting else []
  }

  ghost predicate IsArrival(s: System, a: Step, b: nat)
    requires Enabled(s, a)
  {
    a.Serve? && s.sent[a.message].request.BarrierWait? && s.sent[a.message].request.barrier == b
  }

  ghost function ArrivesAt(s: System, a: Step, b: nat): seq<CoreId>
    requires Enabled(s, a)
  {
    if IsArrival(s, a, b) then [s.sent[a.message].from] else []
  }

  /** Whoever is answered when the server takes an arrival. */
  ghost function ReleasedAt(s: System, a: Step, b: nat): seq<CoreId>
    requires Enabled(s, a)
  {
    if IsArrival(s, a, b) then Receivers(Next(s, a).replies[|s.replies|..]) else []
  }

  /** The cores that arrived at a barrier during a run, in order. */
  ghost function Arrived(s: System, run: seq<Step>, b: nat): seq<CoreId>
    requires IsRun(s, run)
    decreases |run|
  {
    if run == [] then [] else ArrivesAt(s, run[0], b) + Arrived(Next(s, run[0]), run[1..], b)
  }

  ghost function Released(s: System, run: seq<Step>, b: nat): seq<CoreId>
    requires IsRun(s, run)
    decreases |run|
  {
    if run == [] then [] else ReleasedAt(s, run[0], b) + Released(Next(s, run[0]), run[1..], b)
  }

  lemma ReceiversOf(cores: seq<CoreId>, a: Answer)
    ensures Receivers(RepliesTo(cores, a)) == cores
  {
  }

  lemma BarrierStep(s: System, a: Step, b: nat)
    requires Enabled(s, a)
    ensures WaitingAt(s.server, b) + ArrivesAt(s, a, b) == ReleasedAt(s, a, b) + WaitingAt(Next(s, a).server, b)
    ensures ReleasedAt(s, a, b) != [] ==>
      b < |s.server.barriers| && |ReleasedAt(s, a, b)| == s.server.barriers[b].count
  {
    if IsArrival(s, a, b) {
      var c, r := s.sent[a.message].from, s.sent[a.message].request;
      var o, after := Handle(s.server, c, r), Arrive(s.server.barriers[b], c, r.time);
      assert Next(s, a).replies[|s.replies|..] == o.replies;
      ReceiversOf(after.waiting, BarrierResponse(after.maxTime));
    }
  }

  ghost function Generations(s: System, run: seq<Step>, b: nat): nat
    requires IsRun(s, run)
    decreases |run|
  {
    if run == [] then 0 else B(ReleasedAt(s, run[0], b) != []) + Generations(Next(s, run[0]), run[1..], b)
  }

  /** The state after the first step of a run, and who arrives and who is released in it. */
  lemma {:induction false} FirstArrival(s: System, run: seq<Step>, b: nat)
    returns (s': System, came: seq<CoreId>, gone: seq<CoreId>)
    requires IsRun(s, run) && run != []
    ensures IsRun(s', run[1..]) && After(s, run) == After(s', run[1..])
    ensures Arrived(s, run, b) == came + Arrived(s', run[1..], b)
    ensures Released(s, run, b) == gone + Released(s', run[1..], b)
    ensures Generations(s, run, b) == B(gone != []) + Generations(s', run[1..], b)
    ensures WaitingAt(s.server, b) + came == gone + WaitingAt(s'.server, b)
    ensures gone != [] ==> b < |s.server.barriers| && |gone| == s.server.barriers[b].count
  {
    BarrierStep(s, run[0], b);
    s', came, gone := Next(s, run[0]), ArrivesAt(s, run[0], b), ReleasedAt(s, run[0], b);
  }

  /** The cores that arrived are those that were released and those that wait. */
  lemma {:induction false} RunArrivals(s: System, run: seq<Step>, b: nat)
    requires IsRun(s, run)
    ensures WaitingAt(s.server, b) + Arrived(s, run, b) == Released(s, run, b) + WaitingAt(After(s, run).server, b)
    decreases |run|
  {
    if run == [] {
    } else {
      var s', came, gone := FirstArrival(s, run, b);
      RunArrivals(s', run[1..], b);
      Regroup(WaitingAt(s.server, b), came, Arrived(s', run[1..], b), gone, Released(s', run[1..], b),
              WaitingAt(s'.server, b), WaitingAt(After(s, run).server, b));
    }
  }

  lemma {:induction false} CountKept(s: System, run: seq<Step>, b: nat)
    requires IsRun(s, run) && b < |s.server.barriers|
    ensures b < |After(s, run).server.barriers| && After(s, run).server.barriers[b].count == s.server.barriers[b].count
  {
    RunCounts(s, run);
    assert CountsOf(s.server)[b] == CountsOf(After(s, run).server)[b];
  }

  lemma {:induction false} FirstGeneration(s: System, run: seq<Step>, b: nat, n: nat) returns (s': System, full: bool)
    requires IsRun(s, run) && run != []
    requires b < |After(s, run).server.barriers| && n == After(s, run).server.barriers[b].count
    ensures IsRun(s', run[1..]) && After(s, run) == After(s', run[1..])
    ensures |Released(s, run, b)| == (if full then n else 0) + |Released(s', run[1..], b)|
    ensures Generations(s, run, b) == B(full) + Generations(s', run[1..], b)
  {
    var came, gone;
    s', came, gone := FirstArrival(s, run, b);
    full := gone != [];
    if full { CountKept(s, run, b); }
  }

  /** Whole generations are released. */
  ghost predicate Whole(s: System, run: seq<Step>, b: nat, n: nat)
    requires IsRun(s, run)
  {
    |Released(s, run, b)| == Times(Generations(s, run, b), n)
  }

  lemma {:induction false} WholeFromRest(s: System, run: seq<Step>, b: nat, n: nat) returns (s': System)
    requires IsRun(s, run) && run != []
    requires b < |After(s, run).server.barriers| && n == After(s, run).server.barriers[b].count
    ensures IsRun(s', run[1..]) && After(s, run) == After(s', run[1..])
    ensures Whole(s', run[1..], b, n) ==> Whole(s, run, b, n)
  {
    var full;
    s', full := FirstGeneration(s, run, b, n);
    if Whole(s', run[1..], b, n) {
      AddTimes(|Released(s', run[1..], b)|, Generations(s', run[1..], b), n, full);
    }
  }

  lemma {:induction false} RunGenerations(s: System, run: seq<Step>, b: nat, n: nat)
    requires IsRun(s, run) && b < |After(s, run).server.barriers| && n == After(s, run).server.barriers[b].count
    ensures Whole(s, run, b, n)
    decreases |run|
  {
    if run == [] {
      assert Released(s, run, b) == [] && Generations(s, run, b) == 0;
    } else {
      var s' := WholeFromRest(s, run, b, n);
      RunGenerations(s', run[1..], b, n);
    }
  }

  lemma {:induction false} AddTimes(later: nat, g: nat, n: nat, full: bool)
    requires later == Times(g, n)
    ensures (if full then n else 0) + later == Times(B(full) + g, n)
  {
  }

  ghost function Times(g: nat, n: nat): nat {
    if g == 0 then 0 else n + Times(g - 1, n)
  }

  lemma {:induction false} TimesIs(g: nat, n: nat)
    ensures Times(g, n) == n * g
  {
    if g == 0 {
    } else {
      TimesIs(g - 1, n);
      Distribute(1, g - 1, n);
      Commute(n, g);
      Commute(n, g - 1);
    }
  }

  /** In every reachable state the barriers are those that were asked for, each with its count, and of
      the cores that arrived at one all have been answered, in order, but for the remainder. */
  lemma {:induction false} BarrierArrivals(cores: nat, run: seq<Step>, b: nat)
    requires IsRun(Initial(cores), run) && b < |After(Initial(cores), run).server.barriers|
    ensures var s, counts := After(Initial(cores), run), CountsAsked(Initial(cores), run);
      var came, gone := Arrived(Initial(cores), run, b), Released(Initial(cores), run, b);
      && |counts| == |s.server.barriers| && s.server.barriers[b].count == counts[b]
      && came == gone + s.server.barriers[b].waiting
      && (counts[b] == 0 ==> came == [])
      && (counts[b] > 0 ==> |s.server.barriers[b].waiting| == |came| % counts[b])
      && (|came| == counts[b] ==> gone == came)
  {
    var s0, s := Initial(cores), After(Initial(cores), run);
    InitialInv(cores);
    RunInv(s0, run);
    RunCounts(s0, run);
    assert CountsOf(s0.server) == [] && CountsOf(s.server)[b] == s.server.barriers[b].count;
    var n := s.server.barriers[b].count;
    RunArrivals(s0, run, b);
    RunGenerations(s0, run, b, n);
    assert [] + Arrived(s0, run, b) == Arrived(s0, run, b);
    Rest(|Arrived(s0, run, b)|, |s.server.barriers[b].waiting|, Generations(s0, run, b), n);
    if |Arrived(s0, run, b)| == n { assert Released(s0, run, b) + [] == Released(s0, run, b); }
  }

  lemma {:induction false} Rest(all: nat, waiting: nat, g: nat, n: nat)
    requires all == Times(g, n) + waiting && (waiting == 0 || waiting < n)
    ensures n == 0 ==> all == 0
    ensures n > 0 ==> waiting == all % n
    ensures all == n ==> waiting == 0
  {
    TimesIs(g, n);
    if n > 0 { Remainder(all, n, g, waiting); }
    if all == n && n > 0 { Remainder(n, n, 1, 0); }
  }

  // --------------------------------------------------------------------- condition variables

  ghost function WaitingOn(sv: Server, q: nat): seq<CoreId> {
    if q < |sv.conds| then sv.conds[q].cores else []
  }

  ghost function WaitsAt(s: System, a: Step, q: nat): seq<CoreId>
    requires Enabled(s, a)
  {
    if a.Serve? && s.sent[a.message].request.CondWait? && s.sent[a.message].request.cond == q then
      [s.sent[a.message].from]
    else []
  }

  /** A signal wakes the one that has waited longest, a broadcast everybody. */
  ghost function WokenAt(s: System, a: Step, q: nat): seq<CoreId>
    requires Enabled(s, a)
  {
    if !a.Serve? then []
    else
      match s.sent[a.message].request
      case CondSignal(x, _) => if x == q && WaitingOn(s.server, q) != [] then [WaitingOn(s.server, q)[0]] else []
      case CondBroadcast(x, _) => if x == q then WaitingOn(s.server, q) else []
      case _ => []
  }

  ghost function Waited(s: System, run: seq<Step>, q: nat): seq<CoreId>
    requires IsRun(s, run)
    decreases |run|
  {
    if run == [] then [] else WaitsAt(s, run[0], q) + Waited(Next(s, run[0]), run[1..], q)
  }

  ghost function Woken(s: System, run: seq<Step>, q: nat): seq<CoreId>
    requires IsRun(s, run)
    decreases |run|
  {
    if run == [] then [] else WokenAt(s, run[0], q) + Woken(Next(s, run[0]), run[1..], q)
  }

  lemma CondAfter(sv: Server, c: CoreId, r: Request, q: nat)
    requires Shaped(sv) && Legal(sv, c, r)
    ensures var cores, cores' := WaitingOn(sv, q), WaitingOn(Handle(sv, c, r).server, q);
      cores' == match r
                case CondWait(x, _, _) => if x == q then cores + [c] else cores
                case CondSignal(x, _) => if x == q && cores != [] then cores[1..] else cores
                case CondBroadcast(x, _) => if x == q then [] else cores
                case _ => cores
  {
  }

  lemma CondStep(s: System, a: Step, q: nat)
    requires Inv(s) && Enabled(s, a)
    ensures WaitingOn(s.server, q) + WaitsAt(s, a, q) == WokenAt(s, a, q) + WaitingOn(Next(s, a).server, q)
  {
    if a.Serve? {
      var c, r := s.sent[a.message].from, s.sent[a.message].request;
      assert Next(s, a).server == Handle(s.server, c, r).server;
      CondSplit(s.server, c, r, q, WaitsAt(s, a, q), WokenAt(s, a, q));
    }
  }

  lemma CondSplit(sv: Server, c: CoreId, r: Request, q: nat, came: seq<CoreId>, gone: seq<CoreId>)
    requires Shaped(sv) && Legal(sv, c, r) && came == (if r.CondWait? && r.cond == q then [c] else [])
    requires gone == match r
                     case CondSignal(x, _) => if x == q && WaitingOn(sv, q) != [] then [WaitingOn(sv, q)[0]] else []
                     case CondBroadcast(x, _) => if x == q then WaitingOn(sv, q) else []
                     case _ => []
    ensures WaitingOn(sv, q) + came == gone + WaitingOn(Handle(sv, c, r).server, q)
  {
    CondAfter(sv, c, r, q);
  }

  /** Over every run the cores that waited on a condition variable are those that were woken followed
      by those that still wait, in the order of waiting. */
  lemma {:induction false} RunCondFifo(s: System, run: seq<Step>, q: nat)
    requires Inv(s) && IsRun(s, run)
    ensures WaitingOn(s.server, q) + Waited(s, run, q) == Woken(s, run, q) + WaitingOn(After(s, run).server, q)
    decreases |run|
  {
    if run == [] {
    } else {
      var s' := Next(s, run[0]);
      StepInv(s, run[0]);
      CondStep(s, run[0], q);
      RunCondFifo(s', run[1..], q);
      Regroup(WaitingOn(s.server, q), WaitsAt(s, run[0], q), Waited(s', run[1..], q), WokenAt(s, run[0], q),
              Woken(s', run[1..], q), WaitingOn(s'.server, q), WaitingOn(After(s, run).server, q));
    }
  }

  /** Whoever is woken asks for the mutex it waited with. */
  lemma WokenAsks(s: System, a: Step, q: nat, x: CoreId)
    requires Inv(s) && Enabled(s, a) && x in WokenAt(s, a, q)
    ensures x < |s.clients| && s.clients[x].Some? && s.clients[x].value.CondWait? && s.clients[x].value.cond == q
    ensures x in AsksAt(s, a, s.clients[x].value.mux)
  {
    var cond := s.server.conds[q];
    assert StoredRight(cond, q, s.clients) && OneMutex(cond);
    var k :| 0 <= k < |cond.cores| && cond.cores[k] == x;
    assert WaitsOn(s.clients, x, q, cond.muxes[k]);
    if s.sent[a.message].request.CondBroadcast? { NamingAll(cond, cond.muxes[0]); }
  }

  // ---------------------------------------------------------------------------------- owners

  ghost predicate LockPending(s: System, c: CoreId, m: nat) {
    && c < |s.clients| && s.clients[c].Some? && LockMux(s.clients[c].value) == Some(m)
    && exists k :: 0 <= k < |s.replies| && s.replies[k].to == c && s.replies[k].answer.LockResponse?
  }

  ghost predicate ReleasePending(s: System, c: CoreId, m: nat) {
    exists k :: 0 <= k < |s.sent| && s.sent[k].from == c && Releases(s.sent[k].request, m)
  }

  /** The core holds the mutex, is about to be told so, or has asked to give it up. */
  ghost predicate Concerned(s: System, c: CoreId, m: nat) {
    c < |s.holds| && (m in s.holds[c] || LockPending(s, c, m) || ReleasePending(s, c, m))
  }

  ghost predicate OwnersConcerned(s: System) {
    forall c, m :: Owns(s.server, c, m) ==> Concerned(s, c, m)
  }

  lemma {:induction false} GrantedAreWoken(ms: seq<Mutex>, q: Cond, m: nat, x: CoreId)
    requires |q.cores| == |q.muxes| && InRange(q.muxes, |ms|) && m < |ms|
    requires GrantAll(ms, q).0[m].owner == Some(x) && ms[m].owner != Some(x)
    ensures x in GrantAll(ms, q).1
    decreases |q.cores|
  {
    if q.cores == [] {
    } else {
      var (mx, granted) := Lock(ms[q.muxes[0]], q.cores[0]);
      var ms', rest := ms[q.muxes[0] := mx], Cond(q.cores[1..], q.muxes[1..]);
      if ms'[m].owner != Some(x) { GrantedAreWoken(ms', rest, m, x); }
    }
  }

  /** A new owner is told so. */
  lemma OwnerIsTold(sv: Server, c: CoreId, r: Request, m: nat, x: CoreId)
    requires ServerInv(sv) && Legal(sv, c, r) && sv.status[c] == Running && m < |sv.mutexes|
    requires Handle(sv, c, r).server.mutexes[m].owner == Some(x) && (sv.mutexes[m].owner != Some(x) || Releases(r, m))
    ensures exists k :: 0 <= k < |Handle(sv, c, r).replies| &&
                        Handle(sv, c, r).replies[k].to == x && Handle(sv, c, r).replies[k].answer.LockResponse?
  {
    var o := Handle(sv, c, r);
    MutexAfter(sv, c, r, m);
    if r.CondBroadcast? {
      GrantedAreWoken(sv.mutexes, sv.conds[r.cond], m, x);
      var woken := GrantAll(sv.mutexes, sv.conds[r.cond]).1;
      var k :| 0 <= k < |woken| && woken[k] == x;
      assert o.replies[k].to == x && o.replies[k].answer.LockResponse?;
    } else {
      assert |o.replies| > 0 && o.replies[0].to == x && o.replies[0].answer.LockResponse?;
    }
  }

  /** Whoever becomes the owner wanted this mutex. */
  lemma OwnerWanted(sv: Server, want: seq<Option<Request>>, c: CoreId, r: Request, m: nat, x: CoreId)
    requires ServerInv(sv) && Legal(sv, c, r) && sv.status[c] == Running && m < |sv.mutexes|
    requires MutexWants(sv, want) && CondWants(sv, want) && c < |want| && want[c] == Some(r)
    requires Handle(sv, c, r).server.mutexes[m].owner == Some(x) && (sv.mutexes[m].owner != Some(x) || Releases(r, m))
    ensures WantsMutex(want, x, m)
  {
    MutexAfter(sv, c, r, m);
    AsksWant(sv, want, c, r, m);
    if Releases(r, m) { assert WantsMutex(want, sv.mutexes[m].waiting[0], m); }
  }

  /** A core that owns a mutex and has no part in a step stays as concerned as before. */
  lemma StillConcerned(s: System, a: Step, x: CoreId, m: nat)
    requires Inv(s) && a.Serve? && Enabled(s, a) && Concerned(s, x, m)
    requires s.sent[a.message].from != x || !Releases(s.sent[a.message].request, m)
    ensures Concerned(Next(s, a), x, m)
  {
    var s' := Next(s, a);
    if LockPending(s, x, m) {
      var k :| 0 <= k < |s.replies| && s.replies[k].to == x && s.replies[k].answer.LockResponse?;
      assert s'.replies[k] == s.replies[k];
    }
    if ReleasePending(s, x, m) {
      var k :| 0 <= k < |s.sent| && s.sent[k].from == x && Releases(s.sent[k].request, m);
      assert s'.sent[if k < a.message then k else k - 1] == s.sent[k];
    }
  }

  lemma ServeConcerns(s: System, a: Step, x: CoreId, m: nat)
    requires Inv(s) && OwnersConcerned(s) && a.Serve? && Enabled(s, a) && Owns(Next(s, a).server, x, m)
    ensures Concerned(Next(s, a), x, m)
  {
    var c, r, s' := s.sent[a.message].from, s.sent[a.message].request, Next(s, a);
    var o := Handle(s.server, c, r);
    HasSent(s, c, a.message);
    assert Accounted(s, c);
    CreatedFree(s.server, c, r, m, x);
    if s.server.mutexes[m].owner != Some(x) || Releases(r, m) {
      OwnerIsTold(s.server, c, r, m, x);
      OwnerWanted(s.server, s.clients, c, r, m, x);
      var k :| 0 <= k < |o.replies| && o.replies[k].to == x && o.replies[k].answer.LockResponse?;
      assert s'.replies[|s.replies| + k] == o.replies[k];
      assert LockPending(s', x, m);
    } else {
      assert Owns(s.server, x, m);
      StillConcerned(s, a, x, m);
    }
  }

  lemma CreatedFree(sv: Server, c: CoreId, r: Request, m: nat, x: CoreId)
    requires Shaped(sv) && Legal(sv, c, r)
    ensures m >= |sv.mutexes| ==> !Owns(Handle(sv, c, r).server, x, m)
  {
    if r.MutexInit? { CreatedIsNew(sv, c, r); }
  }

  lemma CallConcerns(s: System, a: Step, x: CoreId, m: nat)
    requires Inv(s) && a.Call? && Enabled(s, a) && Concerned(s, x, m)
    ensures Concerned(Next(s, a), x, m)
  {
    var s' := Next(s, a);
    assert s'.sent[|s.sent|] == Message(a.core, a.request);
    if LockPending(s, x, m) {
      var k :| 0 <= k < |s.replies| && s.replies[k].to == x && s.replies[k].answer.LockResponse?;
      assert s'.replies[k] == s.replies[k];
    }
    if ReleasePending(s, x, m) {
      var k :| 0 <= k < |s.sent| && s.sent[k].from == x && Releases(s.sent[k].request, m);
      assert s'.sent[k] == s.sent[k];
    }
  }

  lemma ReturnConcerns(s: System, a: Step, x: CoreId, m: nat)
    requires Inv(s) && a.Return? && Enabled(s, a) && Concerned(s, x, m)
    ensures Concerned(Next(s, a), x, m)
  {
    var s', c := Next(s, a), s.replies[a.reply].to;
    ReplyIsLast(s, a);
    if LockPending(s, x, m) {
      var k :| 0 <= k < |s.replies| && s.replies[k].to == x && s.replies[k].answer.LockResponse?;
      if k != a.reply { assert s'.replies[if k < a.reply then k else k - 1] == s.replies[k]; }
    }
    if ReleasePending(s, x, m) {
      var k :| 0 <= k < |s.sent| && s.sent[k].from == x && Releases(s.sent[k].request, m);
      assert s'.sent[k] == s.sent[k];
    }
  }

  lemma StepConcerns(s: System, a: Step)
    requires Inv(s) && OwnersConcerned(s) && Enabled(s, a)
    ensures OwnersConcerned(Next(s, a))
  {
    forall c, m | Owns(Next(s, a).server, c, m) ensures Concerned(Next(s, a), c, m) {
      match a
      case Call(_, _) => CallConcerns(s, a, c, m);
      case Serve(_) => ServeConcerns(s, a, c, m);
      case Return(_) => ReturnConcerns(s, a, c, m);
    }
  }

  lemma {:induction false} RunConcerns(s: System, run: seq<Step>)
    requires Inv(s) && OwnersConcerned(s) && IsRun(s, run)
    ensures OwnersConcerned(After(s, run))
    decreases |run|
  {
    if run == [] {
    } else {
      StepInv(s, run[0]);
      StepConcerns(s, run[0]);
      RunConcerns(Next(s, run[0]), run[1..]);
    }
  }

  /** In every reachable state the owner of a mutex is a client that holds it, is about to be told so,
      or has a request to give it up in flight; and who holds it or is about to be told is the owner. */
  lemma {:induction false} OwnerHolds(n: nat, run: seq<Step>, c: CoreId, m: nat)
    requires IsRun(Initial(n), run) && c < n
    ensures var s := After(Initial(n), run);
      && |s.holds| == n
      && (Owns(s.server, c, m) ==> m in s.holds[c] || LockPending(s, c, m) || ReleasePending(s, c, m))
      && (m in s.holds[c] || LockPending(s, c, m) ==> Owns(s.server, c, m))
  {
    var s := After(Initial(n), run);
    InitialInv(n);
    RunInv(Initial(n), run);
    RunSize(Initial(n), run);
    RunConcerns(Initial(n), run);
    if LockPending(s, c, m) {
      var k :| 0 <= k < |s.replies| && s.replies[k].to == c && s.replies[k].answer.LockResponse?;
      assert ReplyOk(s.server, s.clients, s.replies[k]);
    }
  }
}
