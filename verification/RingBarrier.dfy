/** The barrier between the simulator's processes: a token makes two trips around a ring.
    Tokens travel on a socket to the next process, where its update thread turns each one into
    a signal of the barrier semaphore; the process waits on that semaphore. Any number of
    processes, any interleaving, any number of consecutive rounds. */
module RingBarrier {
  import opened Arithmetic
  import opened Basics

  /** Where a process stands in `barrier()`. */
  datatype Pc = Outside | FirstWait | FirstSend | SecondWait | SecondSend

  /** `done[i]` counts the rounds process i has left, `chan[i]` the tokens on the way to it and
      `sem[i]` its semaphore. */
  datatype State = State(pc: seq<Pc>, done: seq<nat>, sem: seq<nat>, chan: seq<nat>)

  datatype Action =
    | Enter(i: nat)     // call barrier()
    | Wait(i: nat)      // pass m_barrier_sem.wait()
    | Send(i: nat)      // send the token to the next process
    | Deliver(i: nat)   // the update thread receives a token and signals the semaphore

  function N(s: State): nat {
    |s.pc|
  }

  ghost predicate WellFormed(s: State) {
    && N(s) >= 1 && |s.done| == |s.sem| == |s.chan| == N(s)
    && s.pc[0] != FirstWait && s.pc[N(s) - 1] != SecondSend
  }

  function Next(s: State, i: nat): nat {
    if i + 1 == N(s) then 0 else i + 1
  }

  function Prev(s: State, i: nat): nat
    requires N(s) >= 1
  {
    if i == 0 then N(s) - 1 else i - 1
  }

  /** The ring arithmetic as the source writes it. */
  lemma RingArithmetic(s: State, i: nat)
    requires i < N(s)
    ensures Next(s, i) == (i + 1) % N(s)
    ensures Prev(s, i) == (i + N(s) - 1) % N(s)
    ensures Prev(s, Next(s, i)) == i && Next(s, Prev(s, i)) == i
  {
    var n := N(s);
    if i + 1 == n { Remainder(i + 1, n, 1, 0); } else { Remainder(i + 1, n, 0, i + 1); }
    if i == 0 { Remainder(n - 1, n, 0, n - 1); } else { Remainder(i + n - 1, n, 1, i - 1); }
  }

  ghost predicate Enabled(s: State, a: Action)
    requires WellFormed(s)
  {
    && a.i < N(s)
    && match a
       case Enter(i) => s.pc[i] == Outside
       case Wait(i) => (s.pc[i] == FirstWait || s.pc[i] == SecondWait) && s.sem[i] > 0
       case Send(i) => s.pc[i] == FirstSend || s.pc[i] == SecondSend
       case Deliver(i) => s.chan[i] > 0
  }

  /** Process 0 starts the first trip without waiting; the last process does not send on the
      second trip. */
  ghost function Step(s: State, a: Action): State
    requires WellFormed(s) && Enabled(s, a)
  {
    match a
    case Enter(i) => s.(pc := s.pc[i := if i != 0 then FirstWait else FirstSend])
    case Wait(i) =>
      var s' := s.(sem := s.sem[i := s.sem[i] - 1]);
      if s.pc[i] == FirstWait then s'.(pc := s.pc[i := FirstSend])
      else if i != N(s) - 1 then s'.(pc := s.pc[i := SecondSend])
      else s'.(pc := s.pc[i := Outside], done := s.done[i := s.done[i] + 1])
    case Send(i) =>
      var j := Next(s, i);
      var s' := s.(chan := s.chan[j := s.chan[j] + 1]);
      if s.pc[i] == FirstSend then s'.(pc := s.pc[i := SecondWait])
      else s'.(pc := s.pc[i := Outside], done := s.done[i := s.done[i] + 1])
    case Deliver(i) =>
      s.(chan := s.chan[i := s.chan[i] - 1], sem := s.sem[i := s.sem[i] + 1])
  }

  ghost predicate Initial(s: State) {
    WellFormed(s) && forall i :: 0 <= i < N(s) ==> s.pc[i] == Outside && s.done[i] == s.sem[i] == s.chan[i] == 0
  }

  // ------------------------------------------------------------- what a process has done

  /** Rounds entered. */
  ghost function Entered(s: State, i: nat): nat
    requires WellFormed(s) && i < N(s)
  {
    s.done[i] + B(s.pc[i] != Outside)
  }

  /** Tokens sent on the first trip, over all rounds. */
  ghost function FirstTrip(s: State, i: nat): nat
    requires WellFormed(s) && i < N(s)
  {
    s.done[i] + B(s.pc[i] == SecondWait || s.pc[i] == SecondSend)
  }

  ghost function Sent(s: State, i: nat): nat
    requires WellFormed(s) && i < N(s)
  {
    FirstTrip(s, i) + if i == N(s) - 1 then 0 else s.done[i]
  }

  ghost function SecondWaits(s: State, i: nat): nat
    requires WellFormed(s) && i < N(s)
  {
    s.done[i] + B(s.pc[i] == SecondSend)
  }

  ghost function Waited(s: State, i: nat): nat
    requires WellFormed(s) && i < N(s)
  {
    SecondWaits(s, i) +
    if i == 0 then 0 else s.done[i] + B(s.pc[i] == FirstSend || s.pc[i] == SecondWait || s.pc[i] == SecondSend)
  }

  /** No token is lost or duplicated: what the predecessor sent is on the way, in the semaphore
      or consumed. */
  ghost predicate Conserved(s: State) {
    WellFormed(s) &&
    forall i :: 0 <= i < N(s) ==> s.chan[i] + s.sem[i] + Waited(s, i) == Sent(s, Prev(s, i))
  }

  lemma InitialConserved(s: State)
    requires Initial(s)
    ensures Conserved(s)
  {
  }

  /** Each action moves exactly the counters it should. */
  lemma Effects(s: State, a: Action, i: nat)
    requires WellFormed(s) && Enabled(s, a) && i < N(s)
    ensures WellFormed(Step(s, a)) && N(Step(s, a)) == N(s)
    ensures Sent(Step(s, a), i) == Sent(s, i) + B(a == Send(i))
    ensures Waited(Step(s, a), i) == Waited(s, i) + B(a == Wait(i))
    ensures Step(s, a).chan[i] == s.chan[i] + B(a == Send(Prev(s, i))) - B(a == Deliver(i))
    ensures Step(s, a).sem[i] == s.sem[i] + B(a == Deliver(i)) - B(a == Wait(i))
    ensures s.done[i] <= Step(s, a).done[i] && Entered(s, i) <= Entered(Step(s, a), i)
  {
  }

  lemma StepConserves(s: State, a: Action)
    requires Conserved(s) && Enabled(s, a)
    ensures Conserved(Step(s, a))
  {
    var s' := Step(s, a);
    Effects(s, a, 0);
    forall i | 0 <= i < N(s') ensures s'.chan[i] + s'.sem[i] + Waited(s', i) == Sent(s', Prev(s', i)) {
      Effects(s, a, i);
      Effects(s, a, Prev(s, i));
      assert s.chan[i] + s.sem[i] + Waited(s, i) == Sent(s, Prev(s, i));
    }
  }

  // ------------------------------------------------------------------------- runs

  /** A run is a finite sequence of enabled actions. */
  ghost predicate IsRun(s: State, run: seq<Action>, s': State)
    requires WellFormed(s)
    decreases |run|
  {
    if run == [] then s' == s
    else Enabled(s, run[0]) && (Effects(s, run[0], 0); IsRun(Step(s, run[0]), run[1..], s'))
  }

  lemma {:induction false} RunConserves(s: State, run: seq<Action>, s': State)
    requires Conserved(s) && IsRun(s, run, s')
    ensures Conserved(s') && N(s') == N(s)
    decreases |run|
  {
    if run == [] {
    } else {
      StepConserves(s, run[0]);
      RunConserves(Step(s, run[0]), run[1..], s');
    }
  }

  // ----------------------------------------------------------------------- safety

  /** Along the first trip: a process has sent its token only if all before it have. */
  lemma {:induction false} FirstTripChain(s: State, i: nat, j: nat)
    requires Conserved(s) && i <= j < N(s)
    ensures FirstTrip(s, j) <= FirstTrip(s, i)
    decreases j
  {
    if i < j {
      assert s.chan[j] + s.sem[j] + Waited(s, j) == Sent(s, Prev(s, j));
      FirstTripChain(s, i, j - 1);
    }
  }

  /** Along the second trip: a process is through only if all before it are. */
  lemma {:induction false} SecondTripChain(s: State, i: nat)
    requires Conserved(s) && i < N(s)
    ensures SecondWaits(s, i) <= SecondWaits(s, 0)
    decreases i
  {
    if i == 0 {
    } else {
      assert s.chan[i] + s.sem[i] + Waited(s, i) == Sent(s, Prev(s, i));
      SecondTripChain(s, i - 1);
    }
  }

  /** The last process closes the first trip, and only then does process 0 start the second. */
  lemma SafeState(s: State, i: nat, j: nat)
    requires Conserved(s) && i < N(s) && j < N(s)
    ensures s.done[i] <= Entered(s, j)
  {
    SecondTripChain(s, i);
    assert s.chan[0] + s.sem[0] + Waited(s, 0) == Sent(s, Prev(s, 0));
    FirstTripChain(s, j, N(s) - 1);
  }

  /** No process leaves a round before every process has entered it: in any state of any run, if
      process i has left k rounds then process j has entered k rounds. */
  lemma {:induction false} BarrierSafety(s: State, run: seq<Action>, s': State, i: nat, j: nat)
    requires Initial(s) && IsRun(s, run, s') && i < N(s) && j < N(s)
    ensures WellFormed(s') && N(s') == N(s) && s'.done[i] <= Entered(s', j)
  {
    InitialConserved(s);
    RunConserves(s, run, s');
    SafeState(s', i, j);
  }

  /** Two processes are never more than one round apart, so early tokens of the next round can be
      queued but not those of the round after. */
  lemma {:induction false} AtMostOneRoundApart(s: State, run: seq<Action>, s': State, i: nat, j: nat)
    requires Initial(s) && IsRun(s, run, s') && i < N(s) && j < N(s)
    ensures WellFormed(s') && N(s') == N(s) && s'.done[i] <= s'.done[j] + 1
  {
    BarrierSafety(s, run, s', i, j);
  }

  // --------------------------------------------------------------------- progress

  /** Everyone has left the barrier, k rounds behind them. */
  ghost predicate AllOut(s: State, k: nat) {
    WellFormed(s) && forall i :: 0 <= i < N(s) ==> s.pc[i] == Outside && s.done[i] == k
  }

  /** When everyone has left, no token is left over for the next round. */
  lemma NothingLeftOver(s: State, k: nat, i: nat)
    requires Conserved(s) && AllOut(s, k) && i < N(s)
    ensures s.chan[i] == 0 && s.sem[i] == 0
  {
    assert s.chan[i] + s.sem[i] + Waited(s, i) == Sent(s, Prev(s, i));
  }

  /** Everyone has left k rounds, and everyone who has not left the next one is inside it. */
  ghost predicate AllIn(s: State, k: nat) {
    WellFormed(s) && forall i :: 0 <= i < N(s) ==> s.done[i] >= k && (s.done[i] == k ==> s.pc[i] != Outside)
  }

  ghost predicate CanMove(s: State)
    requires WellFormed(s)
  {
    exists a :: Enabled(s, a) && !a.Enter?
  }

  ghost predicate Stuck(s: State, i: nat)
    requires WellFormed(s) && i < N(s)
  {
    !Enabled(s, Wait(i)) && !Enabled(s, Send(i)) && !Enabled(s, Deliver(i))
  }

  /** If the first trip of round k + 1 has not got past process j, it has not got past any
      process before it either. */
  lemma {:induction false} FirstTripHeld(s: State, k: nat, j: nat)
    requires Conserved(s) && AllIn(s, k) && j < N(s) && FirstTrip(s, j) == k
    requires forall i :: 0 <= i < N(s) ==> Stuck(s, i)
    ensures FirstTrip(s, 0) == k
    decreases j
  {
    if j == 0 {
    } else {
      assert Stuck(s, j);
      assert s.chan[j] + s.sem[j] + Waited(s, j) == Sent(s, Prev(s, j));
      FirstTripHeld(s, k, j - 1);
    }
  }

  lemma {:induction false} SecondTripHeld(s: State, k: nat, j: nat)
    requires Conserved(s) && AllIn(s, k) && j < N(s) && s.done[j] == k && s.done[0] > k
    requires forall i :: 0 <= i < N(s) ==> Stuck(s, i)
    ensures false
    decreases j
  {
    assert Stuck(s, j);
    assert s.chan[j] + s.sem[j] + Waited(s, j) == Sent(s, Prev(s, j));
    if s.done[j - 1] == k {
      SecondTripHeld(s, k, j - 1);
    }
  }

  /** No deadlock: once all processes have entered a round that some have not left, a token can
      move. */
  lemma BarrierProgress(s: State, k: nat, i: nat)
    requires Conserved(s) && AllIn(s, k) && i < N(s) && s.done[i] == k
    ensures CanMove(s)
  {
    if !CanMove(s) {
      forall j | 0 <= j < N(s) ensures Stuck(s, j) {
        assert !Enabled(s, Wait(j)) && !Enabled(s, Send(j)) && !Enabled(s, Deliver(j));
      }
      if s.done[0] > k {
        SecondTripHeld(s, k, i);
      } else {
        assert Stuck(s, 0);
        assert s.chan[0] + s.sem[0] + Waited(s, 0) == Sent(s, Prev(s, 0));
        FirstTripHeld(s, k, N(s) - 1);
      }
    }
  }

  ghost function Weight(pc: Pc): nat {
    match pc
    case Outside => 0
    case SecondSend => 2
    case SecondWait => 3
    case FirstSend => 5
    case FirstWait => 6
  }

  /** How many moves are left if nobody enters again. */
  ghost function MovesLeft(s: State, n: nat): nat
    requires WellFormed(s) && n <= N(s)
  {
    if n == 0 then 0 else MovesLeft(s, n - 1) + Weight(s.pc[n - 1]) + s.chan[n - 1]
  }

  ghost function SentUpTo(s: State, n: nat): nat
    requires WellFormed(s) && n <= N(s)
  {
    if n == 0 then 0 else SentUpTo(s, n - 1) + Sent(s, n - 1)
  }

  ghost function WaitedUpTo(s: State, n: nat): nat
    requires WellFormed(s) && n <= N(s)
  {
    if n == 0 then 0 else WaitedUpTo(s, n - 1) + Waited(s, n - 1)
  }

  /** The weight of a prefix of the ring after a move: the mover pays, the receiver of a token
      gets less than that. */
  lemma {:induction false} MovesLeftStep(s: State, a: Action, n: nat)
    requires WellFormed(s) && Enabled(s, a) && !a.Enter? && n <= N(s)
    ensures WellFormed(Step(s, a)) && N(Step(s, a)) == N(s)
    ensures var drop := (if a.i >= n then 0 else if a.Send? then 2 else 1);
            var gain := (if a.Send? && Next(s, a.i) < n then 1 else 0);
            MovesLeft(Step(s, a), n) <= MovesLeft(s, n) - drop + gain
  {
    Effects(s, a, 0);
    if n > 0 {
      MovesLeftStep(s, a, n - 1);
      Effects(s, a, n - 1);
    }
  }

  lemma {:induction false} SentStep(s: State, a: Action, n: nat)
    requires WellFormed(s) && Enabled(s, a) && n <= N(s)
    ensures WellFormed(Step(s, a)) && N(Step(s, a)) == N(s)
    ensures SentUpTo(Step(s, a), n) == SentUpTo(s, n) + B(a.Send? && a.i < n)
  {
    Effects(s, a, 0);
    if n > 0 {
      SentStep(s, a, n - 1);
      Effects(s, a, n - 1);
    }
  }

  lemma {:induction false} WaitedStep(s: State, a: Action, n: nat)
    requires WellFormed(s) && Enabled(s, a) && n <= N(s)
    ensures WellFormed(Step(s, a)) && N(Step(s, a)) == N(s)
    ensures WaitedUpTo(Step(s, a), n) == WaitedUpTo(s, n) + B(a.Wait? && a.i < n)
  {
    Effects(s, a, 0);
    if n > 0 {
      WaitedStep(s, a, n - 1);
      Effects(s, a, n - 1);
    }
  }

  ghost function Sends(run: seq<Action>): nat {
    if run == [] then 0 else B(run[0].Send?) + Sends(run[1..])
  }

  ghost function Waits(run: seq<Action>): nat {
    if run == [] then 0 else B(run[0].Wait?) + Waits(run[1..])
  }

  lemma {:induction false} RunTotals(s: State, run: seq<Action>, s': State)
    requires WellFormed(s) && IsRun(s, run, s')
    ensures WellFormed(s') && N(s') == N(s)
    ensures SentUpTo(s', N(s)) == SentUpTo(s, N(s)) + Sends(run)
    ensures WaitedUpTo(s', N(s)) == WaitedUpTo(s, N(s)) + Waits(run)
    decreases |run|
  {
    if run == [] {
    } else {
      SentStep(s, run[0], N(s));
      WaitedStep(s, run[0], N(s));
      RunTotals(Step(s, run[0]), run[1..], s');
    }
  }

  /** What the processes below n send and wait for in one round. */
  lemma {:induction false} RoundTotals(s: State, k: nat, s': State, n: nat)
    requires AllOut(s, k) && AllOut(s', k + 1) && n <= N(s) == N(s')
    ensures SentUpTo(s', n) == SentUpTo(s, n) + 2 * n - B(n == N(s))
    ensures WaitedUpTo(s', n) == WaitedUpTo(s, n) + 2 * n - B(n > 0)
  {
    if n == 0 {
    } else {
      RoundTotals(s, k, s', n - 1);
    }
  }

  /** A round costs 2N - 1 messages and 2N - 1 waits, however it is interleaved. */
  lemma {:induction false} RoundCost(s: State, k: nat, run: seq<Action>, s': State)
    requires AllOut(s, k) && IsRun(s, run, s') && AllOut(s', k + 1)
    ensures Sends(run) == 2 * N(s) - 1 && Waits(run) == 2 * N(s) - 1
  {
    RunTotals(s, run, s');
    RoundTotals(s, k, s', N(s));
  }

  ghost predicate NoEntry(run: seq<Action>) {
    forall i :: 0 <= i < |run| ==> !run[i].Enter?
  }

  lemma {:induction false} RunShrinks(s: State, k: nat, run: seq<Action>, s': State)
    requires Conserved(s) && AllIn(s, k) && IsRun(s, run, s') && NoEntry(run)
    ensures Conserved(s') && N(s') == N(s) && AllIn(s', k)
    ensures |run| + MovesLeft(s', N(s)) <= MovesLeft(s, N(s))
    decreases |run|
  {
    if run == [] {
    } else {
      var t := Step(s, run[0]);
      StepConserves(s, run[0]);
      MovesLeftStep(s, run[0], N(s));
      forall i | 0 <= i < N(t) ensures t.done[i] >= k && (t.done[i] == k ==> t.pc[i] != Outside) {
        Effects(s, run[0], i);
      }
      assert !run[0].Enter?;
      RunShrinks(t, k, run[1..], s');
    }
  }

  /** Once all have entered a round, every way of letting the tokens move ends, and it ends with
      everyone having left that round. */
  lemma {:induction false} RoundEnds(s: State, k: nat, run: seq<Action>, s': State)
    requires Conserved(s) && AllIn(s, k) && IsRun(s, run, s') && NoEntry(run)
    ensures |run| <= MovesLeft(s, N(s))
    ensures WellFormed(s') && (!CanMove(s') ==> forall i :: 0 <= i < N(s') ==> s'.done[i] > k)
  {
    RunShrinks(s, k, run, s');
    if !CanMove(s') {
      forall i | 0 <= i < N(s') ensures s'.done[i] > k {
        if s'.done[i] == k {
          BarrierProgress(s', k, i);
        }
      }
    }
  }
}
