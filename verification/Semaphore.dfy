/** The futex-based counting semaphore, one memory access or system call at a time.
    The kernel is an atomic compare-and-sleep and a wake call; sleepers may also wake up for no
    reason. Any number of threads, each free to call `wait`, `signal` or `broadcast` again. */
module Semaphore {
  import opened Basics

  datatype Pc =
    | Idle            // outside the semaphore
    // wait()
    | WaitLock        // about to acquire the lock
    | WaitTest        // lock held: about to test _count
    | WaitReset       // lock held: _numWaiting raised, about to clear the futex word
    | WaitUnlock      // lock held: about to release it and go to sleep
    | WaitCall        // about to call FUTEX_WAIT
    | Asleep          // in the kernel
    | WaitRelock      // back from the kernel, about to acquire the lock again
    | WaitLower       // lock held: about to lower _numWaiting
    | WaitTake        // lock held: _count was positive, about to take one and release
    // signal() and broadcast()
    | PostLock(all: bool)   // about to acquire the lock
    | PostRaise(all: bool)  // lock held: about to raise _count
    | PostTest(all: bool)   // lock held: about to test _numWaiting
    | PostFlag(all: bool)   // lock held: about to set the futex word
    | PostWake(all: bool)   // lock held: about to call FUTEX_WAKE
    | PostUnlock            // lock held: about to release

  /** `taken` and `posted` count what went through, for the books only. */
  datatype State = State(count: int, numWaiting: int, futx: int, holder: Option<nat>, pcs: seq<Pc>,
                         taken: nat, posted: nat)

  datatype Action =
    | CallWait(i: nat)
    | CallPost(i: nat, all: bool)
    | Run(i: nat)                    // the next step of a thread that is not in the kernel
    | RunWake(i: nat, w: nat)        // FUTEX_WAKE of one sleeper, w
    | Spurious(i: nat)               // a sleeper wakes up for no reason

  const AWAKE_WAITERS: set<Pc> := {WaitReset, WaitUnlock, WaitCall, WaitRelock, WaitLower}
  const WAITERS: set<Pc> := AWAKE_WAITERS + {Asleep}

  predicate HoldsLock(pc: Pc) {
    pc.WaitTest? || pc.WaitReset? || pc.WaitUnlock? || pc.WaitLower? || pc.WaitTake? ||
    pc.PostRaise? || pc.PostTest? || pc.PostFlag? || pc.PostWake? || pc.PostUnlock?
  }

  predicate WantsLock(pc: Pc) {
    pc.WaitLock? || pc.WaitRelock? || pc.PostLock?
  }

  ghost function Count(pcs: seq<Pc>, k: set<Pc>): nat {
    if pcs == [] then 0 else Count(pcs[..|pcs| - 1], k) + if pcs[|pcs| - 1] in k then 1 else 0
  }

  ghost predicate Enabled(s: State, a: Action) {
    && a.i < |s.pcs|
    && match a
       case CallWait(i) => s.pcs[i] == Idle
       case CallPost(i, _) => s.pcs[i] == Idle
       case Spurious(i) => s.pcs[i] == Asleep
       case RunWake(i, w) => s.pcs[i] == PostWake(false) && w < |s.pcs| && s.pcs[w] == Asleep
       case Run(i) =>
         && s.pcs[i] != Idle && s.pcs[i] != Asleep
         && (WantsLock(s.pcs[i]) ==> s.holder == None)
         // a wake call that may wake one sleeper wakes one if there is one
         && (s.pcs[i] == PostWake(false) ==> Count(s.pcs, {Asleep}) == 0)
  }

  function WakeAll(pcs: seq<Pc>): seq<Pc> {
    seq(|pcs|, k requires 0 <= k < |pcs| => if pcs[k] == Asleep then WaitRelock else pcs[k])
  }

  ghost function Step(s: State, a: Action): State
    requires Enabled(s, a)
  {
    match a
    case CallWait(i) => s.(pcs := s.pcs[i := WaitLock])
    case CallPost(i, all) => s.(pcs := s.pcs[i := PostLock(all)])
    case Spurious(i) => s.(pcs := s.pcs[i := WaitRelock])
    case RunWake(i, w) => s.(pcs := s.pcs[w := WaitRelock][i := PostUnlock])
    case Run(i) =>
      match s.pcs[i]
      case WaitLock => s.(pcs := s.pcs[i := WaitTest], holder := Some(i))
      case WaitTest =>
        if s.count <= 0 then s.(pcs := s.pcs[i := WaitReset], numWaiting := s.numWaiting + 1)
        else s.(pcs := s.pcs[i := WaitTake])
      case WaitReset => s.(pcs := s.pcs[i := WaitUnlock], futx := 0)
      case WaitUnlock => s.(pcs := s.pcs[i := WaitCall], holder := None)
      case WaitCall => s.(pcs := s.pcs[i := if s.futx == 0 then Asleep else WaitRelock])
      case WaitRelock => s.(pcs := s.pcs[i := WaitLower], holder := Some(i))
      case WaitLower => s.(pcs := s.pcs[i := WaitTest], numWaiting := s.numWaiting - 1)
      case WaitTake => s.(pcs := s.pcs[i := Idle], count := s.count - 1, taken := s.taken + 1, holder := None)
      case PostLock(all) => s.(pcs := s.pcs[i := PostRaise(all)], holder := Some(i))
      case PostRaise(all) => s.(pcs := s.pcs[i := PostTest(all)], count := s.count + 1, posted := s.posted + 1)
      case PostTest(all) => s.(pcs := s.pcs[i := if s.numWaiting > 0 then PostFlag(all) else PostUnlock])
      case PostFlag(all) => s.(pcs := s.pcs[i := PostWake(all)], futx := 1)
      case PostWake(all) => s.(pcs := WakeAll(s.pcs)[i := PostUnlock])
      case PostUnlock => s.(pcs := s.pcs[i := Idle], holder := None)
      case Idle => s
      case Asleep => s
  }

  ghost predicate Initial(s: State, count: int) {
    && s.count == count && s.numWaiting == 0 && s.futx == 0 && s.holder == None && s.taken == s.posted == 0
    && forall i :: 0 <= i < |s.pcs| ==> s.pcs[i] == Idle
  }

  // ------------------------------------------------------------------------- counting

  lemma {:induction false} CountUpdate(pcs: seq<Pc>, i: nat, pc: Pc, k: set<Pc>)
    requires i < |pcs|
    ensures Count(pcs[i := pc], k) + (if pcs[i] in k then 1 else 0) == Count(pcs, k) + if pc in k then 1 else 0
  {
    var n := |pcs| - 1;
    if i == n {
      assert pcs[i := pc][..n] == pcs[..n];
    } else {
      CountUpdate(pcs[..n], i, pc, k);
      assert pcs[i := pc][..n] == pcs[..n][i := pc];
    }
  }

  lemma {:induction false} CountWakeAll(pcs: seq<Pc>)
    ensures Count(WakeAll(pcs), {Asleep}) == 0
    ensures Count(WakeAll(pcs), WAITERS) == Count(pcs, WAITERS)
  {
    if pcs == [] {
    } else {
      var n := |pcs| - 1;
      CountWakeAll(pcs[..n]);
      assert WakeAll(pcs)[..n] == WakeAll(pcs[..n]);
    }
  }

  lemma {:induction false} CountPositive(pcs: seq<Pc>, i: nat, k: set<Pc>)
    requires i < |pcs| && pcs[i] in k
    ensures Count(pcs, k) > 0
  {
    if i < |pcs| - 1 {
      CountPositive(pcs[..|pcs| - 1], i, k);
    }
  }

  lemma {:induction false} CountWitness(pcs: seq<Pc>, k: set<Pc>) returns (i: nat)
    requires Count(pcs, k) > 0
    ensures i < |pcs| && pcs[i] in k
  {
    i := |pcs| - 1;
    if pcs[i] !in k {
      i := CountWitness(pcs[..i], k);
    }
  }

  lemma {:induction false} CountNone(pcs: seq<Pc>, k: set<Pc>)
    requires forall i :: 0 <= i < |pcs| ==> pcs[i] !in k
    ensures Count(pcs, k) == 0
  {
    if pcs == [] {
    } else {
      CountNone(pcs[..|pcs| - 1], k);
    }
  }

  lemma {:induction false} CountDisjoint(pcs: seq<Pc>)
    ensures Count(pcs, WAITERS) == Count(pcs, AWAKE_WAITERS) + Count(pcs, {Asleep})
  {
    if pcs == [] {
    } else {
      CountDisjoint(pcs[..|pcs| - 1]);
    }
  }

  // ----------------------------------------------------------------------- invariants

  ghost function HolderPc(s: State): Pc {
    if s.holder.Some? && s.holder.value < |s.pcs| then s.pcs[s.holder.value] else Idle
  }

  /** The lock is held by exactly the thread that is inside a locked section. */
  ghost predicate LockInv(s: State) {
    && (s.holder.Some? ==> s.holder.value < |s.pcs| && HoldsLock(s.pcs[s.holder.value]))
    && (forall i :: 0 <= i < |s.pcs| && HoldsLock(s.pcs[i]) ==> s.holder == Some(i))
  }

  /** Tokens are neither made nor lost, and none is taken that is not there. */
  ghost predicate TokenInv(s: State, initial: int) {
    && (s.count >= 0 || s.taken == 0) && s.count + s.taken == initial + s.posted
    && (HolderPc(s).WaitTake? ==> s.count > 0)
    && (HolderPc(s).WaitReset? ==> s.count <= 0)
  }

  /** A positive count with waiters around means that the futex word is set, unless the thread
      that raised the count has yet to set it. */
  ghost predicate FlagInv(s: State) {
    && s.numWaiting == Count(s.pcs, WAITERS)
    && (s.numWaiting > 0 && s.futx == 0 ==>
          s.count <= if HolderPc(s).PostTest? || HolderPc(s).PostFlag? then 1 else 0)
  }

  /** Someone who will look at the count again: a poster about to wake, or a thread about to take. */
  ghost function InHand(s: State): nat {
    var pc := HolderPc(s);
    if pc.PostTest? || pc.PostFlag? || pc.PostWake? || pc.WaitTest? || pc.WaitTake? then 1 else 0
  }

  /** While anyone sleeps, each token has an awake thread that will see it. */
  ghost predicate WakeInv(s: State) {
    Count(s.pcs, {Asleep}) > 0 ==> s.count <= Count(s.pcs, AWAKE_WAITERS) + InHand(s)
  }

  ghost predicate Inv(s: State, initial: int) {
    LockInv(s) && TokenInv(s, initial) && FlagInv(s) && WakeInv(s)
  }

  lemma InitialInv(s: State, count: int)
    requires Initial(s, count)
    ensures Inv(s, count)
  {
    CountNone(s.pcs, WAITERS);
    CountNone(s.pcs, {Asleep});
  }

  lemma StepLock(s: State, a: Action)
    requires LockInv(s) && Enabled(s, a)
    ensures LockInv(Step(s, a)) && |Step(s, a).pcs| == |s.pcs|
  {
  }

  lemma StepTokens(s: State, a: Action, initial: int)
    requires LockInv(s) && TokenInv(s, initial) && Enabled(s, a)
    ensures TokenInv(Step(s, a), initial)
  {
    StepLock(s, a);
  }

  /** How a step changes the number of threads of each kind. */
  lemma {:induction false} StepCounts(s: State, a: Action, k: set<Pc>)
    requires Enabled(s, a) && !(a.Run? && s.pcs[a.i] == PostWake(true))
    ensures a.RunWake? ==>
              Count(Step(s, a).pcs, k) == Count(s.pcs, k)
                - (if Asleep in k then 1 else 0) + (if WaitRelock in k then 1 else 0)
                - (if PostWake(false) in k then 1 else 0) + (if PostUnlock in k then 1 else 0)
    ensures !a.RunWake? ==>
              |Step(s, a).pcs| == |s.pcs| &&
              Count(Step(s, a).pcs, k) == Count(s.pcs, k)
                - (if s.pcs[a.i] in k then 1 else 0) + (if Step(s, a).pcs[a.i] in k then 1 else 0)
  {
    var s' := Step(s, a);
    if a.RunWake? {
      CountUpdate(s.pcs, a.w, WaitRelock, k);
      CountUpdate(s.pcs[a.w := WaitRelock], a.i, PostUnlock, k);
    } else {
      CountUpdate(s.pcs, a.i, s'.pcs[a.i], k);
      assert !WakeBroadcast(s, a);
      if a.Run? && s.pcs[a.i] == PostWake(false) {
        AllAwake(s.pcs);
      }
      assert s'.pcs == s.pcs[a.i := s'.pcs[a.i]];
    }
  }

  ghost predicate WakeBroadcast(s: State, a: Action)
    requires Enabled(s, a)
  {
    a.Run? && s.pcs[a.i] == PostWake(true)
  }

  lemma {:induction false} AllAwake(pcs: seq<Pc>)
    requires Count(pcs, {Asleep}) == 0
    ensures WakeAll(pcs) == pcs
  {
    forall i | 0 <= i < |pcs| ensures pcs[i] != Asleep {
      if pcs[i] == Asleep {
        CountPositive(pcs, i, {Asleep});
      }
    }
  }

  lemma BroadcastCounts(s: State, i: nat)
    requires Enabled(s, Run(i)) && s.pcs[i] == PostWake(true)
    ensures Count(Step(s, Run(i)).pcs, {Asleep}) == 0
    ensures Count(Step(s, Run(i)).pcs, WAITERS) == Count(s.pcs, WAITERS)
  {
    CountWakeAll(s.pcs);
    CountUpdate(WakeAll(s.pcs), i, PostUnlock, {Asleep});
    CountUpdate(WakeAll(s.pcs), i, PostUnlock, WAITERS);
  }

  lemma StepWaiting(s: State, a: Action)
    requires FlagInv(s) && Enabled(s, a)
    ensures Step(s, a).numWaiting == Count(Step(s, a).pcs, WAITERS)
  {
    if WakeBroadcast(s, a) {
      BroadcastCounts(s, a.i);
    } else {
      StepCounts(s, a, WAITERS);
    }
  }

  lemma StepFlag(s: State, a: Action, initial: int)
    requires Inv(s, initial) && Enabled(s, a)
    ensures FlagInv(Step(s, a))
  {
    StepLock(s, a);
    StepWaiting(s, a);
  }

  lemma StepWake(s: State, a: Action, initial: int)
    requires Inv(s, initial) && Enabled(s, a)
    ensures WakeInv(Step(s, a))
  {
    StepLock(s, a);
    CountDisjoint(s.pcs);
    if WakeBroadcast(s, a) {
      BroadcastCounts(s, a.i);
    } else {
      StepCounts(s, a, AWAKE_WAITERS);
      StepCounts(s, a, {Asleep});
      if a.Run? && s.pcs[a.i] == WaitCall {
        CountPositive(s.pcs, a.i, AWAKE_WAITERS);
      }
    }
  }

  lemma StepInv(s: State, a: Action, initial: int)
    requires Inv(s, initial) && Enabled(s, a)
    ensures Inv(Step(s, a), initial)
  {
    StepLock(s, a);
    StepTokens(s, a, initial);
    StepFlag(s, a, initial);
    StepWake(s, a, initial);
  }

  // ------------------------------------------------------------------------------ runs

  ghost predicate IsRun(s: State, run: seq<Action>, s': State)
    decreases |run|
  {
    if run == [] then s' == s else Enabled(s, run[0]) && IsRun(Step(s, run[0]), run[1..], s')
  }

  lemma {:induction false} RunInv(s: State, run: seq<Action>, s': State, initial: int)
    requires Inv(s, initial) && IsRun(s, run, s')
    ensures Inv(s', initial)
    decreases |run|
  {
    if run == [] {
    } else {
      StepInv(s, run[0], initial);
      RunInv(Step(s, run[0]), run[1..], s', initial);
    }
  }

  /** Over any run, a semaphore lets through at most its initial count plus the number of posts,
      and whatever it has not let through is still in the count. */
  lemma {:induction false} TokensBounded(s: State, run: seq<Action>, s': State, initial: int)
    requires Initial(s, initial) && IsRun(s, run, s')
    ensures s'.taken > 0 ==> s'.taken <= initial + s'.posted
    ensures s'.count == initial + s'.posted - s'.taken
  {
    InitialInv(s, initial);
    RunInv(s, run, s', initial);
  }

  /** No lost wake-up: in any state of any run with nobody inside a locked section, if a thread
      sleeps then there are at least as many awake waiters as tokens. */
  lemma {:induction false} NoLostWakeup(s: State, run: seq<Action>, s': State, initial: int)
    requires Initial(s, initial) && IsRun(s, run, s') && s'.holder == None
    ensures Count(s'.pcs, {Asleep}) > 0 ==> s'.count <= Count(s'.pcs, AWAKE_WAITERS)
    ensures s'.numWaiting > 0 && s'.count > 0 ==> s'.futx != 0
  {
    InitialInv(s, initial);
    RunInv(s, run, s', initial);
  }

  /** So a sleeper is never left behind with a token there: as long as a token is available some
      thread that is not asleep can take a step, without a new call and without luck. */
  lemma TokenMeansProgress(s: State, run: seq<Action>, s': State, initial: int) returns (i: nat)
    requires Initial(s, initial) && IsRun(s, run, s')
    requires Count(s'.pcs, {Asleep}) > 0 && s'.count > 0
    ensures i < |s'.pcs| && s'.pcs[i] != Idle && s'.pcs[i] != Asleep
    ensures Enabled(s', Run(i)) || exists w :: Enabled(s', RunWake(i, w))
  {
    InitialInv(s, initial);
    RunInv(s, run, s', initial);
    if s'.holder.Some? {
      i := s'.holder.value;
      if s'.pcs[i] == PostWake(false) {
        var w := CountWitness(s'.pcs, {Asleep});
        assert Enabled(s', RunWake(i, w));
      }
    } else {
      i := CountWitness(s'.pcs, AWAKE_WAITERS);
    }
  }

  // -------------------------------------------------------------------------- calls and tokens

  const INSIDE_WAIT: set<Pc> :=
    {WaitLock, WaitTest, WaitReset, WaitUnlock, WaitCall, Asleep, WaitRelock, WaitLower, WaitTake}
  const BEFORE_RAISE: set<Pc> := {PostLock(false), PostLock(true), PostRaise(false), PostRaise(true)}

  /** The calls a thread made, read off the actions alone. */
  ghost function WaitCalls(run: seq<Action>, i: nat): nat {
    if run == [] then 0 else B(run[0] == CallWait(i)) + WaitCalls(run[1..], i)
  }

  ghost function PostCalls(run: seq<Action>, i: nat): nat {
    if run == [] then 0 else B(run[0].CallPost? && run[0].i == i) + PostCalls(run[1..], i)
  }

  /** How often a step of the thread lowered the count. */
  ghost function Took(s: State, run: seq<Action>, s': State, i: nat): nat
    requires IsRun(s, run, s')
    decreases |run|
  {
    if run == [] then 0
    else B(run[0].i == i && Step(s, run[0]).count < s.count) + Took(Step(s, run[0]), run[1..], s', i)
  }

  /** How often a step of the thread raised it. */
  ghost function Gave(s: State, run: seq<Action>, s': State, i: nat): nat
    requires IsRun(s, run, s')
    decreases |run|
  {
    if run == [] then 0
    else B(run[0].i == i && Step(s, run[0]).count > s.count) + Gave(Step(s, run[0]), run[1..], s', i)
  }

  lemma CallStep(s: State, a: Action, i: nat)
    requires Enabled(s, a) && i < |s.pcs|
    ensures |Step(s, a).pcs| == |s.pcs|
    ensures B(a == CallWait(i)) + B(s.pcs[i] in INSIDE_WAIT) ==
            B(a.i == i && Step(s, a).count < s.count) + B(Step(s, a).pcs[i] in INSIDE_WAIT)
    ensures B(a.CallPost? && a.i == i) + B(s.pcs[i] in BEFORE_RAISE) ==
            B(a.i == i && Step(s, a).count > s.count) + B(Step(s, a).pcs[i] in BEFORE_RAISE)
  {
  }

  lemma {:induction false} RunCalls(s: State, run: seq<Action>, s': State, i: nat)
    requires IsRun(s, run, s') && i < |s.pcs|
    ensures |s'.pcs| == |s.pcs|
    ensures WaitCalls(run, i) + B(s.pcs[i] in INSIDE_WAIT) == Took(s, run, s', i) + B(s'.pcs[i] in INSIDE_WAIT)
    ensures PostCalls(run, i) + B(s.pcs[i] in BEFORE_RAISE) == Gave(s, run, s', i) + B(s'.pcs[i] in BEFORE_RAISE)
    decreases |run|
  {
    if run == [] {
    } else {
      CallStep(s, run[0], i);
      RunCalls(Step(s, run[0]), run[1..], s', i);
    }
  }

  /** Over any run every call of `wait` that is over took exactly one token, every post gave exactly
      one, and a call of `wait` that is not over took none. */
  lemma {:induction false} OneTokenPerCall(s: State, run: seq<Action>, s': State, initial: int, i: nat)
    requires Initial(s, initial) && IsRun(s, run, s') && i < |s.pcs|
    ensures |s'.pcs| == |s.pcs|
    ensures WaitCalls(run, i) == Took(s, run, s', i) + B(s'.pcs[i] in INSIDE_WAIT)
    ensures PostCalls(run, i) == Gave(s, run, s', i) + B(s'.pcs[i] in BEFORE_RAISE)
    ensures s'.pcs[i] == Idle ==> WaitCalls(run, i) == Took(s, run, s', i) && PostCalls(run, i) == Gave(s, run, s', i)
  {
    RunCalls(s, run, s', i);
  }

  ghost function AllWaitCalls(run: seq<Action>): nat {
    if run == [] then 0 else B(run[0].CallWait?) + AllWaitCalls(run[1..])
  }

  ghost function AllPostCalls(run: seq<Action>): nat {
    if run == [] then 0 else B(run[0].CallPost?) + AllPostCalls(run[1..])
  }

  lemma {:induction false} CountSame(pcs: seq<Pc>, pcs': seq<Pc>, k: set<Pc>)
    requires |pcs| == |pcs'| && forall i :: 0 <= i < |pcs| ==> (pcs[i] in k <==> pcs'[i] in k)
    ensures Count(pcs, k) == Count(pcs', k)
  {
    if pcs == [] {
    } else {
      CountSame(pcs[..|pcs| - 1], pcs'[..|pcs| - 1], k);
    }
  }

  /** A step can only wake the other threads. */
  lemma OthersStep(s: State, a: Action, j: nat)
    requires Enabled(s, a) && j < |s.pcs| && j != a.i
    ensures |Step(s, a).pcs| == |s.pcs|
    ensures Step(s, a).pcs[j] == s.pcs[j] || (s.pcs[j] == Asleep && Step(s, a).pcs[j] == WaitRelock)
  {
  }

  /** So it moves at most its own thread into or out of a set of places that has both or neither. */
  lemma {:induction false} CountOwn(s: State, a: Action, pcs': seq<Pc>, k: set<Pc>)
    requires Enabled(s, a) && pcs' == Step(s, a).pcs && (Asleep in k <==> WaitRelock in k)
    ensures |pcs'| == |s.pcs| && Count(pcs', k) + B(s.pcs[a.i] in k) == Count(s.pcs, k) + B(pcs'[a.i] in k)
  {
    var i := a.i;
    forall j | 0 <= j < |s.pcs| && j != i ensures |pcs'| == |s.pcs| && (s.pcs[j] in k <==> pcs'[j] in k) {
      OthersStep(s, a, j);
    }
    SizeStep(s, a);
    CountUpdate(s.pcs, i, pcs'[i], k);
    CountSame(s.pcs[i := pcs'[i]], pcs', k);
  }

  lemma SizeStep(s: State, a: Action)
    requires Enabled(s, a)
    ensures |Step(s, a).pcs| == |s.pcs|
  {
  }

  lemma TotalStep(s: State, a: Action)
    requires Enabled(s, a)
    ensures B(a.CallWait?) + Count(s.pcs, INSIDE_WAIT) + s.taken ==
            Step(s, a).taken + Count(Step(s, a).pcs, INSIDE_WAIT)
    ensures B(a.CallPost?) + Count(s.pcs, BEFORE_RAISE) + s.posted ==
            Step(s, a).posted + Count(Step(s, a).pcs, BEFORE_RAISE)
  {
    CountOwn(s, a, Step(s, a).pcs, INSIDE_WAIT);
    CountOwn(s, a, Step(s, a).pcs, BEFORE_RAISE);
  }

  lemma {:induction false} RunTotals(s: State, run: seq<Action>, s': State)
    requires IsRun(s, run, s')
    ensures AllWaitCalls(run) + Count(s.pcs, INSIDE_WAIT) + s.taken == s'.taken + Count(s'.pcs, INSIDE_WAIT)
    ensures AllPostCalls(run) + Count(s.pcs, BEFORE_RAISE) + s.posted == s'.posted + Count(s'.pcs, BEFORE_RAISE)
    decreases |run|
  {
    if run == [] {
    } else {
      TotalStep(s, run[0]);
      RunTotals(Step(s, run[0]), run[1..], s');
    }
  }

  /** Over any run the calls of `wait` are the tokens taken and the threads inside, and the calls that
      post are the tokens given and the threads that have yet to give theirs. */
  lemma {:induction false} CallsAccounted(s: State, run: seq<Action>, s': State, initial: int)
    requires Initial(s, initial) && IsRun(s, run, s')
    ensures AllWaitCalls(run) == s'.taken + Count(s'.pcs, INSIDE_WAIT)
    ensures AllPostCalls(run) == s'.posted + Count(s'.pcs, BEFORE_RAISE)
    ensures s'.count + AllWaitCalls(run) + Count(s'.pcs, BEFORE_RAISE) ==
            initial + AllPostCalls(run) + Count(s'.pcs, INSIDE_WAIT)
  {
    CountNone(s.pcs, INSIDE_WAIT);
    CountNone(s.pcs, BEFORE_RAISE);
    RunTotals(s, run, s');
    TokensBounded(s, run, s', initial);
  }

  // ---------------------------------------------------------------------- calls come to an end

  /** How many steps of its own a thread is away from the end of its call, if it finds a token. */
  function Rank(pc: Pc): nat {
    match pc
    case Idle => 0
    case WaitTake => 1
    case WaitTest => 2
    case WaitLock => 3
    case WaitLower => 3
    case WaitRelock => 4
    case Asleep => 5
    case WaitCall => 6
    case WaitUnlock => 7
    case WaitReset => 8
    case PostUnlock => 1
    case PostWake(_) => 2
    case PostFlag(_) => 3
    case PostTest(_) => 4
    case PostRaise(_) => 5
    case PostLock(_) => 6
  }

  /** The thread calls, or looks at the count and finds no token. */
  ghost predicate StartsOver(s: State, a: Action, i: nat)
    requires Enabled(s, a)
  {
    a.i == i && (a.CallWait? || a.CallPost? || (a.Run? && s.pcs[i] == WaitTest && s.count <= 0))
  }

  lemma RankStep(s: State, a: Action, i: nat)
    requires Enabled(s, a) && i < |s.pcs|
    ensures |Step(s, a).pcs| == |s.pcs|
    ensures B(a.i == i) + Rank(Step(s, a).pcs[i]) <= Rank(s.pcs[i]) + (if StartsOver(s, a, i) then 7 else 0)
  {
    if a.i != i { OthersStep(s, a, i); }
  }

  ghost function OwnSteps(run: seq<Action>, i: nat): nat {
    if run == [] then 0 else B(run[0].i == i) + OwnSteps(run[1..], i)
  }

  ghost function StartedOver(s: State, run: seq<Action>, s': State, i: nat): nat
    requires IsRun(s, run, s')
    decreases |run|
  {
    if run == [] then 0 else B(StartsOver(s, run[0], i)) + StartedOver(Step(s, run[0]), run[1..], s', i)
  }

  /** A thread makes at most seven steps for each of its calls and for each time it finds no token:
      no post goes on for ever, and a `wait` does so only by finding no token again and again. */
  lemma {:induction false} CallsEnd(s: State, run: seq<Action>, s': State, i: nat)
    requires IsRun(s, run, s') && i < |s.pcs|
    ensures |s'.pcs| == |s.pcs|
    ensures OwnSteps(run, i) + Rank(s'.pcs[i]) <= Rank(s.pcs[i]) + 7 * StartedOver(s, run, s', i)
    decreases |run|
  {
    if run == [] {
    } else {
      RankStep(s, run[0], i);
      CallsEnd(Step(s, run[0]), run[1..], s', i);
    }
  }

  // ------------------------------------------------------------------------- no busy waiting

  /** No token and nobody posting. */
  ghost predicate Quiet(s: State) {
    s.count <= 0 && forall i :: 0 <= i < |s.pcs| ==> s.pcs[i] == Idle || s.pcs[i] in INSIDE_WAIT
  }

  /** How many steps of its own a waiter has left before it sleeps. */
  function UntilAsleep(pc: Pc, futx: int): nat {
    match pc
    case WaitCall => if futx == 0 then 1 else 7
    case WaitUnlock => if futx == 0 then 2 else 8
    case WaitReset => 3
    case WaitTest => 4
    case WaitLock => 5
    case WaitLower => 5
    case WaitRelock => 6
    case _ => 0
  }

  lemma QuietStep(s: State, a: Action, initial: int, i: nat)
    requires Inv(s, initial) && Quiet(s) && Enabled(s, a) && (a.CallWait? || a.Run?) && i < |s.pcs|
    ensures Quiet(Step(s, a)) && |Step(s, a).pcs| == |s.pcs|
    ensures B(a.i == i) + UntilAsleep(Step(s, a).pcs[i], Step(s, a).futx) <=
            UntilAsleep(s.pcs[i], s.futx) + (if a == CallWait(i) then 6 else 0)
  {
    assert a.Run? ==> !s.pcs[a.i].WaitTake?;
  }

  /** Waiters do not spin: while there is no token, nobody posts and nobody wakes up for no reason, a
      thread makes at most eight steps and six more for each of its calls, and then it sleeps. */
  lemma {:induction false} NoBusyWaiting(s: State, run: seq<Action>, s': State, initial: int, i: nat)
    requires Inv(s, initial) && Quiet(s) && IsRun(s, run, s') && i < |s.pcs|
    requires forall k :: 0 <= k < |run| ==> run[k].CallWait? || run[k].Run?
    ensures Quiet(s') && |s'.pcs| == |s.pcs|
    ensures OwnSteps(run, i) + UntilAsleep(s'.pcs[i], s'.futx) <= UntilAsleep(s.pcs[i], s.futx) + 6 * WaitCalls(run, i)
    decreases |run|
  {
    if run == [] {
    } else {
      QuietStep(s, run[0], initial, i);
      StepInv(s, run[0], initial);
      NoBusyWaiting(Step(s, run[0]), run[1..], s', initial, i);
    }
  }
}
