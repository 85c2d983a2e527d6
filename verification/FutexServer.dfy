/** The futex queues kept by the master: cores wait at addresses, are woken from the front of a
    queue, or are moved to the end of another one. There is one queue per address; addresses
    nobody has used have an empty one. */
module FutexServer {
  import opened Arithmetic
  import opened Basics
  import opened SyncServer

  /** How often a core occurs in any queue. */
  ghost function Total(queues: seq<seq<CoreId>>, d: CoreId): nat {
    if queues == [] then 0 else Total(queues[..|queues| - 1], d) + Occurs(queues[|queues| - 1], d)
  }

  lemma {:induction false} TotalUpdate(queues: seq<seq<CoreId>>, a: nat, q: seq<CoreId>, d: CoreId)
    requires a < |queues|
    ensures Total(queues[a := q], d) + Occurs(queues[a], d) == Total(queues, d) + Occurs(q, d)
  {
    var n := |queues| - 1;
    if a == n {
      assert queues[a := q][..n] == queues[..n];
    } else {
      TotalUpdate(queues[..n], a, q, d);
      assert queues[a := q][..n] == queues[..n][a := q];
    }
  }

  lemma {:induction false} InTotal(queues: seq<seq<CoreId>>, a: nat, d: CoreId)
    requires a < |queues|
    ensures Occurs(queues[a], d) <= Total(queues, d)
  {
    if a < |queues| - 1 { InTotal(queues[..|queues| - 1], a, d); }
  }

  lemma {:induction false} OccursSplit(q: seq<CoreId>, k: nat, d: CoreId)
    requires k <= |q|
    ensures Occurs(q, d) == Occurs(q[..k], d) + Occurs(q[k..], d)
  {
    OccursConcat(q[..k], q[k..], d);
    assert q == q[..k] + q[k..];
  }

  // ---------------------------------------------------------------------- what a wake removes

  /** How many cores a request for val of them gets from a queue. */
  function Count(val: int, n: nat): (r: nat)
    ensures r <= n && (r == n || r == val || (r == 0 && val < 0)) && (r > 0 ==> r <= val)
  {
    if val <= 0 then 0 else if val < n then val else n
  }

  lemma TakeTotal(queues: seq<seq<CoreId>>, a: nat, k: nat, d: CoreId)
    requires a < |queues| && k <= |queues[a]|
    ensures Total(queues[a := queues[a][k..]], d) + Occurs(queues[a][..k], d) == Total(queues, d)
  {
    TotalUpdate(queues, a, queues[a][k..], d);
    OccursSplit(queues[a], k, d);
  }

  lemma MoveTotal(queues: seq<seq<CoreId>>, a: nat, b: nat, k: nat, d: CoreId)
    requires a < |queues| && b < |queues| && a != b && k <= |queues[a]|
    ensures Total(queues[a := queues[a][k..]][b := queues[b] + queues[a][..k]], d) == Total(queues, d)
  {
    TakeTotal(queues, a, k, d);
    TotalUpdate(queues[a := queues[a][k..]], b, queues[b] + queues[a][..k], d);
    OccursConcat(queues[b], queues[a][..k], d);
  }

  /** Taking the front and appending it again, some number of times. */
  function RotateBy(q: seq<CoreId>, n: nat): seq<CoreId>
    decreases n
  {
    if n == 0 || q == [] then q else RotateBy(q[1..] + [q[0]], n - 1)
  }

  /** Who stood n places behind the front, going around, is now at the front, and so on. */
  lemma {:induction false} RotateAt(q: seq<CoreId>, n: nat, k: nat)
    requires k < |q|
    ensures |RotateBy(q, n)| == |q| && RotateBy(q, n)[k] == q[(k + n) % |q|]
    decreases n
  {
    var m := |q|;
    if n == 0 {
      Remainder(k, m, 0, k);
    } else {
      var q' := q[1..] + [q[0]];
      RotateAt(q', n - 1, k);
      var j := (k + n - 1) % m;
      Turn(k + n - 1, m);
      assert q'[j] == q[if j + 1 == m then 0 else j + 1];
    }
  }

  lemma Turn(x: nat, m: nat)
    requires m > 0
    ensures (x + 1) % m == if x % m + 1 == m then 0 else x % m + 1
  {
    var q, r := x / m, x % m;
    if r + 1 == m {
      Distribute(q, 1, m);
      Commute(m, q);
      Commute(m, q + 1);
      Remainder(x + 1, m, q + 1, 0);
    } else {
      Remainder(x + 1, m, q, r + 1);
    }
  }

  lemma {:induction false} RotateOccurs(q: seq<CoreId>, n: nat, d: CoreId)
    ensures Occurs(RotateBy(q, n), d) == Occurs(q, d) && |RotateBy(q, n)| == |q|
    decreases n
  {
    if n > 0 && q != [] {
      RotateOccurs(q[1..] + [q[0]], n - 1, d);
      OccursFirst(q, d);
      OccursAppend(q[1..], q[0], d);
    }
  }

  // ------------------------------------------------------------------------------ the server

  ghost predicate Inv(queues: seq<seq<CoreId>>, status: seq<Status>) {
    && (forall a :: 0 <= a < |queues| ==> InRange(queues[a], |status|))
    && (forall d :: 0 <= d < |status| ==> Total(queues, d) == B(status[d] == Stalled))
  }

  lemma QueueStalled(queues: seq<seq<CoreId>>, status: seq<Status>, a: nat)
    requires Inv(queues, status) && a < |queues|
    ensures AllStalled(status, queues[a])
  {
    forall i | 0 <= i < |queues[a]| ensures status[queues[a][i]] == Stalled && Occurs(queues[a], queues[a][i]) <= 1 {
      OccursIn(queues[a], queues[a][i]);
      InTotal(queues, a, queues[a][i]);
      assert Total(queues, queues[a][i]) == B(status[queues[a][i]] == Stalled);
    }
  }

  /** Waking a prefix of a queue. */
  lemma {:induction false} TakeInv(queues: seq<seq<CoreId>>, status: seq<Status>, a: nat, k: nat)
    requires Inv(queues, status) && a < |queues| && k <= |queues[a]|
    ensures InRange(queues[a][..k], |status|)
    ensures Inv(queues[a := queues[a][k..]], SetAll(status, queues[a][..k], Running))
  {
    var woken, left := queues[a][..k], queues[a := queues[a][k..]];
    var status' := SetAll(status, woken, Running);
    forall d | 0 <= d < |status| ensures Total(left, d) == B(status'[d] == Stalled) {
      TakeTotal(queues, a, k, d);
      SetAllAt(status, woken, Running, d);
      assert Total(queues, d) == B(status[d] == Stalled);
    }
  }

  lemma WaitInv(queues: seq<seq<CoreId>>, status: seq<Status>, a: nat, c: CoreId)
    requires Inv(queues, status) && a < |queues| && c < |status| && status[c] == Running
    ensures Inv(queues[a := queues[a] + [c]], status[c := Stalled])
  {
    var after, status' := queues[a := queues[a] + [c]], status[c := Stalled];
    forall d | 0 <= d < |status| ensures Total(after, d) == B(status'[d] == Stalled) {
      TotalUpdate(queues, a, queues[a] + [c], d);
      OccursAppend(queues[a], c, d);
      assert Total(queues, d) == B(status[d] == Stalled);
    }
  }

  lemma MoveInv(queues: seq<seq<CoreId>>, status: seq<Status>, a: nat, b: nat, k: nat)
    requires Inv(queues, status) && a < |queues| && b < |queues| && a != b && k <= |queues[a]|
    ensures Inv(queues[a := queues[a][k..]][b := queues[b] + queues[a][..k]], status)
  {
    forall d | 0 <= d < |status|
      ensures Total(queues[a := queues[a][k..]][b := queues[b] + queues[a][..k]], d) == B(status[d] == Stalled)
    {
      MoveTotal(queues, a, b, k, d);
      assert Total(queues, d) == B(status[d] == Stalled);
    }
  }

  lemma {:induction false} RotateInRange(q: seq<CoreId>, n: nat, m: nat)
    requires InRange(q, m)
    ensures InRange(RotateBy(q, n), m)
    decreases n
  {
    if n > 0 && q != [] { RotateInRange(q[1..] + [q[0]], n - 1, m); }
  }

  lemma {:induction false} RotateInv(queues: seq<seq<CoreId>>, status: seq<Status>, a: nat, n: nat)
    requires Inv(queues, status) && a < |queues|
    ensures Inv(queues[a := RotateBy(queues[a], n)], status)
  {
    RotateInRange(queues[a], n, |status|);
    forall d | 0 <= d < |status| ensures Total(queues[a := RotateBy(queues[a], n)], d) == B(status[d] == Stalled) {
      TotalUpdate(queues, a, RotateBy(queues[a], n), d);
      RotateOccurs(queues[a], n, d);
      assert Total(queues, d) == B(status[d] == Stalled);
    }
  }

  /** The next core of a queue is still stalled when those before it run again. */
  lemma {:induction false} WakeNext(status: seq<Status>, q: seq<CoreId>, i: nat)
    requires AllStalled(status, q) && i < |q|
    ensures q[..i + 1] == q[..i] + [q[i]] && q[i..][0] == q[i] && q[i..][1..] == q[i + 1..]
    ensures InRange(q[..i + 1], |status|)
    ensures q[i] < |status| && SetAll(status, q[..i], Running)[q[i]] == Stalled
    ensures SetAll(status, q[..i + 1], Running) == SetAll(status, q[..i], Running)[q[i] := Running]
  {
    OccursBefore(q, i);
    SetAllAt(status, q[..i], Running, q[i]);
    SetAllAppend(status, q[..i], q[i], Running);
    assert q[..i + 1] == q[..i] + [q[i]];
  }

  const EWOULDBLOCK: int := 11

  class FutexServer {
    var queues: seq<seq<CoreId>>
    var status: seq<Status>
    var memory: seq<int>

    ghost predicate Valid()
      reads this
    {
      |memory| == |queues| && Inv(queues, status)
    }

    constructor (addresses: nat, cores: nat)
      ensures Valid() && |queues| == addresses && |status| == cores
      ensures forall a :: 0 <= a < addresses ==> queues[a] == []
    {
      queues, status, memory := seq(addresses, _ => []), seq(cores, _ => Running), seq(addresses, _ => 0);
      new;
      forall d: CoreId ensures Total(queues, d) == 0 { NobodyWaits(queues, d); }
    }

    method EnqueueWaiter(a: nat, c: CoreId)
      requires a < |queues| && c < |status| && status[c] == Running
      modifies this`queues, this`status
      ensures queues == old(queues)[a := old(queues[a]) + [c]] && status == old(status)[c := Stalled]
    {
      status := status[c := Stalled];
      queues := queues[a := queues[a] + [c]];
    }

    method DequeueWaiter(a: nat) returns (c: Option<CoreId>)
      requires a < |queues| && (queues[a] != [] ==> queues[a][0] < |status| && status[queues[a][0]] == Stalled)
      modifies this`queues, this`status
      ensures c == None <==> old(queues[a]) == []
      ensures c == None ==> queues == old(queues) && status == old(status)
      ensures c.Some? ==>
        && c.value == old(queues[a][0]) && queues == old(queues)[a := old(queues[a])[1..]]
        && status == old(status)[c.value := Running]
    {
      if queues[a] == [] { return None; }
      c := Some(queues[a][0]);
      queues := queues[a := queues[a][1..]];
      status := status[c.value := Running];
    }

    /** Returns the cores that are woken, front first; each of them is sent an answer. */
    method WakeUp(a: nat, val: int) returns (woken: seq<CoreId>)
      requires Valid() && a < |queues|
      modifies this`queues, this`status
      ensures Valid() && woken == old(queues[a])[..Count(val, |old(queues[a])|)]
      ensures queues == old(queues)[a := old(queues[a])[|woken|..]]
      ensures InRange(woken, |old(status)|) && status == SetAll(old(status), woken, Running)
    {
      woken := [];
      ghost var q := queues[a];
      QueueStalled(queues, status, a);
      var i := 0;
      while i < val
        invariant 0 <= i <= |q| && i <= (if val < 0 then 0 else val)
        invariant woken == q[..i] && InRange(q[..i], |old(status)|)
        invariant queues == old(queues)[a := q[i..]] && status == SetAll(old(status), q[..i], Running)
      {
        if i < |q| { WakeNext(old(status), q, i); }
        var c := DequeueWaiter(a);
        if c == None { break; }
        woken := woken + [c.value];
        i := i + 1;
      }
      TakeInv(old(queues), old(status), a, |woken|);
    }

    /** Returns the answer, or nothing when the core has to wait. */
    method FutexWait(c: CoreId, a: nat, val: int) returns (answer: Option<int>)
      requires Valid() && a < |queues| && c < |status| && status[c] == Running
      modifies this`queues, this`status
      ensures Valid()
      ensures val != memory[a] ==> answer == Some(-EWOULDBLOCK) && queues == old(queues) && status == old(status)
      ensures val == memory[a] ==>
        answer == None && queues == old(queues)[a := old(queues[a]) + [c]] && status == old(status)[c := Stalled]
    {
      if val != memory[a] { return Some(-EWOULDBLOCK); }
      WaitInv(queues, status, a, c);
      EnqueueWaiter(a, c);
      return None;
    }

    method FutexWake(a: nat, val: int) returns (answer: int, woken: seq<CoreId>)
      requires Valid() && a < |queues|
      modifies this`queues, this`status
      ensures Valid() && answer == |woken| == Count(val, |old(queues[a])|) && woken == old(queues[a])[..answer]
      ensures queues == old(queues)[a := old(queues[a])[answer..]]
      ensures forall d: CoreId :: Total(queues, d) + Occurs(woken, d) == Total(old(queues), d)
    {
      woken := WakeUp(a, val);
      answer := |woken|;
      forall d: CoreId
        ensures Total(queues, d) + Occurs(woken, d) == Total(old(queues), d)
      {
        TakeTotal(old(queues), a, |woken|, d);
      }
    }

    /** The new value and the comparison are computed from the operand by the caller. */
    method FutexWakeOp(a: nat, val1: int, val2: int, b: nat, newValue: int, condition: bool)
      returns (answer: int, woken: seq<CoreId>)
      requires Valid() && a < |queues| && b < |queues|
      modifies this
      ensures Valid() && memory == old(memory)[b := newValue] && answer == |woken|
      ensures forall d: CoreId :: Total(queues, d) + Occurs(woken, d) == Total(old(queues), d)
      ensures var n := Count(val1, |old(queues[a])|);
        var left := old(queues)[a := old(queues[a])[n..]];
        var n' := if condition then Count(val2, |left[b]|) else 0;
        woken == old(queues[a])[..n] + left[b][..n'] && queues == left[b := left[b][n'..]]
    {
      memory := memory[b := newValue];
      woken := WakeUp(a, val1);
      answer := |woken|;
      ghost var first, qs := woken, queues;
      forall d: CoreId
        ensures Total(queues, d) + Occurs(woken, d) == Total(old(queues), d)
      {
        TakeTotal(old(queues), a, |first|, d);
      }
      if condition {
        var more := WakeUp(b, val2);
        answer := answer + |more|;
        woken := woken + more;
        forall d: CoreId ensures Total(queues, d) + Occurs(woken, d) == Total(old(queues), d) {
          TakeTotal(qs, b, |more|, d);
          OccursConcat(first, more, d);
        }
      }
    }

    /** Move waiters one by one; returns how many moves were made. */
    method Requeue(a: nat, b: nat, val: int) returns (moved: nat)
      requires Valid() && a < |queues| && b < |queues|
      modifies this`queues, this`status
      ensures Valid() && status == old(status)
      ensures a != b ==> moved == Count(val, |old(queues[a])|) && queues == Shifted(old(queues), a, b, moved)
      ensures a == b ==>
        && moved == (if old(queues[a]) == [] || val < 0 then 0 else val)
        && queues == old(queues)[a := RotateBy(old(queues[a]), moved)]
    {
      moved := 0;
      NoShift(queues, a, b);
      while moved < val
        invariant moved <= (if val < 0 then 0 else val) && Valid() && status == old(status) && |queues| == |old(queues)|
        invariant a != b ==> moved <= |old(queues[a])| && queues == Shifted(old(queues), a, b, moved)
        invariant a == b ==> queues == old(queues)[a := RotateBy(old(queues[a]), moved)]
        invariant old(queues[a]) == [] ==> moved == 0
      {
        QueueStalled(queues, status, a);
        MoveOneInv(queues, status, a, b);
        ShiftOne(old(queues), a, b, moved);
        var c := DequeueWaiter(a);
        if c == None { break; }
        EnqueueWaiter(b, c.value);
        moved := moved + 1;
      }
    }

    method FutexCmpRequeue(a: nat, val1: int, val2: int, b: nat, val3: int) returns (answer: int, woken: seq<CoreId>)
      requires Valid() && a < |queues| && b < |queues|
      modifies this`queues, this`status
      ensures Valid()
      ensures val3 != memory[a] ==>
        answer == EWOULDBLOCK && woken == [] && queues == old(queues) && status == old(status)
      ensures val3 == memory[a] ==> woken == old(queues[a])[..Count(val1, |old(queues[a])|)]
      ensures val3 == memory[a] && a != b ==>
        var left := old(queues[a])[|woken|..];
        var k := Count(val2, |left|);
        answer == |woken| + k && queues == old(queues)[a := left[k..]][b := old(queues[b]) + left[..k]]
      ensures val3 == memory[a] && a == b ==>
        var left := old(queues[a])[|woken|..];
        var k := if left == [] || val2 < 0 then 0 else val2;
        answer == |woken| + k && queues == old(queues)[a := RotateBy(left, k)]
    {
      woken := [];
      if val3 != memory[a] { return EWOULDBLOCK, []; }
      woken := WakeUp(a, val1);
      var moved := Requeue(a, b, val2);
      answer := |woken| + moved;
    }
  }

  lemma {:induction false} NobodyWaits(queues: seq<seq<CoreId>>, d: CoreId)
    requires forall a :: 0 <= a < |queues| ==> queues[a] == []
    ensures Total(queues, d) == 0
  {
    if queues == [] {
    } else {
      NobodyWaits(queues[..|queues| - 1], d);
    }
  }

  /** The first k waiters of one queue at the end of another. */
  function Shifted(queues: seq<seq<CoreId>>, a: nat, b: nat, k: nat): seq<seq<CoreId>>
    requires a < |queues| && b < |queues| && k <= |queues[a]|
  {
    queues[a := queues[a][k..]][b := queues[b] + queues[a][..k]]
  }

  lemma NoShift(queues: seq<seq<CoreId>>, a: nat, b: nat)
    requires a < |queues| && b < |queues|
    ensures a != b ==> queues == Shifted(queues, a, b, 0)
    ensures queues == queues[a := RotateBy(queues[a], 0)]
  {
    assert queues[a][0..] == queues[a] && queues[b] + queues[a][..0] == queues[b];
  }

  lemma {:induction false} RotateStep(q: seq<CoreId>, n: nat)
    requires q != []
    ensures RotateBy(q, n) != [] && RotateBy(q, n + 1) == RotateBy(q, n)[1..] + [RotateBy(q, n)[0]]
    decreases n
  {
    if n == 0 {
    } else {
      RotateStep(q[1..] + [q[0]], n - 1);
    }
  }

  /** One more waiter taken from the front and appended. */
  lemma ShiftOne(queues: seq<seq<CoreId>>, a: nat, b: nat, k: nat)
    requires a < |queues| && b < |queues|
    ensures a != b && k < |queues[a]| ==>
      var qs := Shifted(queues, a, b, k);
      qs[a] != [] && qs[a := qs[a][1..]][b := qs[b] + [qs[a][0]]] == Shifted(queues, a, b, k + 1)
    ensures a == b && queues[a] != [] ==>
      var q := RotateBy(queues[a], k);
      q != [] && queues[a := q][a := q[1..]][a := q[1..] + [q[0]]] == queues[a := RotateBy(queues[a], k + 1)]
  {
    if a != b && k < |queues[a]| {
      assert queues[a][k..][1..] == queues[a][k + 1..] && queues[a][..k + 1] == queues[a][..k] + [queues[a][k]];
      assert queues[b] + queues[a][..k] + [queues[a][k]] == queues[b] + queues[a][..k + 1];
    }
    if a == b && queues[a] != [] { RotateStep(queues[a], k); }
  }

  lemma MoveOneInv(queues: seq<seq<CoreId>>, status: seq<Status>, a: nat, b: nat)
    requires Inv(queues, status) && a < |queues| && b < |queues|
    ensures queues[a] != [] ==>
      var rest := queues[a := queues[a][1..]];
      Inv(rest[b := rest[b] + [queues[a][0]]], status)
  {
    if queues[a] != [] {
      if a == b {
        RotateInv(queues, status, a, 1);
        assert RotateBy(queues[a], 1) == queues[a][1..] + [queues[a][0]];
        assert queues[a := queues[a][1..]][a := queues[a][1..] + [queues[a][0]]] == queues[a := RotateBy(queues[a], 1)];
      } else {
        MoveInv(queues, status, a, b, 1);
        assert queues[a][..1] == [queues[a][0]];
      }
    }
  }
}
