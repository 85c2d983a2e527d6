/** Tagged messages between processes: each sender writes length, tag and payload to its socket, the
    update thread of the receiving process takes the bytes in pieces of any size and puts the
    payloads into one list per tag, and receivers take them out. Seen from one process; the last
    sender index stands for messages inside this process, which go straight to a list. */
module TaggedStream {
  import opened Basics
  import opened TaggedFrames
  import opened Words

  datatype Item = Item(source: nat, data: seq<byte>)

  datatype Mode = Reading | Signalling(list: nat) | Exited | Failed     // stopped by a failed assertion

  datatype State = State(
    streams: seq<seq<byte>>,      // bytes sent by each process and not yet taken
    cur: nat,                     // the socket the update thread is at
    got: seq<byte>,               // what it has taken of the current message
    mode: Mode,
    lists: seq<seq<Item>>,        // a list per tile, and the last one for the global node
    sems: seq<nat>,
    claimed: seq<nat>,            // receivers past the semaphore of a list
    local: seq<nat>,              // senders inside this process between push and signal
    barrier: nat,
    sent: seq<seq<Msg>>,          // all messages of each sender
    done: seq<nat>,               // how many of them have been dealt with
    popped: seq<seq<Item>>)       // what receivers have taken

  // ---------------------------------------------------------------------------------- steps

  datatype Step =
    | Send(sender: nat, msg: Msg)           // a process writes a message to its socket
    | SendLocal(msg: Msg) | SignalLocal(to: nat)
    | Skip                                  // nothing available on this socket now
    | Chunk(bytes: nat)                     // one receive call returns some bytes
    | Deliver | Signal
    | Claim(from: nat) | Pop(from: nat)     // a receiver passes the semaphore, then takes the front

  function ListOf(s: State, tag: int): int { if tag == GLOBAL_TAG then |s.lists| - 1 else tag }

  function Push(s: State, list: nat, item: Item): State
    requires list < |s.lists|
  {
    s.(lists := s.lists[list := s.lists[list] + [item]])
  }

  ghost predicate Sized(s: State) {
    && |s.lists| == |s.sems| == |s.claimed| == |s.local| == |s.popped| && 0 < |s.lists| <= HALF
    && |s.sent| == |s.done| == |s.streams| + 1 && s.cur < |s.streams|
  }

  ghost predicate Enabled(s: State, a: Step) {
    && Sized(s)
    && match a
       case Send(i, m) => i < |s.streams| && Sendable(m, |s.lists|)
       case SendLocal(m) => Sendable(m, |s.lists|) && m.tag != BARRIER_TAG && m.tag != TERMINATE_TAG
       case SignalLocal(l) => l < |s.lists| && s.local[l] > 0
       case Skip => s.mode == Reading && s.got == []
       case Chunk(n) => s.mode == Reading && 0 < n <= |s.streams[s.cur]| && |s.got| + n <= Boundary(s.got)
       case Deliver => s.mode == Reading && Complete(s.got)
       case Signal => s.mode.Signalling? && s.mode.list < |s.lists|
       case Claim(l) => l < |s.lists| && s.sems[l] > 0
       case Pop(l) => l < |s.lists| && s.claimed[l] > 0
  }

  /** A complete message is counted for the barrier, ends the update thread, or goes to a list. */
  function Delivered(s: State): State
    requires Complete(s.got) && s.cur < |s.done|
  {
    var m := Decode(s.got);
    var s' := s.(got := [], done := s.done[s.cur := s.done[s.cur] + 1]);
    if m.tag == TERMINATE_TAG then s'.(mode := Exited)
    else if m.tag == BARRIER_TAG then s'.(barrier := s.barrier + 1)
    else if 0 <= ListOf(s, m.tag) < |s.lists| then
      Push(s', ListOf(s, m.tag), Item(s.cur, m.data)).(mode := Signalling(ListOf(s, m.tag)))
    else s'.(mode := Failed)
  }

  ghost function Next(s: State, a: Step): State
    requires Enabled(s, a)
  {
    match a
    case Send(i, m) =>
      s.(streams := s.streams[i := s.streams[i] + Frame(m)], sent := s.sent[i := s.sent[i] + [m]])
    case SendLocal(m) =>
      var n, l := |s.streams|, ListOf(s, m.tag);
      Push(s, l, Item(n, m.data)).(local := s.local[l := s.local[l] + 1], sent := s.sent[n := s.sent[n] + [m]],
                                   done := s.done[n := s.done[n] + 1])
    case SignalLocal(l) => s.(local := s.local[l := s.local[l] - 1], sems := s.sems[l := s.sems[l] + 1])
    case Skip => s.(cur := if s.cur + 1 == |s.streams| then 0 else s.cur + 1)
    case Chunk(n) =>
      s.(got := s.got + s.streams[s.cur][..n], streams := s.streams[s.cur := s.streams[s.cur][n..]])
    case Deliver => Delivered(s)
    case Signal => s.(mode := Reading, sems := s.sems[s.mode.list := s.sems[s.mode.list] + 1])
    case Claim(l) => s.(sems := s.sems[l := s.sems[l] - 1], claimed := s.claimed[l := s.claimed[l] + 1])
    case Pop(l) =>
      if s.lists[l] == [] then s.(mode := Failed)
      else s.(claimed := s.claimed[l := s.claimed[l] - 1], lists := s.lists[l := s.lists[l][1..]],
              popped := s.popped[l := s.popped[l] + [s.lists[l][0]]])
  }

  // ------------------------------------------------------------------------------- invariant

  /** The payloads in a list that come from one sender, in order. */
  function From(items: seq<Item>, i: nat): seq<seq<byte>> {
    if items == [] then []
    else
      var last := items[|items| - 1];
      From(items[..|items| - 1], i) + if last.source == i then [last.data] else []
  }

  /** The payloads of a sender's messages for one list, in order. */
  function To(msgs: seq<Msg>, l: nat, lists: nat): seq<seq<byte>> {
    if msgs == [] then []
    else
      var m := msgs[|msgs| - 1];
      To(msgs[..|msgs| - 1], l, lists) +
      if m.tag == l || (m.tag == GLOBAL_TAG && l == lists - 1) then [m.data] else []
  }

  /** What is left of a sender's messages is what was taken of the current one and what is still
      in the socket. */
  ghost predicate StreamInv(s: State, i: nat)
    requires Sized(s) && i <= |s.streams|
  {
    && (forall k :: 0 <= k < |s.sent[i]| ==> Sendable(s.sent[i][k], |s.lists|))
    && s.done[i] <= |s.sent[i]|
    && (if i == |s.streams| then s.done[i] == |s.sent[i]|
        else Frames(s.sent[i][s.done[i]..], |s.lists|) == (if s.cur == i then s.got else []) + s.streams[i])
  }

  ghost predicate ListInv(s: State, l: nat)
    requires Sized(s) && l < |s.lists|
  {
    |s.lists[l]| == s.sems[l] + s.claimed[l] + s.local[l] + B(s.mode == Signalling(l))
  }

  ghost predicate OrderInv(s: State, i: nat, l: nat)
    requires Sized(s) && l < |s.lists| && i < |s.sent|
  {
    s.done[i] <= |s.sent[i]| && From(s.popped[l] + s.lists[l], i) == To(s.sent[i][..s.done[i]], l, |s.lists|)
  }

  /** No more has been taken than the message is long. */
  ghost predicate PartInv(s: State) {
    s.got == [] || (|s.got| < 4 || |s.got| <= Boundary(s.got))
  }

  ghost predicate Inv(s: State) {
    && Sized(s) && PartInv(s) && (s.mode != Reading ==> s.got == []) && s.mode != Failed
    && (s.mode.Signalling? ==> s.mode.list < |s.lists|)
    && (forall i :: 0 <= i <= |s.streams| ==> StreamInv(s, i))
    && (forall l :: 0 <= l < |s.lists| ==> ListInv(s, l))
    && (forall i, l :: 0 <= i < |s.sent| && 0 <= l < |s.lists| ==> OrderInv(s, i, l))
  }

  lemma {:induction false} FromAppend(items: seq<Item>, x: Item, i: nat)
    ensures From(items + [x], i) == From(items, i) + if x.source == i then [x.data] else []
  {
    assert (items + [x])[..|items|] == items;
  }

  lemma {:induction false} ToAppend(msgs: seq<Msg>, m: Msg, l: nat, lists: nat)
    ensures To(msgs + [m], l, lists) ==
            To(msgs, l, lists) + if m.tag == l || (m.tag == GLOBAL_TAG && l == lists - 1) then [m.data] else []
  {
    assert (msgs + [m])[..|msgs|] == msgs;
  }

  lemma SendStream(s: State, a: Step, j: nat)
    requires Inv(s) && a.Send? && Enabled(s, a) && j <= |s.streams|
    ensures Sized(Next(s, a)) && |Next(s, a).streams| == |s.streams| && StreamInv(Next(s, a), j)
  {
    assert StreamInv(s, j);
    if j == a.sender {
      assert Next(s, a).sent[j][s.done[j]..] == s.sent[j][s.done[j]..] + [a.msg];
      FramesAppend(s.sent[j][s.done[j]..], a.msg, |s.lists|);
    }
  }

  lemma SendInv(s: State, a: Step)
    requires Inv(s) && a.Send? && Enabled(s, a)
    ensures Inv(Next(s, a))
  {
    var s' := Next(s, a);
    forall j | 0 <= j <= |s.streams| ensures StreamInv(s', j) { SendStream(s, a, j); }
    forall j, l | 0 <= j < |s.sent| && 0 <= l < |s.lists| ensures OrderInv(s', j, l) {
      assert OrderInv(s, j, l);
      assert s'.sent[j][..s.done[j]] == s.sent[j][..s.done[j]];
    }
    forall l | 0 <= l < |s.lists| ensures ListInv(s', l) { assert ListInv(s, l); }
  }

  /** An item that came from somebody else, or no item. */
  lemma {:induction false} FromSame(before: seq<Item>, more: seq<Item>, j: nat)
    requires more == [] || (|more| == 1 && more[0].source != j)
    ensures From(before + more, j) == From(before, j)
  {
    if more == [] {
      assert before + more == before;
    } else {
      FromAppend(before, more[0], j);
      assert more == [more[0]];
    }
  }

  /** What a list got and what its sender wrote for it grow together. */
  lemma {:induction false} GrowTogether(before: seq<Item>, told: seq<Msg>, i: nat, m: Msg, l: nat, lists: nat,
                                        dest: int)
    requires From(before, i) == To(told, l, lists) && l < lists
    requires dest == if m.tag == GLOBAL_TAG then lists - 1 else m.tag
    ensures From(before + (if dest == l then [Item(i, m.data)] else []), i) == To(told + [m], l, lists)
  {
    ToAppend(told, m, l, lists);
    if dest == l {
      FromAppend(before, Item(i, m.data), i);
    } else {
      FromSame(before, [], i);
    }
  }

  /** One more message of a sender is dealt with, and its payload, if it has a list, is pushed. */
  lemma PushOrder(s: State, s': State, i: nat, m: Msg, j: nat, l: nat)
    requires Sized(s) && Sized(s') && |s'.lists| == |s.lists| && |s'.sent| == |s.sent|
    requires i < |s.sent| && j < |s.sent| && l < |s.lists|
    requires OrderInv(s, j, l) && s'.popped == s.popped && s'.done == s.done[i := s.done[i] + 1]
    requires s'.done[j] <= |s'.sent[j]|
    requires s'.sent[j][..s'.done[j]] == s.sent[j][..s.done[j]] + if j == i then [m] else []
    requires var dest := ListOf(s, m.tag);
      s'.lists[l] == s.lists[l] + if dest == l then [Item(i, m.data)] else []
    ensures OrderInv(s', j, l)
  {
    var before, told := s.popped[l] + s.lists[l], s.sent[j][..s.done[j]];
    var more := if ListOf(s, m.tag) == l then [Item(i, m.data)] else [];
    assert s'.popped[l] + s'.lists[l] == before + more;
    if j == i {
      GrowTogether(before, told, i, m, l, |s.lists|, ListOf(s, m.tag));
    } else {
      FromSame(before, more, j);
      assert told + [] == told;
    }
  }

  lemma SendLocalInv(s: State, a: Step)
    requires Inv(s) && a.SendLocal? && Enabled(s, a)
    ensures Inv(Next(s, a))
  {
    var s', n, m := Next(s, a), |s.streams|, a.msg;
    assert StreamInv(s, n);
    forall j | 0 <= j <= n ensures StreamInv(s', j) { assert StreamInv(s, j); }
    forall l | 0 <= l < |s.lists| ensures ListInv(s', l) { assert ListInv(s, l); }
    forall j, l | 0 <= j < |s.sent| && 0 <= l < |s.lists| ensures OrderInv(s', j, l) {
      assert OrderInv(s, j, l);
      if j == n { assert s'.sent[j][..s'.done[j]] == s.sent[j][..s.done[j]] + [m]; }
      PushOrder(s, s', n, m, j, l);
    }
  }

  lemma ChunkInv(s: State, a: Step)
    requires Inv(s) && a.Chunk? && Enabled(s, a)
    ensures Inv(Next(s, a))
  {
    var s', i, n := Next(s, a), s.cur, a.bytes;
    assert s.got + s.streams[i] == s'.got + s'.streams[i];
    if |s.got| >= 4 { assert s'.got[..4] == s.got[..4]; }
    forall j | 0 <= j <= |s.streams| ensures StreamInv(s', j) { assert StreamInv(s, j); }
    forall l | 0 <= l < |s.lists| ensures ListInv(s', l) { assert ListInv(s, l); }
    forall j, l | 0 <= j < |s.sent| && 0 <= l < |s.lists| ensures OrderInv(s', j, l) { assert OrderInv(s, j, l); }
  }

  /** The message that was taken is the next one its sender wrote. */
  lemma DeliversNext(s: State)
    requires Inv(s) && Complete(s.got)
    ensures s.done[s.cur] < |s.sent[s.cur]| && Decode(s.got) == s.sent[s.cur][s.done[s.cur]]
    ensures Sendable(Decode(s.got), |s.lists|)
    ensures forall k :: 0 <= k < |s.sent[s.cur]| ==> Sendable(s.sent[s.cur][k], |s.lists|)
    ensures Frames(s.sent[s.cur][s.done[s.cur] + 1..], |s.lists|) == s.streams[s.cur]
  {
    var i := s.cur;
    assert StreamInv(s, i);
    var left := s.sent[i][s.done[i]..];
    assert left != [];
    assert left[1..] == s.sent[i][s.done[i] + 1..];
    DecodeNext(left[0], Frames(left[1..], |s.lists|), s.got, s.streams[i], |s.lists|);
  }

  lemma DeliverOrder(s: State, j: nat, l: nat)
    requires Inv(s) && Complete(s.got) && j < |s.sent| && l < |s.lists|
    ensures Sized(Delivered(s)) && |Delivered(s).lists| == |s.lists|
    ensures |Delivered(s).sent| == |s.sent| && OrderInv(Delivered(s), j, l)
  {
    DeliversNext(s);
    var s', m := Delivered(s), Decode(s.got);
    assert OrderInv(s, j, l);
    if j == s.cur { assert s'.sent[j][..s'.done[j]] == s.sent[j][..s.done[j]] + [m]; }
    PushOrder(s, s', s.cur, m, j, l);
  }

  lemma DeliverInv(s: State, a: Step)
    requires Inv(s) && a.Deliver? && Enabled(s, a)
    ensures Inv(Next(s, a))
  {
    var s' := Next(s, a);
    DeliversNext(s);
    forall j | 0 <= j <= |s.streams| ensures StreamInv(s', j) { assert StreamInv(s, j); }
    forall l | 0 <= l < |s.lists| ensures ListInv(s', l) { assert ListInv(s, l); }
    forall j, l | 0 <= j < |s.sent| && 0 <= l < |s.lists| ensures OrderInv(s', j, l) { DeliverOrder(s, j, l); }
  }

  lemma PopInv(s: State, a: Step)
    requires Inv(s) && a.Pop? && Enabled(s, a)
    ensures Inv(Next(s, a)) && s.lists[a.from] != []
  {
    var s', x := Next(s, a), a.from;
    assert ListInv(s, x);
    forall j | 0 <= j <= |s.streams| ensures StreamInv(s', j) { assert StreamInv(s, j); }
    forall l | 0 <= l < |s.lists| ensures ListInv(s', l) { assert ListInv(s, l); }
    assert s'.popped[x] + s'.lists[x] == s.popped[x] + s.lists[x];
    forall j, l | 0 <= j < |s.sent| && 0 <= l < |s.lists| ensures OrderInv(s', j, l) { assert OrderInv(s, j, l); }
  }

  lemma QuietInv(s: State, a: Step)
    requires Inv(s) && Enabled(s, a) && (a.SignalLocal? || a.Skip? || a.Signal? || a.Claim?)
    ensures Inv(Next(s, a))
  {
    var s' := Next(s, a);
    forall j | 0 <= j <= |s.streams| ensures StreamInv(s', j) { assert StreamInv(s, j); }
    forall l | 0 <= l < |s.lists| ensures ListInv(s', l) { assert ListInv(s, l); }
    forall j, l | 0 <= j < |s.sent| && 0 <= l < |s.lists| ensures OrderInv(s', j, l) { assert OrderInv(s, j, l); }
  }

  lemma StepInv(s: State, a: Step)
    requires Inv(s) && Enabled(s, a)
    ensures Inv(Next(s, a))
  {
    match a
    case Send(_, _) => SendInv(s, a);
    case SendLocal(_) => SendLocalInv(s, a);
    case Chunk(_) => ChunkInv(s, a);
    case Deliver => DeliverInv(s, a);
    case Pop(_) => PopInv(s, a);
    case _ => QuietInv(s, a);
  }

  // ----------------------------------------------------------------------------------- runs

  function Initial(procs: nat, lists: nat): State
    requires procs > 0
  {
    State(seq(procs, _ => []), 0, [], Reading, seq(lists, _ => []),
          seq(lists, _ => 0), seq(lists, _ => 0), seq(lists, _ => 0), 0,
          seq(procs + 1, _ => []), seq(procs + 1, _ => 0), seq(lists, _ => []))
  }

  lemma InitialInv(procs: nat, lists: nat)
    requires procs > 0 && 0 < lists <= HALF
    ensures Inv(Initial(procs, lists))
  {
    var s := Initial(procs, lists);
    forall j | 0 <= j <= procs ensures StreamInv(s, j) {}
    forall j, l | 0 <= j <= procs && 0 <= l < lists ensures OrderInv(s, j, l) { assert s.popped[l] + s.lists[l] == []; }
  }

  ghost predicate IsRun(s: State, run: seq<Step>)
    decreases |run|
  {
    run == [] || (Enabled(s, run[0]) && IsRun(Next(s, run[0]), run[1..]))
  }

  ghost function After(s: State, run: seq<Step>): State
    requires IsRun(s, run)
    decreases |run|
  {
    if run == [] then s else After(Next(s, run[0]), run[1..])
  }

  lemma {:induction false} RunInv(s: State, run: seq<Step>)
    requires Inv(s) && IsRun(s, run)
    ensures Inv(After(s, run))
    decreases |run|
  {
    if run == [] {
    } else {
      StepInv(s, run[0]);
      RunInv(Next(s, run[0]), run[1..]);
    }
  }

  lemma StepSizes(s: State, a: Step)
    requires Inv(s) && Enabled(s, a)
    ensures var s' := Next(s, a);
      |s'.sent| == |s.sent| && |s'.lists| == |s.lists| && |s'.streams| == |s.streams|
  {
  }

  lemma {:induction false} RunSizes(s: State, run: seq<Step>)
    requires Inv(s) && IsRun(s, run)
    ensures var s' := After(s, run);
      |s'.sent| == |s.sent| && |s'.lists| == |s.lists| && |s'.streams| == |s.streams|
    decreases |run|
  {
    if run == [] {
    } else {
      StepInv(s, run[0]);
      StepSizes(s, run[0]);
      RunSizes(Next(s, run[0]), run[1..]);
    }
  }

  /** A state that a run from the start reaches. */
  lemma Reached(procs: nat, lists: nat, run: seq<Step>) returns (s: State)
    requires procs > 0 && 0 < lists <= HALF && IsRun(Initial(procs, lists), run)
    ensures s == After(Initial(procs, lists), run) && Inv(s)
    ensures |s.sent| == |s.done| == procs + 1 && |s.streams| == procs && |s.lists| == |s.popped| == lists
  {
    s := After(Initial(procs, lists), run);
    InitialInv(procs, lists);
    RunInv(Initial(procs, lists), run);
    RunSizes(Initial(procs, lists), run);
  }

  /** Whatever the interleaving and however the streams are cut: what a list has received from a
      sender is, in order, what the first of its messages for this list carried; and it is all of
      them once the sender's bytes have been taken. */
  lemma {:induction false} Delivery(procs: nat, lists: nat, run: seq<Step>, i: nat, l: nat)
    requires procs > 0 && 0 < lists <= HALF && IsRun(Initial(procs, lists), run) && i <= procs && l < lists
    ensures var s := After(Initial(procs, lists), run);
      && |s.sent| == |s.done| == procs + 1 && |s.streams| == procs && |s.lists| == |s.popped| == lists
      && s.done[i] <= |s.sent[i]|
      && From(s.popped[l] + s.lists[l], i) == To(s.sent[i][..s.done[i]], l, lists)
      && (i == procs || (s.streams[i] == [] && (s.cur != i || s.got == [])) ==> s.done[i] == |s.sent[i]|)
  {
    var s := Reached(procs, lists, run);
    assert OrderInv(s, i, l) && StreamInv(s, i);
    if i < procs && s.streams[i] == [] && (s.cur != i || s.got == []) {
      NothingLeft(s.sent[i][s.done[i]..], lists);
    }
  }

  lemma {:induction false} NothingLeft(msgs: seq<Msg>, lists: nat)
    requires forall k :: 0 <= k < |msgs| ==> Sendable(msgs[k], lists)
    ensures msgs != [] ==> |Frames(msgs, lists)| >= 8
  {
    if msgs != [] { assert |Frames(msgs, lists)| >= |Frame(msgs[0])|; }
  }

  /** A receiver past the semaphore finds its list filled, and no assertion of the update thread
      fails. */
  lemma {:induction false} NeverEmptyHanded(procs: nat, lists: nat, run: seq<Step>, l: nat)
    requires procs > 0 && 0 < lists <= HALF && IsRun(Initial(procs, lists), run) && l < lists
    ensures var s := After(Initial(procs, lists), run);
      && |s.claimed| == |s.lists| == lists && s.claimed[l] <= |s.lists[l]| && s.mode != Failed
  {
    var s := Reached(procs, lists, run);
    assert ListInv(s, l);
  }

  // ------------------------------------------------------------- barrier tokens and the last message

  function Tagged(msgs: seq<Msg>, tag: int): nat {
    if msgs == [] then 0 else Tagged(msgs[..|msgs| - 1], tag) + B(msgs[|msgs| - 1].tag == tag)
  }

  lemma {:induction false} TaggedAppend(msgs: seq<Msg>, m: Msg, tag: int)
    ensures Tagged(msgs + [m], tag) == Tagged(msgs, tag) + B(m.tag == tag)
  {
    assert (msgs + [m])[..|msgs|] == msgs;
  }

  /** The messages of a sender that have been dealt with. */
  function DoneOf(s: State, i: nat): seq<Msg> {
    if i < |s.sent| && i < |s.done| && s.done[i] <= |s.sent[i]| then s.sent[i][..s.done[i]] else []
  }

  /** How many messages with a tag have been dealt with, over the first n senders. */
  function Dealt(s: State, n: nat, tag: int): nat {
    if n == 0 then 0 else Dealt(s, n - 1, tag) + Tagged(DoneOf(s, n - 1), tag)
  }

  lemma {:induction false} DealtSame(s: State, s': State, n: nat, tag: int)
    requires forall i :: 0 <= i < n ==> DoneOf(s', i) == DoneOf(s, i)
    ensures Dealt(s', n, tag) == Dealt(s, n, tag)
  {
    if n == 0 {
    } else {
      DealtSame(s, s', n - 1, tag);
    }
  }

  lemma {:induction false} DealtOneMore(s: State, s': State, n: nat, tag: int, c: nat, m: Msg)
    requires c < n && DoneOf(s', c) == DoneOf(s, c) + [m]
    requires forall i :: 0 <= i < n && i != c ==> DoneOf(s', i) == DoneOf(s, i)
    ensures Dealt(s', n, tag) == Dealt(s, n, tag) + B(m.tag == tag)
  {
    if c == n - 1 {
      DealtSame(s, s', n - 1, tag);
      TaggedAppend(DoneOf(s, c), m, tag);
    } else {
      DealtOneMore(s, s', n - 1, tag, c, m);
    }
  }

  /** Every barrier token that arrived was counted, and the update thread has ended if and only if it
      took the message that ends it, after which it took none. */
  ghost predicate TagInv(s: State) {
    && s.barrier == Dealt(s, |s.streams|, BARRIER_TAG)
    && Dealt(s, |s.streams|, TERMINATE_TAG) == B(s.mode == Exited)
    && (s.mode == Exited ==>
          var last := DoneOf(s, s.cur); s.cur < |s.streams| && last != [] && last[|last| - 1].tag == TERMINATE_TAG)
  }

  /** What a step does to the messages dealt with, the counter and the end of the update thread. */
  lemma TagEffects(s: State, a: Step, i: nat)
    requires Inv(s) && Enabled(s, a) && !a.Deliver? && i < |s.streams|
    ensures var s' := Next(s, a);
      && |s'.streams| == |s.streams| && s'.barrier == s.barrier && DoneOf(s', i) == DoneOf(s, i)
      && (s'.mode == Exited <==> s.mode == Exited) && (s.mode == Exited ==> s'.cur == s.cur)
  {
    assert StreamInv(s, i);
    if a.Pop? { PopInv(s, a); }
  }

  lemma QuietTags(s: State, a: Step)
    requires Inv(s) && TagInv(s) && Enabled(s, a) && !a.Deliver?
    ensures TagInv(Next(s, a))
  {
    var s', n := Next(s, a), |s.streams|;
    forall i | 0 <= i < n ensures DoneOf(s', i) == DoneOf(s, i) { TagEffects(s, a, i); }
    TagEffects(s, a, 0);
    DealtSame(s, s', n, BARRIER_TAG);
    DealtSame(s, s', n, TERMINATE_TAG);
  }

  lemma DeliverTags(s: State)
    requires Inv(s) && TagInv(s) && Enabled(s, Deliver)
    ensures TagInv(Next(s, Deliver))
  {
    var s', n, c, m := Next(s, Deliver), |s.streams|, s.cur, Decode(s.got);
    DeliversNext(s);
    assert DoneOf(s', c) == DoneOf(s, c) + [m];
    DealtOneMore(s, s', n, BARRIER_TAG, c, m);
    DealtOneMore(s, s', n, TERMINATE_TAG, c, m);
  }

  lemma {:induction false} RunTags(s: State, run: seq<Step>)
    requires Inv(s) && TagInv(s) && IsRun(s, run)
    ensures TagInv(After(s, run))
    decreases |run|
  {
    if run == [] {
    } else {
      StepInv(s, run[0]);
      if run[0].Deliver? { DeliverTags(s); } else { QuietTags(s, run[0]); }
      RunTags(Next(s, run[0]), run[1..]);
    }
  }

  lemma {:induction false} InitialTags(procs: nat, lists: nat, n: nat, tag: int)
    requires procs > 0 && n <= procs
    ensures Dealt(Initial(procs, lists), n, tag) == 0
  {
    if n == 0 {
    } else {
      InitialTags(procs, lists, n - 1, tag);
      assert DoneOf(Initial(procs, lists), n - 1) == [];
    }
  }

  /** In every reachable state the semaphore of the barrier has been signalled once for each barrier
      token among the messages dealt with, whoever sent it; the update thread has ended if and only if
      a message to end it is among them, and that one is the last it took. */
  lemma {:induction false} TokensCounted(procs: nat, lists: nat, run: seq<Step>)
    requires procs > 0 && 0 < lists <= HALF && IsRun(Initial(procs, lists), run)
    ensures var s := After(Initial(procs, lists), run);
      && s.barrier == Dealt(s, procs, BARRIER_TAG)
      && (s.mode == Exited <==> Dealt(s, procs, TERMINATE_TAG) > 0) && Dealt(s, procs, TERMINATE_TAG) <= 1
      && (s.mode == Exited ==>
            var last := DoneOf(s, s.cur); s.cur < procs && last != [] && last[|last| - 1].tag == TERMINATE_TAG)
  {
    var s := Reached(procs, lists, run);
    InitialInv(procs, lists);
    InitialTags(procs, lists, procs, BARRIER_TAG);
    InitialTags(procs, lists, procs, TERMINATE_TAG);
    RunTags(Initial(procs, lists), run);
  }

  /** Once it has ended it deals with nothing more. */
  lemma {:induction false} EndedForGood(s: State, run: seq<Step>, i: nat)
    requires Inv(s) && s.mode == Exited && IsRun(s, run) && i < |s.streams|
    ensures After(s, run).mode == Exited && DoneOf(After(s, run), i) == DoneOf(s, i)
    decreases |run|
  {
    if run == [] {
    } else {
      StepInv(s, run[0]);
      TagEffects(s, run[0], i);
      EndedForGood(Next(s, run[0]), run[1..], i);
    }
  }

  // ------------------------------------------------------------------------------ going around

  /** Finding nothing, the update thread comes to every socket. */
  lemma {:induction false} ReachesSocket(s: State, j: nat, k: nat) returns (run: seq<Step>)
    requires Inv(s) && s.mode == Reading && s.got == [] && j < |s.streams|
    requires k == if s.cur <= j then j - s.cur else j + |s.streams| - s.cur
    ensures |run| == k && (forall x :: 0 <= x < |run| ==> run[x] == Skip)
    ensures IsRun(s, run) && After(s, run) == s.(cur := j)
    decreases k
  {
    if k == 0 {
      run := [];
    } else {
      StepInv(s, Skip);
      var s' := Next(s, Skip);
      var rest := ReachesSocket(s', j, k - 1);
      run := [Skip] + rest;
      assert run[1..] == rest;
    }
  }

  // ------------------------------------------------------------------------ empty payloads

  /** A step of the update thread. */
  predicate IsUpdate(a: Step) { a.Skip? || a.Chunk? || a.Deliver? || a.Signal? }

  ghost predicate CanGoOn(s: State) { exists a :: IsUpdate(a) && Enabled(s, a) }

  lemma PartFits(s: State, m: Msg)
    requires Inv(s) && Sendable(m, |s.lists|) && s.done[s.cur] < |s.sent[s.cur]| && m == s.sent[s.cur][s.done[s.cur]]
    ensures |s.got| <= |Frame(m)| && (|s.got| >= 8 ==> Value(s.got[..4]) == |m.data|)
  {
    var i := s.cur;
    assert StreamInv(s, i);
    var left := s.sent[i][s.done[i]..];
    HeaderOf(m, Frames(left[1..], |s.lists|), s.got, s.streams[i], |s.lists|);
  }

  /** In the middle of a message the update thread can go on if and only if it is still at the header
      or the message, the next one of its sender, has a payload. */
  lemma GoesOnIff(s: State)
    requires Inv(s) && s.got != []
    ensures s.done[s.cur] < |s.sent[s.cur]|
    ensures CanGoOn(s) <==> |s.got| < 8 || s.sent[s.cur][s.done[s.cur]].data != []
  {
    var i := s.cur;
    assert StreamInv(s, i);
    var left := s.sent[i][s.done[i]..];
    assert left != [];
    PartFits(s, left[0]);
    if Complete(s.got) {
      assert Enabled(s, Deliver);
    } else {
      MoreToCome(left[0], Frames(left[1..], |s.lists|), s.got, s.streams[i], |s.lists|);
      if |s.got| < Boundary(s.got) { assert Enabled(s, Chunk(1)); }
    }
  }

  /** So it is in every reachable state. */
  lemma {:induction false} UpdateThreadProgress(procs: nat, lists: nat, run: seq<Step>)
    requires procs > 0 && 0 < lists <= HALF && IsRun(Initial(procs, lists), run)
    ensures var s := After(Initial(procs, lists), run);
      s.got != [] ==>
        && s.cur < |s.sent| == |s.done| && s.done[s.cur] < |s.sent[s.cur]|
        && (CanGoOn(s) <==> |s.got| < 8 || s.sent[s.cur][s.done[s.cur]].data != [])
  {
    var s := Reached(procs, lists, run);
    if s.got != [] { GoesOnIff(s); }
  }

  /** The update thread holds a header and cannot go on. */
  ghost predicate Stuck(s: State) { Inv(s) && s.got != [] && !CanGoOn(s) }

  lemma StuckStep(s: State, a: Step)
    requires Stuck(s) && Enabled(s, a)
    ensures Stuck(Next(s, a)) && Next(s, a).cur == s.cur && Next(s, a).got == s.got
    ensures |Next(s, a).done| == |s.done| && forall i :: 0 <= i < |s.streams| ==> Next(s, a).done[i] == s.done[i]
  {
    var s' := Next(s, a);
    assert !IsUpdate(a);
    StepInv(s, a);
    GoesOnIff(s);
    if a.Pop? { PopInv(s, a); }
    GoesOnIff(s');
    if a.Send? && a.sender == s.cur { assert s'.sent[s.cur][s.done[s.cur]] == s.sent[s.cur][s.done[s.cur]]; }
  }

  /** Once stuck, it stays so over every continuation, and no message from a socket is dealt with any
      more, whoever sent it. */
  lemma {:induction false} StuckForGood(s: State, run: seq<Step>)
    requires Stuck(s) && IsRun(s, run)
    ensures Stuck(After(s, run)) && |After(s, run).done| == |s.done|
    ensures forall i :: 0 <= i < |s.streams| ==> After(s, run).done[i] == s.done[i]
    decreases |run|
  {
    if run == [] {
    } else {
      StuckStep(s, run[0]);
      StepSizes(s, run[0]);
      StuckForGood(Next(s, run[0]), run[1..]);
    }
  }

  /** One empty message is enough: sent, and its header taken in two pieces. */
  lemma EmptyPayloadSticks()
    ensures var run := [Send(0, Msg(0, [])), Chunk(4), Chunk(4)];
      IsRun(Initial(1, 1), run) && Stuck(After(Initial(1, 1), run))
  {
    var m := Msg(0, []);
    var s0 := Initial(1, 1);
    InitialInv(1, 1);
    var s1 := Next(s0, Send(0, m));
    StepInv(s0, Send(0, m));
    assert |s1.streams[0]| == 8 && s1.sent[0] == [m];
    var s2 := Next(s1, Chunk(4));
    StepInv(s1, Chunk(4));
    assert |s2.got| == 4 && |s2.streams[0]| == 4;
    var s3 := Next(s2, Chunk(4));
    StepInv(s2, Chunk(4));
    assert |s3.got| == 8;
    GoesOnIff(s3);
    var run := [Send(0, m), Chunk(4), Chunk(4)];
    assert run[1..] == [Chunk(4), Chunk(4)] && run[1..][1..] == [Chunk(4)] && run[1..][1..][1..] == [];
    assert IsRun(s3, []) && IsRun(s2, [Chunk(4)]) && IsRun(s1, run[1..]);
    assert After(s2, [Chunk(4)]) == s3 && After(s1, run[1..]) == s3;
  }
}
