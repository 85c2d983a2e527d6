/** The framing of tagged messages on a byte stream: length, tag and payload, taken from the socket in
    pieces of any size. */
module TaggedFrames {
  import opened Words

  const GLOBAL_TAG: int := -1
  const BARRIER_TAG: int := -2
  const TERMINATE_TAG: int := -3
  const LENGTHS: int := 0x1_0000_0000
  const HALF: int := 0x8000_0000

  datatype Msg = Msg(tag: int, data: seq<byte>)

  // --------------------------------------------------------------------------------- frames

  function Raw(tag: int): nat
    requires -HALF <= tag < HALF
  {
    if tag < 0 then tag + LENGTHS else tag
  }

  function Signed(raw: nat): int { if raw >= HALF then raw - LENGTHS else raw }

  /** A message whose length fits its field and whose tag names a list or a special purpose. */
  ghost predicate Sendable(m: Msg, lists: nat) {
    && |m.data| < LENGTHS && lists <= HALF
    && (m.tag == GLOBAL_TAG || m.tag == BARRIER_TAG || m.tag == TERMINATE_TAG || 0 <= m.tag < lists)
  }

  function Frame(m: Msg): seq<byte>
    requires -HALF <= m.tag < HALF
  {
    Little(|m.data|, 4) + Little(Raw(m.tag), 4) + m.data
  }

  /** Four bytes of length, four bytes of tag in two's complement, least significant byte first, then
      the payload. */
  lemma FrameLayout(m: Msg)
    requires |m.data| < LENGTHS && -HALF <= m.tag < HALF
    ensures |Frame(m)| == 8 + |m.data| && Value(Frame(m)[..4]) == |m.data| && Frame(m)[8..] == m.data
    ensures Value(Frame(m)[4..8]) == if m.tag >= 0 then m.tag else 0x1_0000_0000 + m.tag
  {
    LengthRange();
    LittleValue(|m.data|, 4);
    LittleValue(Raw(m.tag), 4);
    FirstWords(Little(|m.data|, 4), Little(Raw(m.tag), 4), m.data, [], Frame(m));
  }

  ghost function Frames(msgs: seq<Msg>, lists: nat): seq<byte>
    requires forall k :: 0 <= k < |msgs| ==> Sendable(msgs[k], lists)
  {
    if msgs == [] then [] else assert Sendable(msgs[0], lists); Frame(msgs[0]) + Frames(msgs[1..], lists)
  }

  lemma {:induction false} FramesAppend(msgs: seq<Msg>, m: Msg, lists: nat)
    requires (forall k :: 0 <= k < |msgs| ==> Sendable(msgs[k], lists)) && Sendable(m, lists)
    ensures Frames(msgs + [m], lists) == Frames(msgs, lists) + Frame(m)
  {
    if msgs == [] {
      assert msgs + [m] == [m] && [m][1..] == [];
    } else {
      FramesAppend(msgs[1..], m, lists);
      assert (msgs + [m])[1..] == msgs[1..] + [m] && (msgs + [m])[0] == msgs[0];
      Regroup(Frame(msgs[0]), Frames(msgs[1..], lists), Frame(m));
    }
  }

  lemma Regroup(a: seq<byte>, b: seq<byte>, c: seq<byte>)
    ensures a + (b + c) == a + b + c
  {
  }

  lemma LengthRange()
    ensures Power(4) == LENGTHS
  {
    assert Power(2) == 256 * Power(1) && Power(3) == 256 * Power(2) && Power(4) == 256 * Power(3);
  }

  /** How far one receive call may go: to the end of the length, of the tag, or of the payload. */
  function Boundary(got: seq<byte>): nat {
    if |got| < 4 then 4 else if |got| < 8 then 8 else 8 + Value(got[..4])
  }

  /** A message has been taken completely. An empty payload is never reported as received. */
  predicate Complete(got: seq<byte>) { |got| > 8 && |got| == 8 + Value(got[..4]) }

  function Decode(got: seq<byte>): Msg
    requires Complete(got)
  {
    Msg(Signed(Value(got[4..8])), got[8..])
  }

  lemma HeaderOf(m: Msg, rest: seq<byte>, got: seq<byte>, stream: seq<byte>, lists: nat)
    requires Sendable(m, lists) && Frame(m) + rest == got + stream
    ensures |got| >= 4 ==> Value(got[..4]) == |m.data|
    ensures |got| >= 8 ==> Signed(Value(got[4..8])) == m.tag
  {
    LengthRange();
    LittleValue(|m.data|, 4);
    LittleValue(Raw(m.tag), 4);
    FirstWords(Little(|m.data|, 4), Little(Raw(m.tag), 4), m.data, rest, got + stream);
    if |got| >= 4 { assert got[..4] == (got + stream)[..4]; }
    if |got| >= 8 { assert got[4..8] == (got + stream)[4..8]; }
  }

  lemma FirstWords(a: seq<byte>, b: seq<byte>, data: seq<byte>, rest: seq<byte>, all: seq<byte>)
    requires |a| == |b| == 4 && all == a + b + data + rest
    ensures |all| >= 8 && all[..4] == a && all[4..8] == b
  {
  }

  /** A complete message is exactly the next one of the stream, and the rest follows it. */
  lemma DecodeNext(m: Msg, rest: seq<byte>, got: seq<byte>, stream: seq<byte>, lists: nat)
    requires Sendable(m, lists) && Frame(m) + rest == got + stream && Complete(got)
    ensures Decode(got) == m && stream == rest
  {
    HeaderOf(m, rest, got, stream, lists);
    var n := |Frame(m)|;
    assert |got| == n;
    assert got == (got + stream)[..n] == (Frame(m) + rest)[..n] == Frame(m);
    assert stream == (got + stream)[n..] == (Frame(m) + rest)[n..] == rest;
    assert Frame(m)[8..] == m.data;
  }

  /** In the middle of a message there are more bytes to come, unless its payload is empty and its
      header has been taken. */
  lemma MoreToCome(m: Msg, rest: seq<byte>, got: seq<byte>, stream: seq<byte>, lists: nat)
    requires Sendable(m, lists) && Frame(m) + rest == got + stream && !Complete(got) && |got| <= |Frame(m)|
    ensures |got| < Boundary(got) <==> |got| < 8 || m.data != []
    ensures Boundary(got) - |got| <= |stream| && Boundary(got) <= |Frame(m)|
  {
    HeaderOf(m, rest, got, stream, lists);
  }

  // ----------------------------------------------------------------------- one receive call

  datatype Receipt = Got(data: seq<byte>, rest: seq<byte>) | Nothing | StillWaiting

  function Min(x: nat, y: nat): nat { if x < y then x else y }

  /** Receive a given number of bytes. Each system call returns at most what is asked for, what the
      kernel offers at that moment, and what there is; the list of offers ends where observation
      ends. However the offers cut the stream, the caller gets its first bytes or none; a request
      for no bytes is never satisfied. */
  method Receive(incoming: seq<byte>, length: nat, block: bool, offers: seq<nat>) returns (r: Receipt)
    ensures r.Got? ==> 0 < length <= |incoming| && r.data == incoming[..length] && r.rest == incoming[length..]
    ensures r.Nothing? ==> !block
    ensures length == 0 && block ==> r.StillWaiting?
    ensures (forall k :: 0 <= k < |offers| ==> offers[k] > 0) && |offers| >= length > 0 && |incoming| >= length ==>
      r.Got?
  {
    var k, got := 0, [];
    while k < |offers|
      invariant k <= |offers| && got == []
      invariant (forall j :: 0 <= j < |offers| ==> offers[j] > 0) && length > 0 && |incoming| > 0 ==> k == 0
    {
      var recvd := Min(Min(offers[k], length), |incoming|);
      k := k + 1;
      if recvd >= 1 {
        got := incoming[..recvd];
        while |got| < length && k < |offers|
          invariant 0 < |got| <= length && |got| <= |incoming| && got == incoming[..|got|] && k <= |offers|
          invariant (forall j :: 0 <= j < |offers| ==> offers[j] > 0) && |incoming| >= length ==>
            |got| >= Min(k, length)
        {
          recvd := Min(Min(offers[k], length - |got|), |incoming| - |got|);
          k := k + 1;
          got := got + incoming[|got|..|got| + recvd];
        }
        if |got| < length { return StillWaiting; }
        return Got(got, incoming[|got|..]);
      }
      if !block { return Nothing; }
    }
    return StillWaiting;
  }
}
