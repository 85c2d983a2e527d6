/** A set of small numbers as an array of 64-bit words, with an iterator that looks for the next
    set bit by halving words down to bytes. */
module BitVectors {
  import opened Arithmetic
  import opened Basics

  // ------------------------------------------------------------------------ bits of a word

  function Pow2(n: nat): (r: nat)
    ensures r > 0
  {
    if n == 0 then 1 else 2 * Pow2(n - 1)
  }

  predicate Bit(w: nat, n: nat) { if n == 0 then w % 2 == 1 else Bit(w / 2, n - 1) }

  function And(a: nat, b: nat): nat {
    if a == 0 || b == 0 then 0 else (if a % 2 == 1 && b % 2 == 1 then 1 else 0) + 2 * And(a / 2, b / 2)
  }

  function Or(a: nat, b: nat): nat
    decreases a + b
  {
    if a == 0 then b else if b == 0 then a else (if a % 2 == 1 || b % 2 == 1 then 1 else 0) + 2 * Or(a / 2, b / 2)
  }

  /** The bits of the first word that are not in the second. */
  function AndNot(a: nat, b: nat): nat {
    if a == 0 then 0 else (if a % 2 == 1 && b % 2 == 0 then 1 else 0) + 2 * AndNot(a / 2, b / 2)
  }

  lemma {:induction false} ZeroBit(n: nat)
    ensures !Bit(0, n)
  {
    if n == 0 {
    } else {
      ZeroBit(n - 1);
    }
  }

  lemma {:induction false} Pow2Bit(k: nat, n: nat)
    ensures Bit(Pow2(k), n) <==> n == k
  {
    if k == 0 { if n > 0 { ZeroBit(n - 1); } }
    else if n > 0 { Pow2Bit(k - 1, n - 1); }
  }

  lemma {:induction false} AndMask(w: nat, k: nat)
    ensures And(w, Pow2(k)) != 0 <==> Bit(w, k)
  {
    if w == 0 { ZeroBit(k); }
    else if k > 0 { AndMask(w / 2, k - 1); }
    else { assert And(w / 2, 0) == 0; }
  }

  lemma {:induction false} OrBit(a: nat, b: nat, n: nat)
    ensures Bit(Or(a, b), n) <==> Bit(a, n) || Bit(b, n)
    decreases n
  {
    if a == 0 { ZeroBit(n); }
    else if b == 0 { ZeroBit(n); }
    else if n > 0 { OrBit(a / 2, b / 2, n - 1); }
  }

  lemma {:induction false} AndNotBit(a: nat, b: nat, n: nat)
    ensures Bit(AndNot(a, b), n) <==> Bit(a, n) && !Bit(b, n)
    decreases n
  {
    if a == 0 { ZeroBit(n); }
    else if n > 0 { AndNotBit(a / 2, b / 2, n - 1); }
  }

  lemma {:induction false} OrBound(a: nat, b: nat, n: nat)
    requires a < Pow2(n) && b < Pow2(n)
    ensures Or(a, b) < Pow2(n)
    decreases n
  {
    if a != 0 && b != 0 { OrBound(a / 2, b / 2, n - 1); }
  }

  lemma {:induction false} AndNotBound(a: nat, b: nat)
    ensures AndNot(a, b) <= a
  {
    if a != 0 { AndNotBound(a / 2, b / 2); }
  }

  /** The low and the high part of a word. */
  function Low(w: nat, m: nat): nat { Mod(w, Pow2(m)) }

  function High(w: nat, m: nat): nat { Div(w, Pow2(m)) }

  function Mod(w: nat, n: nat): nat
    requires n > 0
  {
    w % n
  }

  function Div(w: nat, n: nat): nat
    requires n > 0
  {
    w / n
  }

  lemma Halving(w: nat, m: nat)
    requires m > 0
    ensures High(w, m) == High(w / 2, m - 1)
    ensures Low(w, m) / 2 == Low(w / 2, m - 1) && Low(w, m) % 2 == w % 2
  {
    var h, p := w / 2, Pow2(m - 1);
    var q, r := h / p, h % p;
    assert h == p * q + r;
    assert w == 2 * p * q + (2 * r + w % 2) by { Twice(p, q); }
    Remainder(w, 2 * p, q, 2 * r + w % 2);
  }

  lemma Twice(p: nat, q: nat)
    ensures 2 * (p * q) == 2 * p * q
  {
  }

  lemma {:induction false} HighBit(w: nat, m: nat, n: nat)
    ensures Bit(High(w, m), n) == Bit(w, m + n)
    decreases m
  {
    if m == 0 {
    } else {
      Halving(w, m);
      HighBit(w / 2, m - 1, n);
    }
  }

  lemma {:induction false} LowBit(w: nat, m: nat, n: nat)
    requires n < m
    ensures Bit(Low(w, m), n) == Bit(w, n)
    decreases m
  {
    Halving(w, m);
    if n > 0 { LowBit(w / 2, m - 1, n - 1); }
  }

  // ------------------------------------------------------------------------- scanning a word

  /** The first set bit of a word of some width whose position, counted from base, is beyond last. */
  ghost predicate FirstIn(w: nat, width: nat, base: int, last: int, r: Option<int>) {
    match r
    case Some(p) =>
      && base <= p < base + width && p > last && Bit(w, p - base)
      && forall n :: 0 <= n < p - base && base + n > last ==> !Bit(w, n)
    case None => forall n :: 0 <= n < width && base + n > last ==> !Bit(w, n)
  }

  lemma NothingInZero(width: nat, base: int, last: int)
    ensures FirstIn(0, width, base, last, None)
  {
    forall n: nat ensures !Bit(0, n) { ZeroBit(n); }
  }

  /** The parts of a word carry its bits. */
  ghost predicate AreHalves(w: nat, m: nat, low: nat, high: nat) {
    && (forall n :: 0 <= n < m ==> Bit(low, n) == Bit(w, n))
    && (forall n :: m <= n < 2 * m ==> Bit(high, n - m) == Bit(w, n))
  }

  method Halves(w: nat, m: nat) returns (low: nat, high: nat)
    ensures AreHalves(w, m, low, high)
  {
    low, high := Low(w, m), High(w, m);
    forall n | 0 <= n < m ensures Bit(low, n) == Bit(w, n) { LowBit(w, m, n); }
    forall n | m <= n < 2 * m ensures Bit(high, n - m) == Bit(w, n) { HighBit(w, m, n - m); }
  }

  /** Looking first at the low half and then at the high half. */
  lemma FirstOfHalves(w: nat, m: nat, low: nat, high: nat, base: int, last: int, l: Option<int>, h: Option<int>)
    requires AreHalves(w, m, low, high) && FirstIn(low, m, base, last, l)
    requires (l == None ==> FirstIn(high, m, base + m, last, h))
    ensures FirstIn(w, 2 * m, base, last, if l.Some? then l else h)
  {
    if l == None {
      if h.Some? {
        assert Bit(w, h.value - base);
        forall n | 0 <= n < h.value - base && base + n > last ensures !Bit(w, n) {
          if n >= m { assert !Bit(high, n - m); }
        }
      } else {
        forall n | 0 <= n < 2 * m && base + n > last ensures !Bit(w, n) {
          if n >= m { assert !Bit(high, n - m); }
        }
      }
    }
  }

  method TestBit(b: nat, bit: nat) returns (r: bool)
    requires bit < 8
    ensures r <==> Bit(b, bit)
  {
    AndMask(b, bit);
    return And(b, Pow2(bit)) != 0;
  }

  method ScanByte(b: nat, base: int, last: int) returns (r: Option<int>)
    ensures FirstIn(b, 8, base, last, r)
  {
    var l := 0;
    while l < 8
      invariant l <= 8 && forall n :: 0 <= n < l && base + n > last ==> !Bit(b, n)
    {
      var isSet := TestBit(b, l);
      if isSet && base + l > last { return Some(base + l); }
      l := l + 1;
    }
    return None;
  }

  method Scan16(w: nat, base: int, last: int) returns (r: Option<int>)
    ensures FirstIn(w, 16, base, last, r)
  {
    var low, high := Halves(w, 8);
    r := None;
    NothingInZero(8, base, last);
    if low != 0 { r := ScanByte(low, base, last); }
    ghost var l, h := r, None;
    NothingInZero(8, base + 8, last);
    if r == None && high != 0 { r := ScanByte(high, base + 8, last); h := r; }
    FirstOfHalves(w, 8, low, high, base, last, l, h);
  }

  method Scan32(w: nat, base: int, last: int) returns (r: Option<int>)
    ensures FirstIn(w, 32, base, last, r)
  {
    var low, high := Halves(w, 16);
    r := None;
    NothingInZero(16, base, last);
    if low != 0 { r := Scan16(low, base, last); }
    ghost var l, h := r, None;
    NothingInZero(16, base + 16, last);
    if r == None && high != 0 { r := Scan16(high, base + 16, last); h := r; }
    FirstOfHalves(w, 16, low, high, base, last, l, h);
  }

  method Scan64(w: nat, base: int, last: int) returns (r: Option<int>)
    ensures FirstIn(w, 64, base, last, r)
  {
    var low, high := Halves(w, 32);
    r := None;
    NothingInZero(32, base, last);
    if low != 0 { r := Scan32(low, base, last); }
    ghost var l, h := r, None;
    NothingInZero(32, base + 32, last);
    if r == None && high != 0 { r := Scan32(high, base + 32, last); h := r; }
    FirstOfHalves(w, 32, low, high, base, last, l, h);
  }

  // ----------------------------------------------------------------------------- the vector

  /** Whether a position of an array of words is set. */
  ghost predicate IsSet(words: seq<nat>, p: int) { 0 <= p < 64 * |words| && Bit(words[p / 64], p % 64) }

  /** How many positions below a bound are set. */
  ghost function SetBelow(words: seq<nat>, n: nat): nat {
    if n == 0 then 0 else SetBelow(words, n - 1) + if IsSet(words, n - 1) then 1 else 0
  }

  lemma {:induction false} SameBelow(words: seq<nat>, words': seq<nat>, n: nat)
    requires forall p :: 0 <= p < n ==> (IsSet(words, p) <==> IsSet(words', p))
    ensures SetBelow(words, n) == SetBelow(words', n)
  {
    if n == 0 {
    } else {
      SameBelow(words, words', n - 1);
    }
  }

  /** One position more. */
  lemma {:induction false} OneMoreSet(words: seq<nat>, words': seq<nat>, x: nat, n: nat)
    requires x < n && !IsSet(words, x) && IsSet(words', x)
    requires forall p :: 0 <= p < n && p != x ==> (IsSet(words, p) <==> IsSet(words', p))
    ensures SetBelow(words', n) == SetBelow(words, n) + 1
  {
    if x == n - 1 { SameBelow(words, words', n - 1); } else { OneMoreSet(words, words', x, n - 1); }
  }

  lemma Positions(p: int, i: nat, n: nat)
    requires p == 64 * i + n && n < 64
    ensures p / 64 == i && p % 64 == n
  {
  }

  class BitVector {
    const capacity: nat
    var size: nat
    var lastPos: int
    var words: seq<nat>

    ghost predicate Valid()
      reads this
    {
      && |words| == (capacity + 63) / 64 && -1 <= lastPos < 64 * |words|
      && (forall i :: 0 <= i < |words| ==> words[i] < Pow2(64))
      && (forall p :: IsSet(words, p) ==> p < capacity)
      && size == SetBelow(words, 64 * |words|)
    }

    constructor (bits: nat)
      ensures Valid() && capacity == bits && lastPos == -1 && size == 0 && forall p :: !IsSet(words, p)
    {
      capacity, size, lastPos := bits, 0, -1;
      words := seq((bits + 63) / 64, _ => 0);
      new;
      Nothing(words);
    }

    method Reset()
      requires Valid()
      modifies this
      ensures Valid() && lastPos == -1 && size == 0 && forall p :: !IsSet(words, p)
    {
      var i := 0;
      ghost var n := |words|;
      while i < |words|
        invariant i <= |words| == n && forall j :: 0 <= j < i ==> words[j] == 0
      {
        words := words[i := 0];
        i := i + 1;
      }
      size, lastPos := 0, -1;
      Nothing(words);
    }

    method ResetFind() returns (r: bool)
      requires Valid()
      modifies this`lastPos
      ensures Valid() && lastPos == -1 && r
    {
      lastPos := -1;
      return true;
    }

    method At(bit: nat) returns (r: bool)
      requires Valid() && bit < capacity
      ensures r <==> IsSet(words, bit)
    {
      AndMask(words[bit / 64], bit % 64);
      return And(words[bit / 64], Pow2(bit % 64)) != 0;
    }

    method Set(bit: nat)
      requires Valid() && bit < capacity
      modifies this`words, this`size
      ensures Valid() && lastPos == old(lastPos)
      ensures forall p :: IsSet(words, p) <==> p == bit || IsSet(old(words), p)
    {
      var index, shift := bit / 64, bit % 64;
      var isSet := At(bit);
      if !isSet {
        ghost var before := words;
        words := words[index := Or(words[index], Pow2(shift))];
        size := size + 1;
        WordSet(before, bit);
        OneMoreSet(before, words, bit, 64 * |words|);
      }
    }

    method Clear(bit: nat)
      requires Valid() && bit < capacity
      modifies this`words, this`size
      ensures Valid() && lastPos == old(lastPos)
      ensures forall p :: IsSet(words, p) <==> p != bit && IsSet(old(words), p)
    {
      var index, shift := bit / 64, bit % 64;
      var isSet := At(bit);
      if isSet {
        ghost var before := words;
        words := words[index := AndNot(words[index], Pow2(shift))];
        WordClear(before, bit);
        OneMoreSet(words, before, bit, 64 * |words|);
        size := size - 1;
      }
    }

    /** The next set bit after the last one found, or -1, after which the search starts over. */
    method Find() returns (r: int)
      requires Valid()
      modifies this`lastPos
      ensures Valid() && lastPos == r
      ensures r != -1 ==> r > old(lastPos) && IsSet(words, r) && forall p :: old(lastPos) < p < r ==> !IsSet(words, p)
      ensures r == -1 ==> forall p :: p > old(lastPos) ==> !IsSet(words, p)
    {
      var windex := if lastPos == -1 then 0 else lastPos / 64;
      var count := (capacity + 63) / 64;
      while windex < count
        invariant 0 <= windex && lastPos == old(lastPos)
        invariant forall p :: lastPos < p < 64 * windex ==> !IsSet(words, p)
      {
        var found: Option<int> := None;
        NothingInZero(64, 64 * windex, lastPos);
        if words[windex] != 0 { found := Scan64(words[windex], 64 * windex, lastPos); }
        FirstAt(words, windex, lastPos, found);
        if found.Some? {
          lastPos := found.value;
          return found.value;
        }
        windex := windex + 1;
      }
      lastPos := -1;
      return -1;
    }

    /** Calling Find from a reset until it answers -1 lists the set bits in increasing order. */
    method FindAll() returns (s: seq<int>)
      requires Valid()
      modifies this`lastPos
      ensures Valid() && lastPos == -1
      ensures forall i, j :: 0 <= i < j < |s| ==> s[i] < s[j]
      ensures forall p :: p in s <==> IsSet(words, p)
    {
      var _ := ResetFind();
      s := [];
      var p := Find();
      while p != -1
        invariant Valid() && lastPos == p
        invariant p != -1 ==> IsSet(words, p) && forall i :: 0 <= i < |s| ==> s[i] < p
        invariant forall i, j :: 0 <= i < j < |s| ==> s[i] < s[j]
        invariant forall x :: x in s <==> IsSet(words, x) && (p != -1 ==> x < p)
        decreases if p == -1 then 0 else 1 + 64 * |words| - p
      {
        s := s + [p];
        p := Find();
      }
    }
  }

  lemma {:induction false} Nothing(words: seq<nat>)
    requires forall i :: 0 <= i < |words| ==> words[i] == 0
    ensures (forall p :: !IsSet(words, p)) && SetBelow(words, 64 * |words|) == 0
  {
    forall p ensures !IsSet(words, p) { if 0 <= p < 64 * |words| { ZeroBit(p % 64); } }
    NoneBelow(words, 64 * |words|);
  }

  lemma {:induction false} NoneBelow(words: seq<nat>, n: nat)
    requires forall p :: !IsSet(words, p)
    ensures SetBelow(words, n) == 0
  {
    if n == 0 {
    } else {
      NoneBelow(words, n - 1);
    }
  }

  lemma {:induction false} WordSet(words: seq<nat>, bit: nat)
    requires bit < 64 * |words| && words[bit / 64] < Pow2(64)
    ensures var words' := words[bit / 64 := Or(words[bit / 64], Pow2(bit % 64))];
      words'[bit / 64] < Pow2(64) && forall p :: IsSet(words', p) <==> p == bit || IsSet(words, p)
  {
    var i, n := bit / 64, bit % 64;
    var words' := words[i := Or(words[i], Pow2(n))];
    Pow2Grows(n, 64);
    OrBound(words[i], Pow2(n), 64);
    forall p ensures IsSet(words', p) <==> p == bit || IsSet(words, p) {
      if 0 <= p < 64 * |words| && p / 64 == i {
        OrBit(words[i], Pow2(n), p % 64);
        Pow2Bit(n, p % 64);
      }
    }
  }

  lemma {:induction false} Pow2Grows(m: nat, n: nat)
    requires m < n
    ensures Pow2(m) < Pow2(n)
  {
    if m < n - 1 { Pow2Grows(m, n - 1); }
  }

  lemma {:induction false} WordClear(words: seq<nat>, bit: nat)
    requires bit < 64 * |words| && words[bit / 64] < Pow2(64)
    ensures var words' := words[bit / 64 := AndNot(words[bit / 64], Pow2(bit % 64))];
      words'[bit / 64] < Pow2(64) && forall p :: IsSet(words', p) <==> p != bit && IsSet(words, p)
  {
    var i, n := bit / 64, bit % 64;
    var words' := words[i := AndNot(words[i], Pow2(n))];
    AndNotBound(words[i], Pow2(n));
    forall p ensures IsSet(words', p) <==> p != bit && IsSet(words, p) {
      if 0 <= p < 64 * |words| && p / 64 == i {
        AndNotBit(words[i], Pow2(n), p % 64);
        Pow2Bit(n, p % 64);
      }
    }
  }

  /** What the scan of one word says about positions. */
  lemma FirstAt(words: seq<nat>, i: nat, last: int, r: Option<int>)
    requires i < |words| && FirstIn(words[i], 64, 64 * i, last, r)
    ensures r.Some? ==> 64 * i <= r.value < 64 * i + 64 && r.value > last && IsSet(words, r.value)
    ensures forall p :: 64 * i <= p < (if r.Some? then r.value else 64 * i + 64) && p > last ==> !IsSet(words, p)
  {
    if r.Some? { Positions(r.value, i, r.value - 64 * i); }
    forall p | 64 * i <= p < (if r.Some? then r.value else 64 * i + 64) && p > last ensures !IsSet(words, p) {
      Positions(p, i, p - 64 * i);
      assert !Bit(words[i], p - 64 * i);
    }
  }
}
