/** The initial stack of an application process: a first pass adds up the space, a second one
    writes argument count, pointers and strings into simulated memory, pointers growing up and
    strings growing down. The layout is the one of section 3.4.1 of the System V AMD64 psABI. */
module InitialStack {
  import opened Words

  type Memory = map<nat, byte>

  const WORD: nat := 8
  const ADDRESSES: nat := 0x1_0000_0000_0000_0000
  const AUX_ENTRY: nat := 16

  /** A C string: bytes other than the terminator. */
  ghost predicate IsText(s: seq<byte>) { forall k :: 0 <= k < |s| ==> s[k] != 0 }

  ghost predicate AllText(strings: seq<seq<byte>>) { forall i :: 0 <= i < |strings| ==> IsText(strings[i]) }

  // --------------------------------------------------------------------------- machine words

  lemma WordRange()
    ensures Power(WORD) == ADDRESSES
  {
    assert Power(2) == 256 * Power(1) && Power(4) == 256 * Power(3) && Power(6) == 256 * Power(5);
    assert Power(3) == 256 * Power(2) && Power(5) == 256 * Power(4);
    assert Power(7) == 256 * Power(6) && Power(8) == 256 * Power(7);
  }

  // --------------------------------------------------------------------------------- memory

  function Written(mem: Memory, addr: nat, data: seq<byte>): Memory
    decreases |data|
  {
    if data == [] then mem else Written(mem[addr := data[0]], addr + 1, data[1..])
  }

  lemma {:induction false} WrittenAt(mem: Memory, addr: nat, data: seq<byte>, a: nat)
    ensures var mem' := Written(mem, addr, data);
      if addr <= a < addr + |data| then a in mem' && mem'[a] == data[a - addr]
      else (a in mem' <==> a in mem) && (a in mem ==> mem'[a] == mem[a])
    decreases |data|
  {
    if data == [] {
    } else {
      WrittenAt(mem[addr := data[0]], addr + 1, data[1..], a);
    }
  }

  ghost predicate ByteAt(mem: Memory, a: nat, v: byte) { a in mem && mem[a] == v }

  ghost predicate Holds(mem: Memory, addr: nat, data: seq<byte>) {
    forall k :: 0 <= k < |data| ==> ByteAt(mem, addr + k, data[k])
  }

  function ReadBytes(mem: Memory, addr: nat, n: nat): seq<byte> {
    seq(n, k requires 0 <= k < n => if addr + k in mem then mem[addr + k] else 0)
  }

  function ReadWord(mem: Memory, addr: nat): nat { Value(ReadBytes(mem, addr, WORD)) }

  lemma {:induction false} WordRead(mem: Memory, addr: nat, v: nat)
    requires Holds(mem, addr, Little(v, WORD)) && v < ADDRESSES
    ensures ReadWord(mem, addr) == v
  {
    WordRange();
    LittleValue(v, WORD);
    assert ReadBytes(mem, addr, WORD) == Little(v, WORD);
  }

  lemma {:induction false} WrittenHolds(mem: Memory, addr: nat, data: seq<byte>)
    ensures Holds(Written(mem, addr, data), addr, data)
  {
    var mem' := Written(mem, addr, data);
    forall k | 0 <= k < |data| ensures ByteAt(mem', addr + k, data[k]) { WrittenAt(mem, addr, data, addr + k); }
  }

  lemma {:induction false} WrittenElsewhere(mem: Memory, addr: nat, data: seq<byte>, other: nat, bytes: seq<byte>)
    requires Holds(mem, other, bytes) && (other + |bytes| <= addr || addr + |data| <= other)
    ensures Holds(Written(mem, addr, data), other, bytes)
  {
    var mem' := Written(mem, addr, data);
    forall k | 0 <= k < |bytes| ensures ByteAt(mem', other + k, bytes[k]) {
      assert ByteAt(mem, other + k, bytes[k]);
      WrittenAt(mem, addr, data, other + k);
    }
  }

  // --------------------------------------------------------------------------------- layout

  /** A pointer to a copy of the string. */
  ghost predicate PointsTo(mem: Memory, addr: nat, s: seq<byte>) {
    ReadWord(mem, addr) != 0 && Holds(mem, ReadWord(mem, addr), s + [0])
  }

  /** What a program finds at its stack pointer: the number of arguments, a pointer to each and a
      closing word, a pointer to each environment string and a null, then a null auxiliary entry. */
  ghost predicate LaysOut(mem: Memory, sp: nat, argv: seq<seq<byte>>, end: nat, env: seq<seq<byte>>) {
    && ReadWord(mem, sp) == |argv|
    && (forall i :: 0 <= i < |argv| ==> PointsTo(mem, sp + WORD + WORD * i, argv[i]))
    && ReadWord(mem, sp + WORD + WORD * |argv|) == end
    && var envp := sp + 2 * WORD + WORD * |argv|;
       && (forall i :: 0 <= i < |env| ==> PointsTo(mem, envp + WORD * i, env[i]))
       && ReadWord(mem, envp + WORD * |env|) == 0
       && ReadWord(mem, envp + WORD * |env| + WORD) == 0 && ReadWord(mem, envp + WORD * |env| + 2 * WORD) == 0
  }

  lemma SameText(mem: Memory, addr: nat, s: seq<byte>, t: seq<byte>)
    requires IsText(s) && IsText(t) && Holds(mem, addr, s + [0]) && Holds(mem, addr, t + [0]) && |s| <= |t|
    ensures s == t
  {
    assert (s + [0])[|s|] == 0;
    assert ByteAt(mem, addr + |s|, 0) && ByteAt(mem, addr + |s|, (t + [0])[|s|]);
    forall k | 0 <= k < |s| ensures s[k] == t[k] {
      assert ByteAt(mem, addr + k, (s + [0])[k]) && ByteAt(mem, addr + k, (t + [0])[k]);
    }
  }

  lemma SamePointed(mem: Memory, addr: nat, s: seq<byte>, t: seq<byte>)
    requires IsText(s) && IsText(t) && PointsTo(mem, addr, s) && PointsTo(mem, addr, t)
    ensures s == t
  {
    if |s| <= |t| { SameText(mem, ReadWord(mem, addr), s, t); } else { SameText(mem, ReadWord(mem, addr), t, s); }
  }

  lemma EndsAtNull(mem: Memory, addr: nat, strings: seq<seq<byte>>, n: nat)
    requires forall i :: 0 <= i < |strings| ==> PointsTo(mem, addr + WORD * i, strings[i])
    ensures n < |strings| ==> ReadWord(mem, addr + WORD * n) != 0
  {
    if n < |strings| { assert PointsTo(mem, addr + WORD * n, strings[n]); }
  }

  /** Reading the stack back gives one result only. */
  lemma LayoutIsUnique(mem: Memory, sp: nat, a: seq<seq<byte>>, end: nat, e: seq<seq<byte>>, a': seq<seq<byte>>,
                       end': nat, e': seq<seq<byte>>)
    requires LaysOut(mem, sp, a, end, e) && LaysOut(mem, sp, a', end', e')
    requires AllText(a) && AllText(e) && AllText(a') && AllText(e')
    ensures a == a' && end == end' && e == e'
  {
    forall i | 0 <= i < |a| ensures a[i] == a'[i] { SamePointed(mem, sp + WORD + WORD * i, a[i], a'[i]); }
    var envp := sp + 2 * WORD + WORD * |a|;
    EndsAtNull(mem, envp, e, |e'|);
    EndsAtNull(mem, envp, e', |e|);
    forall i | 0 <= i < |e| ensures e[i] == e'[i] { SamePointed(mem, envp + WORD * i, e[i], e'[i]); }
  }

  // ---------------------------------------------------------------------------------- sizes

  function TextBytes(strings: seq<seq<byte>>): nat {
    if strings == [] then 0 else |strings[0]| + 1 + TextBytes(strings[1..])
  }

  function StackSize(argv: seq<seq<byte>>, env: seq<seq<byte>>): nat {
    WORD + WORD * |argv| + TextBytes(argv) + WORD + WORD * |env| + TextBytes(env) + WORD + AUX_ENTRY
  }

  function RoundDown(v: nat): nat { v / 256 * 256 }

  /** Strings copied downwards from an address, with a pointer to each of them upwards. */
  ghost predicate Copied(mem: Memory, slot: nat, strings: seq<seq<byte>>, low: nat, top: nat) {
    forall i :: 0 <= i < |strings| ==> CopiedOne(mem, slot + WORD * i, strings[i], low, top)
  }

  ghost predicate CopiedOne(mem: Memory, slot: nat, s: seq<byte>, low: nat, top: nat) {
    exists p ::
      && 0 < low <= p && p + |s| + 1 <= top < ADDRESSES
      && Holds(mem, slot, Little(p, WORD)) && Holds(mem, p, s + [0])
  }

  lemma CopiedPoints(mem: Memory, slot: nat, s: seq<byte>, low: nat, top: nat)
    requires CopiedOne(mem, slot, s, low, top)
    ensures PointsTo(mem, slot, s)
  {
    var p :|
      && 0 < low <= p && p + |s| + 1 <= top < ADDRESSES
      && Holds(mem, slot, Little(p, WORD)) && Holds(mem, p, s + [0]);
    WordRead(mem, slot, p);
  }

  /** A write between the pointers and the strings disturbs neither. */
  lemma {:induction false} CopiedKept(mem: Memory, slot: nat, s: seq<byte>, low: nat, top: nat, addr: nat,
                                      data: seq<byte>, low': nat)
    requires CopiedOne(mem, slot, s, low, top) && slot + WORD <= addr && addr + |data| <= low && 0 < low' <= low
    ensures CopiedOne(Written(mem, addr, data), slot, s, low', top)
  {
    var p :|
      && 0 < low <= p && p + |s| + 1 <= top < ADDRESSES
      && Holds(mem, slot, Little(p, WORD)) && Holds(mem, p, s + [0]);
    WrittenElsewhere(mem, addr, data, slot, Little(p, WORD));
    WrittenElsewhere(mem, addr, data, p, s + [0]);
  }

  lemma {:induction false} AllCopiedKept(mem: Memory, slot: nat, strings: seq<seq<byte>>, low: nat, top: nat, addr: nat,
                                         data: seq<byte>, low': nat)
    requires Copied(mem, slot, strings, low, top) && slot + WORD * |strings| <= addr
    requires addr + |data| <= low && 0 < low' <= low
    ensures Copied(Written(mem, addr, data), slot, strings, low', top)
  {
    forall i | 0 <= i < |strings| ensures CopiedOne(Written(mem, addr, data), slot + WORD * i, strings[i], low', top) {
      CopiedKept(mem, slot + WORD * i, strings[i], low, top, addr, data, low');
    }
  }

  /** Writing one more string and its pointer. */
  lemma {:induction false} CopiedNext(mem: Memory, slot: nat, s: seq<byte>, p: nat, top: nat)
    requires 0 < p && slot + WORD <= p && p + |s| + 1 <= top < ADDRESSES
    ensures CopiedOne(Written(Written(mem, p, s + [0]), slot, Little(p, WORD)), slot, s, p, top)
  {
    var mem' := Written(mem, p, s + [0]);
    WrittenHolds(mem, p, s + [0]);
    WrittenElsewhere(mem', slot, Little(p, WORD), p, s + [0]);
    WrittenHolds(mem', slot, Little(p, WORD));
  }

  // ---------------------------------------------------------------------------- the builder

  lemma TextBytesSplit(strings: seq<seq<byte>>, i: nat)
    requires i < |strings|
    ensures TextBytes(strings[i..]) == |strings[i]| + 1 + TextBytes(strings[i + 1..])
  {
    assert strings[i..][1..] == strings[i + 1..];
  }

  class SimulatedMemory {
    var mem: Memory

    constructor ()
      ensures mem == map[]
    {
      mem := map[];
    }

    method Write(addr: nat, data: seq<byte>)
      modifies this
      ensures mem == Written(old(mem), addr, data)
    {
      var i := 0;
      while i < |data|
        invariant i <= |data| && Written(mem, addr + i, data[i..]) == Written(old(mem), addr, data)
      {
        mem := mem[addr + i := data[i]];
        assert data[i..][1..] == data[i + 1..];
        i := i + 1;
      }
    }

    /** Pass 1. */
    static method Measure(argv: seq<seq<byte>>, env: seq<seq<byte>>) returns (size: nat)
      ensures size == StackSize(argv, env)
    {
      size := WORD;
      var i := 0;
      while i < |argv|
        invariant i <= |argv|
        invariant size + WORD * (|argv| - i) + TextBytes(argv[i..]) == WORD + WORD * |argv| + TextBytes(argv)
      {
        size := size + WORD + |argv[i]| + 1;
        TextBytesSplit(argv, i);
        i := i + 1;
      }
      size := size + WORD;
      i := 0;
      ghost var base := size;
      while i < |env|
        invariant i <= |env| && size + WORD * (|env| - i) + TextBytes(env[i..]) == base + WORD * |env| + TextBytes(env)
      {
        size := size + WORD + |env[i]| + 1;
        TextBytesSplit(env, i);
        i := i + 1;
      }
      size := size + WORD + AUX_ENTRY;
    }

    /** The loop of pass 2 over the arguments, and the one over the environment. The memory below
        base holds what was written before; rest is what is still to be written after it. */
    method CopyStrings(strings: seq<seq<byte>>, base: nat, top: nat, rest: nat, ghost limit: nat)
      returns (base': nat, top': nat)
      requires base + WORD * |strings| + TextBytes(strings) + rest <= top <= limit < ADDRESSES && 0 < base
      modifies this
      ensures base' == base + WORD * |strings| && top' == top - TextBytes(strings) && base' + rest <= top' <= top
      ensures Copied(mem, base, strings, top', limit)
      ensures forall a: nat :: a < base || top <= a ==> Same(old(mem), mem, a)
    {
      base', top' := base, top;
      var i := 0;
      assert strings[0..] == strings;
      while i < |strings|
        invariant i <= |strings| && base' == base + WORD * i && top' <= top
        invariant base' + WORD * (|strings| - i) + TextBytes(strings[i..]) + rest <= top'
        invariant top' - TextBytes(strings[i..]) == top - TextBytes(strings)
        invariant Copied(mem, base, strings[..i], top', limit)
        invariant forall a: nat :: a < base || top <= a ==> Same(old(mem), mem, a)
      {
        var s := strings[i];
        TextBytesSplit(strings, i);
        ghost var before := mem;
        top' := CopyOne(strings[..i], s, base, base', top', limit);
        forall a: nat | a < base || top <= a ensures Same(old(mem), mem, a) {
          assert Same(old(mem), before, a) && Same(before, mem, a);
        }
        assert strings[..i + 1] == strings[..i] + [s];
        base' := base' + WORD;
        i := i + 1;
      }
      assert strings[..i] == strings;
    }

    /** One round of that loop. */
    method CopyOne(ghost before: seq<seq<byte>>, s: seq<byte>, ghost first: nat, base: nat, top: nat, ghost limit: nat)
      returns (top': nat)
      requires base == first + WORD * |before| && base + WORD + |s| + 1 <= top <= limit < ADDRESSES && 0 < first
      requires Copied(mem, first, before, top, limit)
      modifies this
      ensures top' == top - (|s| + 1) && Copied(mem, first, before + [s], top', limit)
      ensures forall a: nat :: a < base || top <= a ==> Same(old(mem), mem, a)
    {
      top' := top - (|s| + 1);
      AllCopiedKept(mem, first, before, top, limit, top', s + [0], top');
      AllCopiedKept(Written(mem, top', s + [0]), first, before, top', limit, base, Little(top', WORD), top');
      CopiedNext(mem, base, s, top', limit);
      forall a: nat | a < base || top <= a
        ensures Same(mem, Written(Written(mem, top', s + [0]), base, Little(top', WORD)), a)
      {
        WrittenAt(mem, top', s + [0], a);
        WrittenAt(Written(mem, top', s + [0]), base, Little(top', WORD), a);
      }
      Write(top', s + [0]);
      Write(base, Little(top', WORD));
    }

    /** Both passes. Nothing outside the new stack pointer and the top of the slice is written. */
    method CopyInitialStackData(argv: seq<seq<byte>>, end: nat, env: seq<seq<byte>>, lower: nat, size: nat)
      returns (sp: nat)
      requires |argv| < ADDRESSES && end < ADDRESSES && lower + size < ADDRESSES
      requires StackSize(argv, env) < lower + size && RoundDown(lower + size - StackSize(argv, env)) > 0
      modifies this
      ensures LaysOut(mem, sp, argv, end, env)
      ensures sp % 16 == 0 && sp % 256 == 0
      ensures lower + size - StackSize(argv, env) - 256 < sp <= lower + size - StackSize(argv, env)
      ensures forall a: nat :: a < sp || lower + size <= a ==> Same(old(mem), mem, a)
    {
      var used := Measure(argv, env);
      var top := lower + size;
      sp := RoundDown(top - used);
      Rounding(top - used);
      var last, low := CopyPointers(argv, end, env, sp, top);
      ghost var built := mem;
      Write(last, Little(0, WORD));
      Write(last + WORD, Little(0, WORD) + Little(0, WORD));
      ClosedBy(built, sp, argv, end, env, low, top);
      assert last + WORD + AUX_ENTRY <= low;      // the assertion at the end of the source
      forall a: nat | a < sp || top <= a ensures Same(old(mem), mem, a) {
        assert Same(old(mem), built, a);
        WrittenAt(built, last, Little(0, WORD), a);
        WrittenAt(Written(built, last, Little(0, WORD)), last + WORD, Little(0, WORD) + Little(0, WORD), a);
      }
    }

    /** The argument count, the arguments and the word after them. */
    method CopyArguments(argv: seq<seq<byte>>, end: nat, sp: nat, top: nat, rest: nat) returns (last: nat, low: nat)
      requires 0 < sp && sp + 2 * WORD + WORD * |argv| + TextBytes(argv) + rest <= top < ADDRESSES
      modifies this
      ensures last == sp + 2 * WORD + WORD * |argv| && low == top - TextBytes(argv) && last + rest <= low <= top
      ensures Built(mem, sp, argv, end, [], low, top)
      ensures forall a: nat :: a < sp || top <= a ==> Same(old(mem), mem, a)
    {
      Write(sp, Little(|argv|, WORD));
      ghost var m0 := mem;
      last, low := CopyStrings(argv, sp + WORD, top, WORD + rest, top);
      ghost var m1 := mem;
      Write(last, Little(end, WORD));
      BuiltHead(old(mem), m0, m1, sp, argv, end, low, top);
      forall a: nat | a < sp || top <= a ensures Same(old(mem), mem, a) {
        WrittenAt(old(mem), sp, Little(|argv|, WORD), a);
        assert Same(m0, m1, a);
        WrittenAt(m1, last, Little(end, WORD), a);
      }
      last := last + WORD;
    }

    method CopyPointers(argv: seq<seq<byte>>, end: nat, env: seq<seq<byte>>, sp: nat, top: nat)
      returns (last: nat, low: nat)
      requires 0 < sp && sp + StackSize(argv, env) <= top < ADDRESSES
      modifies this
      ensures last == sp + 2 * WORD + WORD * |argv| + WORD * |env| && last + WORD + AUX_ENTRY <= low <= top
      ensures (last + WORD + AUX_ENTRY - sp) + (top - low) == StackSize(argv, env)
      ensures Built(mem, sp, argv, end, env, low, top)
      ensures forall a: nat :: a < sp || top <= a ==> Same(old(mem), mem, a)
    {
      var envp, low1 := CopyArguments(argv, end, sp, top, WORD * |env| + TextBytes(env) + WORD + AUX_ENTRY);
      ghost var before := mem;
      last, low := CopyStrings(env, envp, low1, WORD + AUX_ENTRY, top);
      BuiltAll(before, mem, sp, argv, end, env, low1, low, top);
      SameChain(old(mem), before, mem, sp, top, envp, low1);
    }
  }

  lemma SameChain(m0: Memory, m1: Memory, m2: Memory, a0: nat, b0: nat, a1: nat, b1: nat)
    requires a0 <= a1 && b1 <= b0
    requires forall a: nat :: a < a0 || b0 <= a ==> Same(m0, m1, a)
    requires forall a: nat :: a < a1 || b1 <= a ==> Same(m1, m2, a)
    ensures forall a: nat :: a < a0 || b0 <= a ==> Same(m0, m2, a)
  {
    forall a: nat | a < a0 || b0 <= a ensures Same(m0, m2, a) { assert Same(m0, m1, a) && Same(m1, m2, a); }
  }

  ghost predicate Same(mem: Memory, mem': Memory, a: nat) {
    (a in mem <==> a in mem') && (a in mem ==> mem[a] == mem'[a])
  }

  lemma Rounding(v: nat)
    ensures RoundDown(v) % 16 == 0 && RoundDown(v) % 256 == 0 && v - 256 < RoundDown(v) <= v
  {
    var q := v / 256;
    assert (256 * q) % 256 == 0;
    assert RoundDown(v) == (16 * q) * 16;
    Multiple(16 * q);
  }

  lemma Multiple(q: nat)
    ensures (q * 16) % 16 == 0
  {
  }

  // ------------------------------------------------------------- what a partly built stack holds

  /** Everything but the closing words: count, argument pointers, end of arguments, environment. */
  ghost predicate Built(mem: Memory, sp: nat, argv: seq<seq<byte>>, end: nat, env: seq<seq<byte>>, low: nat, top: nat) {
    && Holds(mem, sp, Little(|argv|, WORD))
    && Copied(mem, sp + WORD, argv, low, top)
    && Holds(mem, sp + WORD + WORD * |argv|, Little(end, WORD))
    && Copied(mem, sp + 2 * WORD + WORD * |argv|, env, low, top)
  }

  lemma HoldsFrame(mem: Memory, mem': Memory, addr: nat, data: seq<byte>)
    requires Holds(mem, addr, data) && forall a: nat :: addr <= a < addr + |data| ==> Same(mem, mem', a)
    ensures Holds(mem', addr, data)
  {
    forall k | 0 <= k < |data| ensures ByteAt(mem', addr + k, data[k]) {
      assert ByteAt(mem, addr + k, data[k]) && Same(mem, mem', addr + k);
    }
  }

  lemma CopiedFrame(mem: Memory, mem': Memory, slot: nat, strings: seq<seq<byte>>, low: nat, top: nat, b: nat,
                    low': nat)
    requires Copied(mem, slot, strings, low, top) && slot + WORD * |strings| <= b && 0 < low' <= low
    requires forall a: nat :: a < b || low <= a ==> Same(mem, mem', a)
    ensures Copied(mem', slot, strings, low', top)
  {
    forall i | 0 <= i < |strings| ensures CopiedOne(mem', slot + WORD * i, strings[i], low', top) {
      var s := strings[i];
      assert CopiedOne(mem, slot + WORD * i, s, low, top);
      var p :|
        && 0 < low <= p && p + |s| + 1 <= top < ADDRESSES
        && Holds(mem, slot + WORD * i, Little(p, WORD)) && Holds(mem, p, s + [0]);
      HoldsFrame(mem, mem', slot + WORD * i, Little(p, WORD));
      HoldsFrame(mem, mem', p, s + [0]);
    }
  }

  lemma BuiltFrame(mem: Memory, mem': Memory, sp: nat, argv: seq<seq<byte>>, end: nat, env: seq<seq<byte>>, low: nat,
                   top: nat, b: nat, low': nat)
    requires Built(mem, sp, argv, end, env, low, top)
    requires sp + 2 * WORD + WORD * |argv| + WORD * |env| <= b && 0 < low' <= low
    requires forall a: nat :: a < b || low <= a ==> Same(mem, mem', a)
    ensures Built(mem', sp, argv, end, env, low', top)
  {
    HoldsFrame(mem, mem', sp, Little(|argv|, WORD));
    HoldsFrame(mem, mem', sp + WORD + WORD * |argv|, Little(end, WORD));
    CopiedFrame(mem, mem', sp + WORD, argv, low, top, b, low');
    CopiedFrame(mem, mem', sp + 2 * WORD + WORD * |argv|, env, low, top, b, low');
  }

  /** The environment is copied above what was built before. */
  lemma BuiltAll(mem: Memory, mem': Memory, sp: nat, argv: seq<seq<byte>>, end: nat, env: seq<seq<byte>>, low: nat,
                 low': nat, top: nat)
    requires Built(mem, sp, argv, end, [], low, top) && 0 < low' <= low
    requires Copied(mem', sp + 2 * WORD + WORD * |argv|, env, low', top)
    requires forall a: nat :: a < sp + 2 * WORD + WORD * |argv| || low <= a ==> Same(mem, mem', a)
    ensures Built(mem', sp, argv, end, env, low', top)
  {
    BuiltFrame(mem, mem', sp, argv, end, [], low, top, sp + 2 * WORD + WORD * |argv|, low');
  }

  /** The count, then the arguments, then the word after them. */
  lemma BuiltHead(mem: Memory, m0: Memory, m1: Memory, sp: nat, argv: seq<seq<byte>>, end: nat, low: nat, top: nat)
    requires m0 == Written(mem, sp, Little(|argv|, WORD))
    requires forall a: nat :: a < sp + WORD || top <= a ==> Same(m0, m1, a)
    requires Copied(m1, sp + WORD, argv, low, top) && 0 < low && sp + 2 * WORD + WORD * |argv| <= low
    ensures Built(Written(m1, sp + WORD + WORD * |argv|, Little(end, WORD)), sp, argv, end, [], low, top)
  {
    var at := sp + WORD + WORD * |argv|;
    WrittenHolds(mem, sp, Little(|argv|, WORD));
    HoldsFrame(m0, m1, sp, Little(|argv|, WORD));
    WrittenElsewhere(m1, at, Little(end, WORD), sp, Little(|argv|, WORD));
    WrittenHolds(m1, at, Little(end, WORD));
    AllCopiedKept(m1, sp + WORD, argv, low, top, at, Little(end, WORD), low);
  }

  lemma {:induction false} ClosedBy(mem: Memory, sp: nat, argv: seq<seq<byte>>, end: nat, env: seq<seq<byte>>, low: nat,
                                    top: nat)
    requires Built(mem, sp, argv, end, env, low, top) && |argv| < ADDRESSES && end < ADDRESSES
    requires 0 < low && sp + 2 * WORD + WORD * |argv| + WORD * |env| + WORD + AUX_ENTRY <= low
    ensures var last := sp + 2 * WORD + WORD * |argv| + WORD * |env|;
      LaysOut(Written(Written(mem, last, Little(0, WORD)), last + WORD, Little(0, WORD) + Little(0, WORD)),
              sp, argv, end, env)
  {
    var last, zero := sp + 2 * WORD + WORD * |argv| + WORD * |env|, Little(0, WORD);
    var m1 := Written(mem, last, zero);
    var m2 := Written(m1, last + WORD, zero + zero);
    forall a: nat | a < last || low <= a ensures Same(mem, m2, a) {
      WrittenAt(mem, last, zero, a);
      WrittenAt(m1, last + WORD, zero + zero, a);
    }
    BuiltFrame(mem, m2, sp, argv, end, env, low, top, last, low);
    WrittenHolds(mem, last, zero);
    WrittenElsewhere(m1, last + WORD, zero + zero, last, zero);
    WrittenHolds(m1, last + WORD, zero + zero);
    HoldsParts(m2, last + WORD, zero, zero);
    WordRead(m2, last, 0);
    WordRead(m2, last + WORD, 0);
    WordRead(m2, last + 2 * WORD, 0);
    BuiltReads(m2, sp, argv, end, env, low, top);
  }

  lemma HoldsParts(mem: Memory, addr: nat, s: seq<byte>, t: seq<byte>)
    requires Holds(mem, addr, s + t)
    ensures Holds(mem, addr, s) && Holds(mem, addr + |s|, t)
  {
    forall k | 0 <= k < |s| ensures ByteAt(mem, addr + k, s[k]) { assert (s + t)[k] == s[k]; }
    forall k | 0 <= k < |t| ensures ByteAt(mem, addr + |s| + k, t[k]) { assert (s + t)[|s| + k] == t[k]; }
  }

  lemma BuiltReads(mem: Memory, sp: nat, argv: seq<seq<byte>>, end: nat, env: seq<seq<byte>>, low: nat, top: nat)
    requires Built(mem, sp, argv, end, env, low, top) && |argv| < ADDRESSES && end < ADDRESSES
    ensures ReadWord(mem, sp) == |argv| && ReadWord(mem, sp + WORD + WORD * |argv|) == end
    ensures forall i :: 0 <= i < |argv| ==> PointsTo(mem, sp + WORD + WORD * i, argv[i])
    ensures forall i :: 0 <= i < |env| ==> PointsTo(mem, sp + 2 * WORD + WORD * |argv| + WORD * i, env[i])
  {
    WordRead(mem, sp, |argv|);
    WordRead(mem, sp + WORD + WORD * |argv|, end);
    forall i | 0 <= i < |argv| ensures PointsTo(mem, sp + WORD + WORD * i, argv[i]) {
      CopiedPoints(mem, sp + WORD + WORD * i, argv[i], low, top);
    }
    forall i | 0 <= i < |env| ensures PointsTo(mem, sp + 2 * WORD + WORD * |argv| + WORD * i, env[i]) {
      CopiedPoints(mem, sp + 2 * WORD + WORD * |argv| + WORD * i, env[i], low, top);
    }
  }
}
