/** Unsigned numbers as bytes, least significant byte first. */
module Words {
  import opened Arithmetic

  type byte = x: int | 0 <= x < 256

  function Little(v: nat, n: nat): (r: seq<byte>)
    ensures |r| == n
  {
    if n == 0 then [] else [v % 256] + Little(v / 256, n - 1)
  }

  function Value(bytes: seq<byte>): nat {
    if bytes == [] then 0 else bytes[0] + 256 * Value(bytes[1..])
  }

  function Power(n: nat): (r: nat)
    ensures r > 0
  {
    if n == 0 then 1 else 256 * Power(n - 1)
  }

  /** The byte at position i counts 256 to the power of i. */
  lemma {:induction false} LittleAt(v: nat, n: nat, i: nat)
    requires i < n
    ensures Little(v, n)[i] == v / Power(i) % 256
  {
    if i == 0 {
    } else {
      LittleAt(v / 256, n - 1, i - 1);
      DivideTwice(v, Power(i - 1));
    }
  }

  lemma DivideTwice(v: nat, p: nat)
    requires p > 0
    ensures v / 256 / p == v / (256 * p)
  {
    var q, r := v / 256 / p, v / 256 % p;
    var s := v % 256;
    assert v == 256 * (p * q + r) + s;
    assert v == (256 * p) * q + (256 * r + s);
    Remainder(v, 256 * p, q, 256 * r + s);
  }

  lemma {:induction false} LittleValue(v: nat, n: nat)
    requires v < Power(n)
    ensures Value(Little(v, n)) == v
  {
    if n == 0 {
    } else {
      LittleValue(v / 256, n - 1);
      assert Little(v, n)[1..] == Little(v / 256, n - 1);
    }
  }
}
