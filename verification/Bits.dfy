/** The bit functions of common_tools.h, for unsigned numbers of any width. */
module Bits {
  import opened Division

  function Pow2(k: nat): (p: nat)
    ensures p > 0
  {
    if k == 0 then 1 else 2 * Pow2(k - 1)
  }

  /** Bit `i` of `n`: what `n & (1 << i)` tests. */
  function Bit(n: nat, i: nat): nat {
    (n / Pow2(i)) % 2
  }

  /** The number that a string of binary digits denotes. */
  function Value(s: string): nat {
    if s == "" then 0 else 2 * Value(s[..|s| - 1]) + if s[|s| - 1] == '1' then 1 else 0
  }

  function Digit(b: nat): char {
    if b == 1 then '1' else '0'
  }

  lemma {:induction false} Shifted(n: nat, i: nat)
    ensures n / Pow2(i) / 2 == n / Pow2(i + 1)
    ensures n / Pow2(i) == 2 * (n / Pow2(i + 1)) + Bit(n, i)
  {
    DivTwice(n, Pow2(i));
  }

  lemma DivTwice(n: nat, p: nat)
    requires p > 0
    ensures n / p / 2 == n / (2 * p)
  {
    var q := n / p;
    var a, b := q / 2, q % 2;
    var rest := n - q * p;
    assert 0 <= rest < p;
    assert n == a * (2 * p) + (b * p + rest);
    Quotient(n, 2 * p, a, b * p + rest);
  }

  /** The digits of `n` from bit `hi - 1` down to bit `lo`. */
  function Digits(n: nat, lo: nat, hi: nat): (s: string)
    requires lo <= hi
    ensures |s| == hi - lo
    ensures forall k :: 0 <= k < |s| ==> s[k] == Digit(Bit(n, hi - 1 - k))
    decreases hi - lo
  {
    if lo == hi then "" else Digits(n, lo + 1, hi) + [Digit(Bit(n, lo))]
  }

  /** The digits from bit `lo` up denote what is left of `n` without the lower bits. */
  lemma {:induction false} DigitsValue(n: nat, lo: nat, hi: nat)
    requires lo <= hi && n < Pow2(hi)
    ensures Value(Digits(n, lo, hi)) == n / Pow2(lo)
    decreases hi - lo
  {
    if lo < hi {
      DigitsValue(n, lo + 1, hi);
      Shifted(n, lo);
      var s := Digits(n, lo, hi);
      assert s[..|s| - 1] == Digits(n, lo + 1, hi);
    } else {
      Quotient(n, Pow2(hi), 0, n);
    }
  }

  lemma {:induction false} ValueOfTail(s: string, k: nat)
    requires k <= |s| && forall j :: 0 <= j < k ==> s[j] == '0'
    ensures Value(s[k..]) == Value(s)
  {
    if k == |s| {
      ZerosValue(s);
    } else {
      var n := |s| - 1;
      ValueOfTail(s[..n], k);
      assert s[k..][..n - k] == s[..n][k..];
    }
  }

  lemma {:induction false} ZerosValue(s: string)
    requires forall j :: 0 <= j < |s| ==> s[j] == '0'
    ensures Value(s) == 0
  {
    if s != "" {
      ZerosValue(s[..|s| - 1]);
    }
  }

  /** `int2bin` for an unsigned type of `bits` bits: the binary digits of the number, without leading zeros. */
  method Int2Bin(number: nat, bits: nat) returns (r: string)
    requires number < Pow2(bits)
    ensures Value(r) == number
    ensures forall k :: 0 <= k < |r| ==> r[k] == '0' || r[k] == '1'
    ensures if number == 0 then r == "0" else r != "" && r[0] == '1' && |r| <= bits
  {
    if number == 0 {
      return "0";
    }
    var position: nat := 0;
    var ret := seq(bits, _ => '0');
    var i := 0;
    while i < bits
      invariant 0 <= i <= bits == |ret|
      invariant forall k :: 0 <= k < bits - i ==> ret[k] == '0'
      invariant forall k :: bits - i <= k < bits ==> ret[k] == Digit(Bit(number, bits - 1 - k))
      invariant position <= bits && (bits > 0 ==> position < bits)
      invariant (forall k :: bits - i <= k < bits ==> ret[k] == '0') ||
        (bits - i <= position < bits && ret[position] == '1' &&
         forall k :: bits - i <= k < position ==> ret[k] == '0')
    {
      if Bit(number, i) != 0 {
        position := bits - 1 - i;
        ret := ret[position := '1'];
      }
      i := i + 1;
    }
    assert ret == Digits(number, 0, bits);
    DigitsValue(number, 0, bits);
    if forall k :: 0 <= k < bits ==> ret[k] == '0' {
      ZerosValue(ret);
    }
    ValueOfTail(ret, position);
    r := ret[position..];
  }

  // ---------- counting ones ----------

  /** How many bits of `n` are 1. */
  function Ones(n: nat): nat {
    if n == 0 then 0 else n % 2 + Ones(n / 2)
  }

  /** The bitwise conjunction. */
  function And(a: nat, b: nat): nat {
    if a == 0 || b == 0 then 0 else 2 * And(a / 2, b / 2) + if a % 2 == 1 && b % 2 == 1 then 1 else 0
  }

  lemma {:induction false} AndSelf(a: nat)
    ensures And(a, a) == a
  {
    if a > 0 {
      AndSelf(a / 2);
    }
  }

  lemma BitOfHalf(n: nat, i: nat)
    ensures Bit(n, i + 1) == Bit(n / 2, i)
  {
    var p := Pow2(i);
    var q, rest := n / 2 / p, n / 2 % p;
    assert n / 2 == q * p + rest;
    assert n == q * (2 * p) + (2 * rest + n % 2);
    Quotient(n, 2 * p, q, 2 * rest + n % 2);
  }

  /** Bit by bit: a bit of the conjunction is 1 exactly when both bits are. */
  lemma {:induction false} AndBits(a: nat, b: nat, i: nat)
    ensures Bit(And(a, b), i) == if Bit(a, i) == 1 && Bit(b, i) == 1 then 1 else 0
  {
    if a == 0 || b == 0 {
      Quotient(0, Pow2(i), 0, 0);
    } else if i > 0 {
      hide Bit;
      AndBits(a / 2, b / 2, i - 1);
      BitOfHalf(a, i - 1);
      BitOfHalf(b, i - 1);
      BitOfHalf(And(a, b), i - 1);
      assert And(a, b) / 2 == And(a / 2, b / 2);
    } else {
      assert Pow2(0) == 1;
    }
  }

  /** `n & (n - 1)` is `n` without its lowest 1. */
  lemma {:induction false} ClearsLowest(n: nat)
    requires n > 0
    ensures And(n, n - 1) < n && Ones(And(n, n - 1)) == Ones(n) - 1
  {
    if n == 1 {
    } else if n % 2 == 1 {
      AndSelf(n / 2);
      assert (n - 1) / 2 == n / 2;
      assert And(n, n - 1) == 2 * (n / 2);
    } else {
      ClearsLowest(n / 2);
      assert (n - 1) / 2 == n / 2 - 1;
      assert And(n, n - 1) == 2 * And(n / 2, n / 2 - 1);
    }
  }

  /** `bin1num` for an unsigned number: as many turns of the loop as there are ones. */
  method Bin1Num(number: nat) returns (count: nat, ghost turns: nat)
    ensures count == Ones(number) && turns == Ones(number)
  {
    count := 0;
    turns := 0;
    var n := number;
    while n != 0
      invariant count == turns && turns + Ones(n) == Ones(number)
      decreases n
    {
      ClearsLowest(n);
      n := And(n, n - 1);
      count := count + 1;
      turns := turns + 1;
    }
  }

  function CountOnes(s: string): nat {
    if s == "" then 0 else CountOnes(s[..|s| - 1]) + if s[|s| - 1] == '1' then 1 else 0
  }

  /** The two functions agree: the ones counted are the digits 1 written. */
  lemma {:induction false} OnesAreDigits(s: string)
    ensures Ones(Value(s)) == CountOnes(s)
  {
    if s != "" {
      OnesAreDigits(s[..|s| - 1]);
      var v := Value(s[..|s| - 1]);
      assert Value(s) / 2 == v;
    }
  }
}
