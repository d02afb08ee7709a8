/**
 `Base64Encode` of the SMTP socket, against a decoder for the encoding of section 4 of RFC 4648.
 Characters are bytes.
 */
module Base64 {

  /** The encoder's table for a 6-bit value: A-Z, a-z, 0-9, '+', '/'; entry 64 is the padding character '='. */
  function Symbol(v: bv8): bv8 {
    if v < 26 then 65 + v
    else if v < 52 then 97 + (v - 26)
    else if v < 62 then 48 + (v - 52)
    else if v == 62 then 43
    else if v == 63 then 47
    else 61
  }

  const PAD: bv8 := 61

  /** The value a decoder reads from a character of the alphabet. */
  function SymbolValue(c: bv8): bv8 {
    if 65 <= c <= 90 then c - 65
    else if 97 <= c <= 122 then c - 97 + 26
    else if 48 <= c <= 57 then c - 48 + 52
    else if c == 43 then 62
    else 63
  }

  // the four 6-bit values of three bytes, as the encoder masks and shifts them out

  function First(a: bv8): bv8 {
    (a & 0xFC) >> 2
  }

  function Second(a: bv8, b: bv8): bv8 {
    ((a & 0x03) << 4) + ((b & 0xF0) >> 4)
  }

  function Third(b: bv8, c: bv8): bv8 {
    ((b & 0x0F) << 2) + ((c & 0xC0) >> 6)
  }

  function Fourth(c: bv8): bv8 {
    c & 0x3F
  }

  // the three bytes of four values, as a decoder puts them together

  function ByteOne(v: bv8, w: bv8): bv8 {
    (v << 2) | (w >> 4)
  }

  function ByteTwo(w: bv8, x: bv8): bv8 {
    (w << 4) | (x >> 2)
  }

  function ByteThree(x: bv8, y: bv8): bv8 {
    (x << 6) | y
  }

  /** A value written as a symbol is read back, and is not taken for padding. */
  lemma SymbolRead(v: bv8)
    requires v < 64
    ensures SymbolValue(Symbol(v)) == v && Symbol(v) != PAD
  {
  }

  lemma SmallValues(a: bv8, b: bv8, c: bv8)
    ensures First(a) < 64 && Second(a, b) < 64 && Third(b, c) < 64 && Fourth(c) < 64
  {
  }

  /** Three bytes are recovered from their four values. */
  lemma Recovered(a: bv8, b: bv8, c: bv8)
    ensures ByteOne(First(a), Second(a, b)) == a
    ensures ByteTwo(Second(a, b), Third(b, c)) == b
    ensures ByteThree(Third(b, c), Fourth(c)) == c
  {
  }

  // ---------- the decoder ----------

  /** The bytes that four characters stand for: one, two or three, by the padding. */
  function DecodeFour(q: seq<bv8>): seq<bv8>
    requires |q| == 4
  {
    var v, w, x, y := SymbolValue(q[0]), SymbolValue(q[1]), SymbolValue(q[2]), SymbolValue(q[3]);
    var a, b, c := ByteOne(v, w), ByteTwo(w, x), ByteThree(x, y);
    if q[2] == PAD then [a] else if q[3] == PAD then [a, b] else [a, b, c]
  }

  function Decode(s: seq<bv8>): seq<bv8>
    requires |s| % 4 == 0
  {
    if s == [] then [] else DecodeFour(s[..4]) + Decode(s[4..])
  }

  // ---------- the encoder ----------

  /** The values that the two parts of the encoder write for `s`: four for every three bytes begun, 64 for padding. */
  function Values(s: seq<bv8>): seq<bv8> {
    if |s| >= 3 then
      [First(s[0]), Second(s[0], s[1]), Third(s[1], s[2]), Fourth(s[2])] + Values(s[3..])
    else if |s| == 2 then [First(s[0]), Second(s[0], s[1]), Third(s[1], 0), 64]
    else if |s| == 1 then [First(s[0]), Second(s[0], 0), 64, 64]
    else []
  }

  function Symbols(vs: seq<bv8>): (r: seq<bv8>)
    ensures |r| == |vs|
    ensures forall k :: 0 <= k < |vs| ==> r[k] == Symbol(vs[k])
  {
    seq(|vs|, k requires 0 <= k < |vs| => Symbol(vs[k]))
  }

  lemma {:induction false} ValuesLength(s: seq<bv8>)
    ensures |Values(s)| == (|s| + 2) / 3 * 4
  {
    if |s| >= 3 {
      ValuesLength(s[3..]);
    }
  }

  /** Whole groups of three bytes are encoded one by one. */
  lemma {:induction false} ValuesAppend(s: seq<bv8>, t: seq<bv8>)
    requires |s| % 3 == 0
    ensures Values(s + t) == Values(s) + Values(t)
  {
    if s == [] {
      assert s + t == t;
    } else {
      assert (s + t)[3..] == s[3..] + t;
      ValuesAppend(s[3..], t);
    }
  }

  lemma DecodeWhole(a: bv8, b: bv8, c: bv8)
    ensures DecodeFour(Symbols([First(a), Second(a, b), Third(b, c), Fourth(c)])) == [a, b, c]
  {
    SmallValues(a, b, c);
    SymbolRead(First(a));
    SymbolRead(Second(a, b));
    SymbolRead(Third(b, c));
    SymbolRead(Fourth(c));
    Recovered(a, b, c);
  }

  lemma DecodeTwo(a: bv8, b: bv8)
    ensures DecodeFour(Symbols([First(a), Second(a, b), Third(b, 0), 64])) == [a, b]
  {
    SmallValues(a, b, 0);
    SymbolRead(First(a));
    SymbolRead(Second(a, b));
    SymbolRead(Third(b, 0));
    Recovered(a, b, 0);
  }

  lemma DecodeOne(a: bv8)
    ensures DecodeFour(Symbols([First(a), Second(a, 0), 64, 64])) == [a]
  {
    SmallValues(a, 0, 0);
    SymbolRead(First(a));
    SymbolRead(Second(a, 0));
    Recovered(a, 0, 0);
  }

  /** What the encoder writes decodes to what was encoded. */
  lemma {:induction false} DecodesBack(s: seq<bv8>)
    ensures |Values(s)| % 4 == 0
    ensures Decode(Symbols(Values(s))) == s
  {
    ValuesLength(s);
    hide First, Second, Third, Fourth, DecodeFour, Symbol;
    var r := Symbols(Values(s));
    if |s| >= 3 {
      var q := [First(s[0]), Second(s[0], s[1]), Third(s[1], s[2]), Fourth(s[2])];
      DecodeWhole(s[0], s[1], s[2]);
      DecodesBack(s[3..]);
      assert r[..4] == Symbols(q);
      assert r[4..] == Symbols(Values(s[3..]));
    } else if |s| == 2 {
      DecodeTwo(s[0], s[1]);
      assert r[..4] == r && r[4..] == [];
    } else if |s| == 1 {
      DecodeOne(s[0]);
      assert r[..4] == r && r[4..] == [];
    } else {
      assert s == [] && r == [];
    }
  }

  // ---------- the encoding and no other ----------

  predicate InAlphabet(c: bv8) {
    65 <= c <= 90 || 97 <= c <= 122 || 48 <= c <= 57 || c == 43 || c == 47
  }

  predicate LowTwoZero(v: bv8) {
    v & 0x03 == 0
  }

  predicate LowFourZero(v: bv8) {
    v & 0x0F == 0
  }

  /** Four characters of the alphabet; in the last four, padding may end them, and unused bits are zero. */
  predicate CanonicalFour(q: seq<bv8>, last: bool)
    requires |q| == 4
  {
    && InAlphabet(q[0]) && InAlphabet(q[1])
    && if InAlphabet(q[2]) && InAlphabet(q[3]) then true
       else if InAlphabet(q[2]) then last && q[3] == PAD && LowTwoZero(SymbolValue(q[2]))
       else last && q[2] == q[3] == PAD && LowFourZero(SymbolValue(q[1]))
  }

  predicate Canonical(s: seq<bv8>)
    requires |s| % 4 == 0
  {
    s == [] || (CanonicalFour(s[..4], |s| == 4) && Canonical(s[4..]))
  }

  lemma SymbolWritten(c: bv8)
    requires InAlphabet(c)
    ensures SymbolValue(c) < 64 && Symbol(SymbolValue(c)) == c && c != PAD
  {
  }

  lemma SymbolInAlphabet(v: bv8)
    requires v < 64
    ensures InAlphabet(Symbol(v))
  {
  }

  /** Four values are recovered from the three bytes that they stand for. */
  lemma Rewritten(v: bv8, w: bv8, x: bv8, y: bv8)
    requires v < 64 && w < 64 && x < 64 && y < 64
    ensures var a, b, c := ByteOne(v, w), ByteTwo(w, x), ByteThree(x, y);
      First(a) == v && Second(a, b) == w && Third(b, c) == x && Fourth(c) == y
  {
  }

  lemma ShortRewritten(v: bv8, w: bv8, x: bv8)
    requires v < 64 && w < 64 && x < 64
    ensures var a, b := ByteOne(v, w), ByteTwo(w, x);
      && First(a) == v && Second(a, b) == w
      && (LowTwoZero(x) ==> Third(b, 0) == x) && (LowFourZero(w) ==> Second(a, 0) == w)
  {
  }

  /** The values of one, two or three bytes, as symbols. */
  lemma ValuesOfFew(a: bv8, b: bv8, c: bv8)
    ensures Symbols(Values([a, b, c])) ==
      [Symbol(First(a)), Symbol(Second(a, b)), Symbol(Third(b, c)), Symbol(Fourth(c))]
    ensures Symbols(Values([a, b])) == [Symbol(First(a)), Symbol(Second(a, b)), Symbol(Third(b, 0)), Symbol(64)]
    ensures Symbols(Values([a])) == [Symbol(First(a)), Symbol(Second(a, 0)), Symbol(64), Symbol(64)]
  {
    hide First, Second, Third, Fourth, Symbol;
    NoValues();
    assert [a, b, c][3..] == [];
  }

  lemma FourRewritten(q: seq<bv8>, last: bool)
    requires |q| == 4 && CanonicalFour(q, last)
    ensures Symbols(Values(DecodeFour(q))) == q
    ensures |DecodeFour(q)| == 3 || last
  {
    hide First, Second, Third, Fourth, ByteOne, ByteTwo, ByteThree, LowTwoZero, LowFourZero;
    hide InAlphabet, SymbolValue, Symbol, Values, Symbols;
    Padding();
    SymbolWritten(q[0]);
    SymbolWritten(q[1]);
    var v, w := SymbolValue(q[0]), SymbolValue(q[1]);
    if q[2] == PAD {
      ShortRewritten(v, w, 0);
      ValuesOfFew(ByteOne(v, w), 0, 0);
    } else {
      SymbolWritten(q[2]);
      var x := SymbolValue(q[2]);
      if q[3] == PAD {
        ShortRewritten(v, w, x);
        ValuesOfFew(ByteOne(v, w), ByteTwo(w, x), 0);
      } else {
        SymbolWritten(q[3]);
        var y := SymbolValue(q[3]);
        Rewritten(v, w, x, y);
        ValuesOfFew(ByteOne(v, w), ByteTwo(w, x), ByteThree(x, y));
      }
    }
  }

  lemma Padding()
    ensures Symbol(64) == PAD && !InAlphabet(PAD)
  {
  }

  lemma SymbolsAppend(vs: seq<bv8>, ws: seq<bv8>)
    ensures Symbols(vs + ws) == Symbols(vs) + Symbols(ws)
  {
    hide Symbol;
  }

  /** A canonical string is the encoding of what it decodes to. */
  lemma {:induction false} Reencoded(s: seq<bv8>)
    requires |s| % 4 == 0 && Canonical(s)
    ensures Symbols(Values(Decode(s))) == s
  {
    hide DecodeFour, Values, Symbols, CanonicalFour;
    if s == [] {
      NoValues();
      SymbolsAppend([], []);
    } else {
      var q, rest := s[..4], s[4..];
      var t, u := DecodeFour(q), Decode(rest);
      assert s == q + rest;
      FourRewritten(q, |s| == 4);
      if rest == [] {
        assert t + u == t;
      } else {
        Reencoded(rest);
        ValuesAppend(t, u);
        SymbolsAppend(Values(t), Values(u));
      }
    }
  }

  /** What the encoder writes is canonical. */
  lemma {:induction false} EncodedCanonical(s: seq<bv8>)
    ensures |Values(s)| % 4 == 0 && Canonical(Symbols(Values(s)))
  {
    ValuesLength(s);
    hide First, Second, Third, Fourth, Symbol, CanonicalFour;
    var r := Symbols(Values(s));
    if |s| >= 3 {
      var q := [First(s[0]), Second(s[0], s[1]), Third(s[1], s[2]), Fourth(s[2])];
      FourCanonical(s[0], s[1], s[2], |r| == 4);
      EncodedCanonical(s[3..]);
      assert r[..4] == Symbols(q) && r[4..] == Symbols(Values(s[3..]));
    } else if |s| > 0 {
      var b := if |s| == 2 then s[1] else 0;
      FourCanonical(s[0], b, 0, true);
      assert r[..4] == r && r[4..] == [];
    }
  }

  lemma FourCanonical(a: bv8, b: bv8, c: bv8, last: bool)
    ensures CanonicalFour(Symbols([First(a), Second(a, b), Third(b, c), Fourth(c)]), last)
    ensures CanonicalFour(Symbols([First(a), Second(a, b), Third(b, 0), 64]), true)
    ensures CanonicalFour(Symbols([First(a), Second(a, 0), 64, 64]), true)
  {
    SmallValues(a, b, c);
    SmallValues(a, b, 0);
    SmallValues(a, 0, 0);
    UnusedBits(a, b);
    Padding();
    hide First, Second, Third, Fourth, InAlphabet, SymbolValue, Symbol, LowTwoZero, LowFourZero;
    forall v: bv8 | v < 64 ensures InAlphabet(Symbol(v)) && SymbolValue(Symbol(v)) == v {
      SymbolInAlphabet(v);
      SymbolRead(v);
    }
  }

  lemma UnusedBits(a: bv8, b: bv8)
    ensures LowTwoZero(Third(b, 0)) && LowFourZero(Second(a, 0))
  {
  }

  /** The encoding is the one canonical string that decodes to the source. */
  lemma EncodingIs(src: seq<bv8>, s: seq<bv8>)
    ensures s == Symbols(Values(src)) <==> |s| % 4 == 0 && Canonical(s) && Decode(s) == src
  {
    hide Values, Canonical, Decode;
    EncodedCanonical(src);
    DecodesBack(src);
    if |s| % 4 == 0 && Canonical(s) {
      Reencoded(s);
    }
  }

  // ---------- the loops ----------

  /** The first loop of `Base64Encode`: the values of the whole groups of three bytes. */
  method EncodeGroups(src: seq<bv8>, dst: array<bv8>) returns (i: nat, j: nat)
    requires dst.Length == |src| / 3 * 4 + 4 && forall k :: 0 <= k < dst.Length ==> dst[k] == 0
    modifies dst
    ensures i == |src| / 3 * 3 && j == |src| / 3 * 4
    ensures dst[..j] == Values(src[..i])
    ensures forall k :: j <= k < dst.Length ==> dst[k] == 0
  {
    hide First, Second, Third, Fourth, Values;
    i, j := 0, 0;
    NoValues();
    assert dst[..j] == [] && src[..i] == [];
    while i <= |src| - 3
      invariant 0 <= i <= |src| && i % 3 == 0 && j == i / 3 * 4
      invariant dst[..j] == Values(src[..i])
      invariant forall k :: j <= k < dst.Length ==> dst[k] == 0
    {
      ghost var before := dst[..j];
      ValuesOfThree(src, i);
      dst[j] := First(src[i]);
      dst[j + 1] := Second(src[i], src[i + 1]);
      dst[j + 2] := Third(src[i + 1], src[i + 2]);
      dst[j + 3] := Fourth(src[i + 2]);
      assert dst[..j] == before;
      Four(dst, j);
      i := i + 3;
      j := j + 4;
    }
  }

  lemma NoValues()
    ensures Values([]) == []
  {
  }

  lemma Four(dst: array<bv8>, j: nat)
    requires j + 4 <= dst.Length
    ensures dst[..j + 4] == dst[..j] + [dst[j], dst[j + 1], dst[j + 2], dst[j + 3]]
  {
  }

  /** The middle of `Base64Encode`: the values of one or two bytes left over, with padding. */
  method EncodeRest(src: seq<bv8>, dst: array<bv8>, i: nat, j0: nat) returns (j: nat)
    requires i == |src| / 3 * 3 && j0 + 4 == dst.Length && dst[..j0] == Values(src[..i])
    modifies dst
    ensures j == if |src| % 3 == 0 then j0 else j0 + 4
    ensures dst[..j] == Values(src)
    ensures forall k :: j <= k < dst.Length ==> dst[k] == old(dst[k])
  {
    hide First, Second, Third, Fourth, Values;
    j := j0;
    ValuesOfRest(src, i);
    ghost var before := dst[..j];
    if |src| % 3 == 1 {
      dst[j] := First(src[i]);
      dst[j + 1] := Second(src[i], 0);
      dst[j + 2] := 64;
      dst[j + 3] := 64;
      assert dst[..j] == before;
      Four(dst, j);
      j := j + 4;
    } else if |src| % 3 == 2 {
      dst[j] := First(src[i]);
      dst[j + 1] := Second(src[i], src[i + 1]);
      dst[j + 2] := Third(src[i + 1], 0);
      dst[j + 3] := 64;
      assert dst[..j] == before;
      Four(dst, j);
      j := j + 4;
    }
  }

  /** The last loop of `Base64Encode`: from values to characters. */
  method ToSymbols(dst: array<bv8>, j: nat)
    requires j <= dst.Length
    modifies dst
    ensures dst[..j] == Symbols(old(dst[..j])) && dst[j..] == old(dst[j..])
  {
    hide Symbol;
    var i := 0;
    while i < j
      invariant 0 <= i <= j
      invariant forall k :: 0 <= k < i ==> dst[k] == Symbol(old(dst[k]))
      invariant forall k :: i <= k < dst.Length ==> dst[k] == old(dst[k])
    {
      dst[i] := Symbol(dst[i]);
      i := i + 1;
    }
  }

  /**
   `Base64Encode`: the encoding that the decoder reads back, followed by four NULs when the length of
   the source is a multiple of 3.
   */
  method Base64Encode(src: seq<bv8>) returns (r: seq<bv8>)
    ensures |r| == |src| / 3 * 4 + 4
    ensures var n := (|src| + 2) / 3 * 4;
      && n <= |r| && n % 4 == 0
      && r[..n] == Symbols(Values(src)) && Canonical(r[..n]) && Decode(r[..n]) == src
      && r[n..] == if |src| % 3 == 0 then [0, 0, 0, 0] else []
  {
    hide Symbol, Decode, Values, Canonical;
    var dst := new bv8[|src| / 3 * 4 + 4](_ => 0);
    var i, j := EncodeGroups(src, dst);
    j := EncodeRest(src, dst, i, j);
    assert dst[j..] == if |src| % 3 == 0 then [0, 0, 0, 0] else [];
    ToSymbols(dst, j);
    EncodingIs(src, Symbols(Values(src)));
    ValuesLength(src);
    r := dst[..];
    assert r[..j] == dst[..j] && r[j..] == dst[j..];
  }

  lemma ValuesOfThree(src: seq<bv8>, i: nat)
    requires i % 3 == 0 && i + 3 <= |src|
    ensures Values(src[..i + 3]) ==
      Values(src[..i]) +
      [First(src[i]), Second(src[i], src[i + 1]), Third(src[i + 1], src[i + 2]), Fourth(src[i + 2])]
  {
    hide First, Second, Third, Fourth;
    var t := src[i..i + 3];
    assert src[..i + 3] == src[..i] + t;
    ValuesAppend(src[..i], t);
    assert Values(t[3..]) == [];
  }

  lemma ValuesOfRest(src: seq<bv8>, i: nat)
    requires i % 3 == 0 && i <= |src| < i + 3
    ensures |src| == i ==> Values(src) == Values(src[..i])
    ensures |src| == i + 1 ==> Values(src) == Values(src[..i]) + [First(src[i]), Second(src[i], 0), 64, 64]
    ensures |src| == i + 2 ==>
      Values(src) == Values(src[..i]) + [First(src[i]), Second(src[i], src[i + 1]), Third(src[i + 1], 0), 64]
  {
    hide First, Second, Third, Fourth;
    assert src == src[..i] + src[i..];
    ValuesAppend(src[..i], src[i..]);
  }
}
