/** Length-prefixed frames in a byte stream: the reference parser for `get_one_code`. */
module Framing {

  newtype byte = x: int | 0 <= x < 256

  /** The width of the length field. */
  function Width(fourBytes: bool): nat {
    if fourBytes then 4 else 2
  }

  /** A big-endian number, as `ntohs` and `ntohl` read it. */
  function BigEndian(bs: seq<byte>): nat {
    if bs == [] then 0 else 256 * BigEndian(bs[..|bs| - 1]) + bs[|bs| - 1] as nat
  }

  /** What the front of a stream holds; a frame's length counts its own length field. */
  datatype Front = Incomplete | ZeroLength | Whole(size: nat)

  function Peek(fourBytes: bool, s: seq<byte>): (f: Front)
    ensures f.Whole? ==> 0 < f.size <= |s|
  {
    if |s| < Width(fourBytes) then Incomplete
    else
      var size := BigEndian(s[..Width(fourBytes)]);
      if size == 0 then ZeroLength
      else if |s| < size then Incomplete
      else Whole(size)
  }

  /** The length that the first two, or four, bytes of a stream announce: the first byte counts most. */
  ghost function Announced(fourBytes: bool, s: seq<byte>): nat
    requires |s| >= if fourBytes then 4 else 2
  {
    if fourBytes then
      s[0] as nat * 0x100_0000 + s[1] as nat * 0x1_0000 + s[2] as nat * 0x100 + s[3] as nat
    else
      s[0] as nat * 0x100 + s[1] as nat
  }

  lemma PeekReads(fourBytes: bool, s: seq<byte>)
    ensures Peek(fourBytes, s) ==
      if |s| < (if fourBytes then 4 else 2) then Incomplete
      else if Announced(fourBytes, s) == 0 then ZeroLength
      else if |s| < Announced(fourBytes, s) then Incomplete
      else Whole(Announced(fourBytes, s))
  {
    if fourBytes && |s| >= 4 {
      BigEndianFour(s[0], s[1], s[2], s[3]);
      assert s[..4] == [s[0], s[1], s[2], s[3]];
    } else if !fourBytes && |s| >= 2 {
      BigEndianTwo(s[0], s[1]);
      assert s[..2] == [s[0], s[1]];
    }
  }

  lemma BigEndianMore(bs: seq<byte>, b: byte)
    ensures BigEndian(bs + [b]) == 0x100 * BigEndian(bs) + b as nat
  {
    assert (bs + [b])[..|bs|] == bs;
  }

  lemma BigEndianTwo(a: byte, b: byte)
    ensures BigEndian([a, b]) == a as nat * 0x100 + b as nat
  {
    assert [] + [a] == [a] && [a] + [b] == [a, b];
    BigEndianMore([], a);
    BigEndianMore([a], b);
  }

  lemma BigEndianFour(a: byte, b: byte, c: byte, d: byte)
    ensures BigEndian([a, b, c, d]) ==
      a as nat * 0x100_0000 + b as nat * 0x1_0000 + c as nat * 0x100 + d as nat
  {
    hide BigEndian;
    BigEndianTwo(a, b);
    assert [a, b] + [c] == [a, b, c] && [a, b, c] + [d] == [a, b, c, d];
    BigEndianMore([a, b], c);
    BigEndianMore([a, b, c], d);
  }

  /** A length as its field, most significant byte first. */
  function LengthField(fourBytes: bool, n: nat): (bs: seq<byte>)
    requires n < if fourBytes then 0x1_0000_0000 else 0x1_0000
    ensures |bs| == Width(fourBytes)
  {
    if fourBytes then
      [(n / 0x100_0000) as byte, (n / 0x1_0000 % 0x100) as byte, (n / 0x100 % 0x100) as byte, (n % 0x100) as byte]
    else
      [(n / 0x100) as byte, (n % 0x100) as byte]
  }

  lemma FieldAnnounces(fourBytes: bool, n: nat, payload: seq<byte>)
    requires n < if fourBytes then 0x1_0000_0000 else 0x1_0000
    ensures Announced(fourBytes, LengthField(fourBytes, n) + payload) == n
  {
    var field := LengthField(fourBytes, n);
    assert forall k :: 0 <= k < |field| ==> (field + payload)[k] == field[k];
    if fourBytes {
      FourDigits(n);
    }
  }

  lemma FourDigits(n: nat)
    ensures n == n / 0x100_0000 * 0x100_0000 + n / 0x1_0000 % 0x100 * 0x1_0000 + n / 0x100 % 0x100 * 0x100 + n % 0x100
  {
    assert n == n / 0x100 * 0x100 + n % 0x100;
    assert n / 0x100 == n / 0x1_0000 * 0x100 + n / 0x100 % 0x100;
    assert n / 0x1_0000 == n / 0x100_0000 * 0x100 + n / 0x1_0000 % 0x100;
  }

  /** A payload behind its length field is a frame, for every payload whose length fits. */
  lemma FieldMakesFrame(fourBytes: bool, payload: seq<byte>)
    requires |payload| + Width(fourBytes) < if fourBytes then 0x1_0000_0000 else 0x1_0000
    ensures IsFrame(fourBytes, LengthField(fourBytes, |payload| + Width(fourBytes)) + payload)
  {
    hide Peek, Announced, LengthField;
    var n := |payload| + Width(fourBytes);
    FieldAnnounces(fourBytes, n, payload);
    PeekReads(fourBytes, LengthField(fourBytes, n) + payload);
  }

  /** Cut the stream into frames as long as its front is a whole frame. */
  function Parse(fourBytes: bool, s: seq<byte>): (r: (seq<seq<byte>>, seq<byte>))
    decreases |s|
  {
    match Peek(fourBytes, s)
    case Whole(size) =>
      var (frames, rest) := Parse(fourBytes, s[size..]);
      ([s[..size]] + frames, rest)
    case _ => ([], s)
  }

  function Flatten(fs: seq<seq<byte>>): seq<byte> {
    if fs == [] then [] else fs[0] + Flatten(fs[1..])
  }

  /** A sequence of bytes that is exactly one frame. */
  predicate IsFrame(fourBytes: bool, f: seq<byte>) {
    Peek(fourBytes, f) == Whole(|f|)
  }

  predicate AllFrames(fourBytes: bool, fs: seq<seq<byte>>) {
    forall k :: 0 <= k < |fs| ==> IsFrame(fourBytes, fs[k])
  }

  // ---------- cutting loses nothing ----------

  lemma ParseStep(fourBytes: bool, s: seq<byte>)
    ensures var f := Peek(fourBytes, s);
      Parse(fourBytes, s) ==
        if f.Whole? then ([s[..f.size]] + Parse(fourBytes, s[f.size..]).0, Parse(fourBytes, s[f.size..]).1)
        else ([], s)
  {
  }

  lemma {:induction false} ParseFlatten(fourBytes: bool, s: seq<byte>)
    ensures Flatten(Parse(fourBytes, s).0) + Parse(fourBytes, s).1 == s
    ensures !Peek(fourBytes, Parse(fourBytes, s).1).Whole?
    decreases |s|
  {
    hide Peek, Parse, Flatten;
    ParseStep(fourBytes, s);
    var f := Peek(fourBytes, s);
    if f.Whole? {
      var front, tail := s[..f.size], s[f.size..];
      var frames, rest := Parse(fourBytes, tail).0, Parse(fourBytes, tail).1;
      ParseFlatten(fourBytes, tail);
      FlattenCons(front, frames);
      assert s == front + tail;
      assert front + (Flatten(frames) + rest) == front + Flatten(frames) + rest;
    } else {
      FlattenNone();
    }
  }

  lemma FlattenNone()
    ensures Flatten([]) == []
  {
  }

  lemma FlattenCons(f: seq<byte>, fs: seq<seq<byte>>)
    ensures Flatten([f] + fs) == f + Flatten(fs)
  {
    assert ([f] + fs)[1..] == fs;
  }

  lemma {:induction false} FlattenAppend(fs: seq<seq<byte>>, gs: seq<seq<byte>>)
    ensures Flatten(fs + gs) == Flatten(fs) + Flatten(gs)
  {
    hide Flatten;
    if fs == [] {
      assert fs + gs == gs;
      FlattenNone();
    } else {
      var f, rest := fs[0], fs[1..];
      FlattenAppend(rest, gs);
      assert fs == [f] + rest && fs + gs == [f] + (rest + gs);
      FlattenCons(f, rest);
      FlattenCons(f, rest + gs);
      assert f + (Flatten(rest) + Flatten(gs)) == f + Flatten(rest) + Flatten(gs);
    }
  }

  lemma FlattenOne(f: seq<byte>)
    ensures Flatten([f]) == f
  {
  }

  // ---------- cutting does not depend on how the stream arrived ----------

  /** A whole frame at the front stays the same frame whatever follows it. */
  lemma PeekAppend(fourBytes: bool, s: seq<byte>, t: seq<byte>)
    ensures Peek(fourBytes, s).Whole? ==> Peek(fourBytes, s + t) == Peek(fourBytes, s)
  {
    if |s| >= Width(fourBytes) {
      assert (s + t)[..Width(fourBytes)] == s[..Width(fourBytes)];
    }
  }

  /** Bytes that arrive later are parsed together with what an earlier parse left over. */
  lemma {:induction false} ParseAppend(fourBytes: bool, s: seq<byte>, t: seq<byte>)
    ensures var (frames, rest) := Parse(fourBytes, s);
      var (more, last) := Parse(fourBytes, rest + t);
      Parse(fourBytes, s + t) == (frames + more, last)
    decreases |s|
  {
    hide Peek, Parse;
    ParseStep(fourBytes, s);
    var f := Peek(fourBytes, s);
    if f.Whole? {
      var front, tail := s[..f.size], s[f.size..];
      PeekAppend(fourBytes, s, t);
      ParseStep(fourBytes, s + t);
      ParseAppend(fourBytes, tail, t);
      assert (s + t)[..f.size] == front;
      assert (s + t)[f.size..] == tail + t;
      var frames, rest := Parse(fourBytes, tail).0, Parse(fourBytes, tail).1;
      Regroup([front], frames, Parse(fourBytes, rest + t).0);
    } else {
      assert [] + Parse(fourBytes, s + t).0 == Parse(fourBytes, s + t).0;
    }
  }

  lemma Regroup<T>(a: seq<T>, b: seq<T>, c: seq<T>)
    ensures a + (b + c) == a + b + c
  {
  }

  /** What has been parsed so far is never revised. */
  lemma ParsePrefix(fourBytes: bool, s: seq<byte>, t: seq<byte>)
    requires s <= t
    ensures Parse(fourBytes, s).0 <= Parse(fourBytes, t).0
  {
    ParseAppend(fourBytes, s, t[|s|..]);
    assert s + t[|s|..] == t;
  }

  // ---------- frames survive the stream ----------

  /** Parsing a stream of whole frames gives back these frames. */
  lemma {:induction false} ParseFrames(fourBytes: bool, fs: seq<seq<byte>>)
    requires AllFrames(fourBytes, fs)
    ensures Parse(fourBytes, Flatten(fs)) == (fs, [])
  {
    if fs == [] {
    } else {
      var f, rest := fs[0], Flatten(fs[1..]);
      PeekAppend(fourBytes, f, rest);
      assert IsFrame(fourBytes, f);
      assert (f + rest)[..|f|] == f && (f + rest)[|f|..] == rest;
      ParseFrames(fourBytes, fs[1..]);
      assert [f] + fs[1..] == fs;
    }
  }

  /** Part of a stream of whole frames parses to a part of the frames; the last one needs its last byte. */
  lemma ParsePart(fourBytes: bool, fs: seq<seq<byte>>, torn: seq<byte>, s: seq<byte>)
    requires AllFrames(fourBytes, fs)
    requires s <= Flatten(fs) + torn
    requires torn == [] || (IsFrame(fourBytes, torn) && |s| < |Flatten(fs)| + |torn|)
    ensures Parse(fourBytes, s).0 <= fs
  {
    hide Parse, Flatten, Peek;
    if torn == [] {
      assert Flatten(fs) + torn == Flatten(fs);
      ParseFrames(fourBytes, fs);
      ParsePrefix(fourBytes, s, Flatten(fs));
    } else {
      FlattenAppend(fs, [torn]);
      FlattenOne(torn);
      ParseFrames(fourBytes, fs + [torn]);
      ParsePrefix(fourBytes, s, Flatten(fs + [torn]));
      ParseFlatten(fourBytes, s);
      NotTheLast(Parse(fourBytes, s).0, fs, torn);
    }
  }

  /**
   As long as part of such a stream is missing, what is left over after the whole frames is shorter than
   the next one.
   */
  lemma {:induction false} PartShort(fourBytes: bool, fs: seq<seq<byte>>, s: seq<byte>)
    requires AllFrames(fourBytes, fs) && s <= Flatten(fs) && s != Flatten(fs)
    ensures var (got, rest) := Parse(fourBytes, s);
      |got| < |fs| && |rest| < |fs[|got|]|
    decreases |fs|
  {
    hide Parse, Peek;
    if fs != [] {
      var f := fs[0];
      assert IsFrame(fourBytes, f);
      ParseStep(fourBytes, s);
      if |s| < |f| {
        assert f == s + f[|s|..];
        PeekAppend(fourBytes, s, f[|s|..]);
      } else {
        var tail := s[|f|..];
        assert s == f + tail;
        PeekAppend(fourBytes, f, tail);
        assert tail == Flatten(fs)[|f|..][..|tail|];
        assert Flatten(fs)[|f|..] == Flatten(fs[1..]);
        PartShort(fourBytes, fs[1..], tail);
      }
    }
  }

  lemma {:induction false} ParsedFits(fourBytes: bool, s: seq<byte>)
    ensures forall k :: 0 <= k < |Parse(fourBytes, s).0| ==> |Parse(fourBytes, s).0[k]| <= |s|
    decreases |s|
  {
    hide Parse, Peek;
    ParseStep(fourBytes, s);
    var f := Peek(fourBytes, s);
    if f.Whole? {
      ParsedFits(fourBytes, s[f.size..]);
    }
  }

  lemma NotTheLast<T>(got: seq<T>, fs: seq<T>, last: T)
    requires got <= fs + [last] && got != fs + [last]
    ensures got <= fs
  {
    assert |got| <= |fs|;
    assert fs == (fs + [last])[..|fs|];
  }

  /** Cutting goes on in the same way after the frame at the front has been taken off. */
  lemma ParseFront(fourBytes: bool, start: seq<byte>, codes: seq<seq<byte>>, s: seq<byte>)
    requires Parse(fourBytes, start) == (codes + Parse(fourBytes, s).0, Parse(fourBytes, s).1)
    ensures Peek(fourBytes, s).Whole? ==>
      var n := Peek(fourBytes, s).size;
      Parse(fourBytes, start) ==
        (codes + [s[..n]] + Parse(fourBytes, s[n..]).0, Parse(fourBytes, s[n..]).1)
  {
    hide Peek;
    if Peek(fourBytes, s).Whole? {
      var n := Peek(fourBytes, s).size;
      assert codes + ([s[..n]] + Parse(fourBytes, s[n..]).0) == codes + [s[..n]] + Parse(fourBytes, s[n..]).0;
    }
  }

  /** Delivered frames and pending bytes are the received bytes, cut as the parser cuts them. */
  ghost predicate CutAlike(fourBytes: bool, received: seq<byte>, delivered: seq<seq<byte>>, pending: seq<byte>) {
    var (frames, rest) := Parse(fourBytes, pending);
    && received == Flatten(delivered) + pending
    && Parse(fourBytes, received) == (delivered + frames, rest)
  }

  /** A receiver that hands out the frame at the front of its buffer stays in step with the parser. */
  lemma ParseTake(fourBytes: bool, received: seq<byte>, delivered: seq<seq<byte>>, pending: seq<byte>, size: nat)
    requires Peek(fourBytes, pending) == Whole(size) && CutAlike(fourBytes, received, delivered, pending)
    ensures CutAlike(fourBytes, received, delivered + [pending[..size]], pending[size..])
    ensures delivered + [pending[..size]] <= Parse(fourBytes, received).0
  {
    hide Peek, Flatten, Parse;
    ParseFront(fourBytes, received, delivered, pending);
    FlattenAppend(delivered, [pending[..size]]);
    FlattenOne(pending[..size]);
    assert pending == pending[..size] + pending[size..];
    Regroup(Flatten(delivered), pending[..size], pending[size..]);
  }

  /** The part of a receiver's stream still to be parsed decides what further bytes bring. */
  lemma ParseMore(fourBytes: bool, received: seq<byte>, delivered: seq<seq<byte>>, pending: seq<byte>, t: seq<byte>)
    requires CutAlike(fourBytes, received, delivered, pending)
    ensures CutAlike(fourBytes, received + t, delivered, pending + t)
  {
    hide Peek, Parse, Flatten;
    ParseAppend(fourBytes, received, t);
    ParseAppend(fourBytes, pending, t);
    var frames, rest := Parse(fourBytes, pending).0, Parse(fourBytes, pending).1;
    Regroup(delivered, frames, Parse(fourBytes, rest + t).0);
    Regroup(Flatten(delivered), pending, t);
  }
}
