/** Splitting and joining of strings: `TC_Common::sepstr<string>` and the iterator-range `tostr`. */
module Strings {

  /** The first position from `pos` on that holds one of the characters of `sep`; -1 stands for npos. */
  method FindFirstOf(s: string, sep: string, pos: nat) returns (at: int)
    ensures at == -1 ==> forall k :: pos <= k < |s| ==> s[k] !in sep
    ensures at != -1 ==> pos <= at < |s| && s[at] in sep && forall k :: pos <= k < at ==> s[k] !in sep
  {
    at := pos;
    while at < |s|
      invariant pos <= at && forall k :: pos <= k < at && k < |s| ==> s[k] !in sep
    {
      if s[at] in sep {
        return;
      }
      at := at + 1;
    }
    at := -1;
  }

  /** The length of the token at the front. */
  function Token(s: string, sep: string): (n: nat)
    ensures n <= |s| && (n < |s| ==> s[n] in sep)
    ensures forall k :: 0 <= k < n ==> s[k] !in sep
  {
    if s == [] || s[0] in sep then 0 else 1 + Token(s[1..], sep)
  }

  /** The tokens between the characters of `sep`, the empty ones too. */
  function Split(s: string, sep: string): (ts: seq<string>)
    ensures ts != []
    decreases |s|
  {
    var n := Token(s, sep);
    if n == |s| then [s] else [s[..n]] + Split(s[n + 1..], sep)
  }

  function NonEmpty(ts: seq<string>): seq<string> {
    if ts == [] then [] else
    NonEmpty(ts[..|ts| - 1]) + if ts[|ts| - 1] == "" then [] else [ts[|ts| - 1]]
  }

  function Kept(ts: seq<string>, withEmpty: bool): seq<string> {
    if withEmpty then ts else NonEmpty(ts)
  }

  function Join(ts: seq<string>, sep: string): string {
    if ts == [] then "" else if |ts| == 1 then ts[0] else ts[0] + sep + Join(ts[1..], sep)
  }

  lemma KeptIs(ts: seq<string>, withEmpty: bool)
    ensures Kept(ts, withEmpty) == if withEmpty then ts else NonEmpty(ts)
  {
  }

  lemma KeptNone(withEmpty: bool)
    ensures Kept([], withEmpty) == []
  {
  }

  lemma KeptMore(ts: seq<string>, t: string, withEmpty: bool)
    ensures Kept(ts + [t], withEmpty) == Kept(ts, withEmpty) + if withEmpty || t != "" then [t] else []
  {
    assert (ts + [t])[..|ts|] == ts;
  }

  lemma TokenIs(s: string, sep: string, n: nat)
    requires n <= |s| && (n < |s| ==> s[n] in sep)
    requires forall k :: 0 <= k < n ==> s[k] !in sep
    ensures Token(s, sep) == n
  {
  }

  /** `sepstr`: the tokens of the string, without the empty ones unless they are asked for. */
  method Sepstr(s: string, sep: string, withEmpty: bool) returns (vt: seq<string>)
    ensures vt == if withEmpty then Split(s, sep) else NonEmpty(Split(s, sep))
  {
    hide Split, NonEmpty, Token, Kept;
    vt := [];
    var pos: nat := 0;
    KeptNone(withEmpty);
    assert s[0..] == s;
    ghost var done: seq<string> := [];
    while true
      invariant pos <= |s| && vt == Kept(done, withEmpty)
      invariant done + Split(s[pos..], sep) == Split(s, sep)
      decreases |s| - pos
    {
      var t := "";
      var pos1 := FindFirstOf(s, sep, pos);
      ghost var at := pos;
      if pos1 == -1 {
        if pos + 1 <= |s| {
          t := s[pos..];
        }
      } else if pos1 == pos {
        t := "";
      } else {
        t := s[pos..pos1];
        pos := pos1;
      }
      SplitFront(s, sep, at, pos1);
      if withEmpty {
        vt := vt + [t];
      } else if t != "" {
        vt := vt + [t];
      }
      KeptMore(done, t, withEmpty);
      ghost var before := done;
      done := done + [t];
      if pos1 == -1 {
        assert t == s[at..];
        assert done == Split(s, sep);
        KeptIs(done, withEmpty);
        break;
      }
      assert before + ([t] + Split(s[pos + 1..], sep)) == done + Split(s[pos + 1..], sep);
      pos := pos + 1;
    }
  }

  /** What a search from `pos` that ends at `pos1` says about the tokens from there on. */
  lemma SplitFront(s: string, sep: string, pos: nat, pos1: int)
    requires pos <= |s|
    requires pos1 == -1 ==> forall k :: pos <= k < |s| ==> s[k] !in sep
    requires pos1 != -1 ==> pos <= pos1 < |s| && s[pos1] in sep && forall k :: pos <= k < pos1 ==> s[k] !in sep
    ensures pos1 == -1 ==> Split(s[pos..], sep) == [s[pos..]]
    ensures pos1 != -1 ==> Split(s[pos..], sep) == [s[pos..pos1]] + Split(s[pos1 + 1..], sep)
  {
    hide Split, Token;
    var t := s[pos..];
    SplitStep(t, sep);
    if pos1 == -1 {
      TokenIs(t, sep, |t|);
    } else {
      TokenIs(t, sep, pos1 - pos);
      assert t[..pos1 - pos] == s[pos..pos1];
      assert t[pos1 - pos + 1..] == s[pos1 + 1..];
    }
  }

  /** The iterator-range `tostr`: the elements with the separator between them. */
  method RangeTostr(ts: seq<string>, sep: string) returns (buffer: string)
    ensures buffer == Join(ts, sep)
    ensures |ts| == 0 ==> buffer == ""
    ensures |ts| == 1 ==> buffer == ts[0]
  {
    hide Join;
    buffer := "";
    JoinFew(ts, sep);
    var it := 0;
    assert ts[0..] == ts;
    while it != |ts|
      invariant 0 <= it <= |ts|
      invariant buffer + Join(ts[it..], sep) == Join(ts, sep)
      decreases |ts| - it
    {
      ghost var rest := ts[it + 1..];
      assert ts[it..] == [ts[it]] + rest;
      JoinCons(ts[it], rest, sep);
      ghost var before := buffer;
      buffer := buffer + ts[it];
      it := it + 1;
      if it != |ts| {
        buffer := buffer + sep;
        assert before + (ts[it - 1] + sep + Join(rest, sep)) == buffer + Join(rest, sep);
      } else {
        assert rest == [] && buffer == Join(ts, sep);
        break;
      }
    }
    JoinFew(ts[|ts|..], sep);
    assert buffer + "" == buffer;
  }

  lemma JoinFew(ts: seq<string>, sep: string)
    ensures |ts| == 0 ==> Join(ts, sep) == ""
    ensures |ts| == 1 ==> Join(ts, sep) == ts[0]
  {
  }

  // ---------- round trips ----------

  lemma SplitStep(s: string, sep: string)
    ensures var n := Token(s, sep);
      Split(s, sep) == if n == |s| then [s] else [s[..n]] + Split(s[n + 1..], sep)
  {
    hide Token;
  }

  lemma JoinCons(t: string, ts: seq<string>, sep: string)
    ensures Join([t] + ts, sep) == if ts == [] then t else t + sep + Join(ts, sep)
  {
    assert ([t] + ts)[1..] == ts;
  }

  lemma Distribute(a: int, b: int)
    ensures (a + 1) * b == a * b + b
  {
  }

  /** The tokens joined again differ in length from the string by what the separators differ from one character. */
  lemma {:induction false} JoinSplitLength(s: string, sep: string)
    ensures |Join(Split(s, sep), sep)| == |s| + (|Split(s, sep)| - 1) * (|sep| - 1)
    decreases |s|
  {
    hide Split, Join, Token;
    SplitStep(s, sep);
    var n := Token(s, sep);
    if n < |s| {
      JoinSplitLength(s[n + 1..], sep);
      var rest := Split(s[n + 1..], sep);
      JoinCons(s[..n], rest, sep);
      Distribute(|rest| - 1, |sep| - 1);
    } else {
      JoinCons(s, [], sep);
      assert [s] + [] == [s];
    }
  }

  lemma {:induction false} JoinSplitOne(s: string, sep: string)
    requires |sep| == 1
    ensures Join(Split(s, sep), sep) == s
    decreases |s|
  {
    hide Split, Join, Token;
    SplitStep(s, sep);
    var n := Token(s, sep);
    if n < |s| {
      JoinSplitOne(s[n + 1..], sep);
      JoinCons(s[..n], Split(s[n + 1..], sep), sep);
      assert sep == [s[n]];
      assert s[..n] + sep + s[n + 1..] == s;
    } else {
      JoinCons(s, [], sep);
      assert [s] + [] == [s];
    }
  }

  /** Joining what was split gives the string back exactly when the separator is one character or does not occur. */
  lemma JoinSplit(s: string, sep: string)
    ensures Join(Split(s, sep), sep) == s <==> |sep| == 1 || forall c :: c in s ==> c !in sep
  {
    if |sep| == 1 {
      JoinSplitOne(s, sep);
    } else if forall c :: c in s ==> c !in sep {
      TokenIs(s, sep, |s|);
    } else {
      JoinSplitLength(s, sep);
      var n := Token(s, sep);
      var c :| c in s && c in sep;
      var k :| 0 <= k < |s| && s[k] == c;
      assert n <= k;
      assert |Split(s, sep)| > 1;
      NotZero(|Split(s, sep)| - 1, |sep| - 1);
    }
  }

  lemma NotZero(a: int, b: int)
    requires a != 0 && b != 0
    ensures a * b != 0
  {
  }

  /** No token contains a separator. */
  ghost predicate Clean(ts: seq<string>, sep: string) {
    forall k :: 0 <= k < |ts| ==> forall c :: c in ts[k] ==> c !in sep
  }

  lemma {:induction false} SplitClean(s: string, sep: string)
    ensures Clean(Split(s, sep), sep)
    decreases |s|
  {
    var n := Token(s, sep);
    if n < |s| {
      SplitClean(s[n + 1..], sep);
    }
  }

  // ---------- splitting with any separators ----------

  /** The separator characters of a string, in order. */
  function Separators(s: string, sep: string): string {
    if s == "" then "" else (if s[0] in sep then [s[0]] else "") + Separators(s[1..], sep)
  }

  /** Tokens with one character between each and the next. */
  function Weave(ts: seq<string>, seps: string): string
    requires |ts| == |seps| + 1
  {
    if seps == "" then ts[0] else ts[0] + [seps[0]] + Weave(ts[1..], seps[1..])
  }

  lemma {:induction false} SeparatorsBehind(s: string, sep: string, n: nat)
    requires n <= |s| && forall k :: 0 <= k < n ==> s[k] !in sep
    ensures Separators(s, sep) == Separators(s[n..], sep)
  {
    if n > 0 {
      SeparatorsBehind(s[1..], sep, n - 1);
      assert s[1..][n - 1..] == s[n..];
    } else {
      assert s[0..] == s;
    }
  }

  /** The tokens with the separator characters between them are the string. */
  lemma {:induction false} WeaveSplit(s: string, sep: string)
    ensures |Split(s, sep)| == |Separators(s, sep)| + 1
    ensures Weave(Split(s, sep), Separators(s, sep)) == s
    decreases |s|
  {
    hide Split, Token;
    var n := Token(s, sep);
    SplitStep(s, sep);
    SeparatorsBehind(s, sep, n);
    if n < |s| {
      var t, rest := s[..n], s[n + 1..];
      assert s[n..][1..] == rest;
      WeaveSplit(rest, sep);
      assert ([t] + Split(rest, sep))[1..] == Split(rest, sep);
      assert ([s[n]] + Separators(rest, sep))[1..] == Separators(rest, sep);
      assert t + [s[n]] + rest == s;
    }
  }

  lemma SplitFirst(t: string, c: char, rest: string, sep: string)
    requires c in sep && forall k :: 0 <= k < |t| ==> t[k] !in sep
    ensures Split(t + [c] + rest, sep) == [t] + Split(rest, sep)
  {
    hide Split, Token;
    var s := t + [c] + rest;
    SplitStep(s, sep);
    assert s[..|t|] == t && s[|t|] == c && s[|t| + 1..] == rest;
    assert forall k :: 0 <= k < |t| ==> s[k] == t[k];
    TokenIs(s, sep, |t|);
  }

  /** And whatever tokens free of separator characters are so woven are the tokens found. */
  lemma {:induction false} SplitWeave(ts: seq<string>, seps: string, sep: string)
    requires |ts| == |seps| + 1 && Clean(ts, sep) && forall k :: 0 <= k < |seps| ==> seps[k] in sep
    ensures Split(Weave(ts, seps), sep) == ts
  {
    CleanFirst(ts, sep);
    WeaveStep(ts, seps);
    hide Weave, Split, Token, Clean;
    var t, rest := ts[0], ts[1..];
    if seps == "" {
      TokenIs(t, sep, |t|);
      SplitStep(t, sep);
      assert ts == [t];
    } else {
      SplitWeave(rest, seps[1..], sep);
      SplitFirst(t, seps[0], Weave(rest, seps[1..]), sep);
      assert ts == [t] + rest;
    }
  }

  lemma WeaveStep(ts: seq<string>, seps: string)
    requires |ts| == |seps| + 1
    ensures Weave(ts, seps) == if seps == "" then ts[0] else ts[0] + [seps[0]] + Weave(ts[1..], seps[1..])
  {
  }

  lemma CleanFirst(ts: seq<string>, sep: string)
    requires ts != [] && Clean(ts, sep)
    ensures forall k :: 0 <= k < |ts[0]| ==> ts[0][k] !in sep
    ensures Clean(ts[1..], sep)
  {
  }

  /** Splitting what was joined gives the tokens back, for at least one token and a separator of one character. */
  lemma {:induction false} SplitJoin(ts: seq<string>, sep: string)
    requires ts != [] && |sep| == 1 && Clean(ts, sep)
    ensures Split(Join(ts, sep), sep) == ts
  {
    CleanFirst(ts, sep);
    hide Split, Join, Token, Clean;
    var t, rest, s := ts[0], ts[1..], Join(ts, sep);
    assert ts == [t] + rest;
    JoinCons(t, rest, sep);
    SplitStep(s, sep);
    if rest == [] {
      TokenIs(s, sep, |s|);
    } else {
      SplitJoin(rest, sep);
      assert s[..|t|] == t && s[|t|] == sep[0] && s[|t| + 1..] == Join(rest, sep);
      assert forall k :: 0 <= k < |t| ==> s[k] == t[k];
      TokenIs(s, sep, |t|);
    }
  }

  /** It gives them back in no other case, but for a single token free of the separator. */
  lemma SplitJoinExactly(ts: seq<string>, sep: string)
    ensures Split(Join(ts, sep), sep) == ts <==> ts != [] && Clean(ts, sep) && (|sep| == 1 || |ts| == 1)
  {
    hide Split, Join, Token;
    var s := Join(ts, sep);
    if Split(s, sep) == ts {
      SplitClean(s, sep);
      JoinSplitLength(s, sep);
      if |ts| != 1 && |sep| != 1 {
        NotZero(|ts| - 1, |sep| - 1);
      }
    } else if ts != [] && Clean(ts, sep) && |ts| == 1 {
      CleanFirst(ts, sep);
      JoinCons(ts[0], [], sep);
      assert [ts[0]] + [] == ts;
      TokenIs(s, sep, |s|);
      SplitStep(s, sep);
    } else if ts != [] && Clean(ts, sep) && |sep| == 1 {
      SplitJoin(ts, sep);
    }
  }

  /** The tokens that are not empty stay in their order. */
  lemma {:induction false} NonEmptyInOrder(ts: seq<string>, us: seq<string>)
    ensures NonEmpty(ts + us) == NonEmpty(ts) + NonEmpty(us)
    ensures |us| == 1 ==> NonEmpty(us) == if us[0] == "" then [] else us
  {
    hide NonEmpty;
    NonEmptyLast(us);
    if us == [] {
      assert ts + us == ts;
    } else {
      var n := |us| - 1;
      NonEmptyInOrder(ts, us[..n]);
      NonEmptyLast(ts + us);
      assert (ts + us)[..|ts + us| - 1] == ts + us[..n];
      NonEmptyLast(us[..0]);
      assert us[..0] == [];
    }
  }

  lemma NonEmptyLast(us: seq<string>)
    ensures us == [] ==> NonEmpty(us) == []
    ensures us != [] ==>
      var last := us[|us| - 1];
      NonEmpty(us) == NonEmpty(us[..|us| - 1]) + if last == "" then [] else [last]
  {
  }

  /** Without the empty tokens, exactly the others remain, each as often as before. */
  lemma {:induction false} NonEmptyMeans(ts: seq<string>, t: string)
    ensures "" !in NonEmpty(ts)
    ensures t != "" ==> multiset(NonEmpty(ts))[t] == multiset(ts)[t]
    ensures "" !in ts ==> NonEmpty(ts) == ts
  {
    if ts != [] {
      var init, last := ts[..|ts| - 1], ts[|ts| - 1];
      NonEmptyMeans(init, t);
      assert ts == init + [last];
      assert multiset(ts) == multiset(init) + multiset{last};
      if last != "" {
        assert multiset(NonEmpty(init) + [last]) == multiset(NonEmpty(init)) + multiset{last};
      }
    }
  }
}
