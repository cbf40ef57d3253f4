/** The string operations of Python that several components share. */
module Text {

  /** What `str.strip` removes. */
  predicate IsSpace(c: char) {
    '\t' <= c <= '\r' || '\U{1C}' <= c <= ' ' || c == '\U{85}' || c == '\U{A0}' || c == '\U{1680}'
    || '\U{2000}' <= c <= '\U{200A}' || c == '\U{2028}' || c == '\U{2029}' || c == '\U{202F}'
    || c == '\U{205F}' || c == '\U{3000}'
  }

  /** Where `str.splitlines` ends a line. */
  predicate IsLineBreak(c: char) {
    '\n' <= c <= '\r' || '\U{1C}' <= c <= '\U{1E}' || c == '\U{85}' || c == '\U{2028}' || c == '\U{2029}'
  }

  function StripLeft(s: string): (t: string)
    ensures t != "" ==> !IsSpace(t[0])
    ensures s != "" && !IsSpace(s[0]) ==> t == s
  {
    if s != "" && IsSpace(s[0]) then StripLeft(s[1..]) else s
  }

  function StripRight(s: string): (t: string)
    ensures t <= s
    ensures t != "" ==> !IsSpace(t[|t| - 1])
    ensures s != "" && !IsSpace(s[|s| - 1]) ==> t == s
  {
    if s != "" && IsSpace(s[|s| - 1]) then StripRight(s[..|s| - 1]) else s
  }

  function Strip(s: string): (t: string)
    ensures t != "" ==> !IsSpace(t[0]) && !IsSpace(t[|t| - 1])
    ensures s != "" && !IsSpace(s[0]) && !IsSpace(s[|s| - 1]) ==> t == s
  {
    StripRight(StripLeft(s))
  }

  /** Stripping is blank exactly on blank text. */
  lemma {:induction false} BlankLeft(s: string)
    ensures StripLeft(s) == "" <==> forall i :: 0 <= i < |s| ==> IsSpace(s[i])
  {
    if s != "" && IsSpace(s[0]) {
      BlankLeft(s[1..]);
      assert forall i :: 1 <= i < |s| ==> s[i] == s[1..][i - 1];
    }
  }

  lemma BlankExactly(s: string)
    ensures Strip(s) == "" <==> forall i :: 0 <= i < |s| ==> IsSpace(s[i])
  {
    BlankLeft(s);
    var t := StripLeft(s);
    KeepsFirst(t);
  }

  lemma {:induction false} KeepsFirst(t: string)
    requires t != "" ==> !IsSpace(t[0])
    ensures StripRight(t) == "" <==> t == ""
  {
    if t != "" && IsSpace(t[|t| - 1]) {
      KeepsFirst(t[..|t| - 1]);
    }
  }

  lemma {:induction false} LeftIsInfix(s: string) returns (i: nat)
    ensures i <= |s| && StripLeft(s) == s[i..] && forall k :: 0 <= k < i ==> IsSpace(s[k])
  {
    if s != "" && IsSpace(s[0]) {
      var j := LeftIsInfix(s[1..]);
      i := j + 1;
      forall k | 0 <= k < i ensures IsSpace(s[k]) {
        assert k > 0 ==> s[k] == s[1..][k - 1];
      }
    } else {
      i := 0;
    }
  }

  lemma {:induction false} RightIsPrefix(s: string)
    ensures forall k :: |StripRight(s)| <= k < |s| ==> IsSpace(s[k])
  {
    if s != "" && IsSpace(s[|s| - 1]) {
      var init := s[..|s| - 1];
      RightIsPrefix(init);
      assert forall k :: 0 <= k < |init| ==> init[k] == s[k];
    }
  }

  /** What `strip` leaves is the text between its first and its last character that is no
      whitespace: it takes whitespace off both ends, and nothing but whitespace. */
  lemma StripIsInfix(s: string) returns (i: nat, j: nat)
    ensures i <= j <= |s| && Strip(s) == s[i..j]
    ensures forall k :: 0 <= k < i || j <= k < |s| ==> IsSpace(s[k])
  {
    i := LeftIsInfix(s);
    var rest := StripLeft(s);
    j := i + |Strip(s)|;
    assert StripRight(s[i..]) == s[i..][..|Strip(s)|];
    RightIsPrefix(rest);
    forall k | j <= k < |s| ensures IsSpace(s[k]) {
      assert s[k] == rest[k - i];
    }
  }

  predicate AllSpace(s: string) {
    forall i :: 0 <= i < |s| ==> IsSpace(s[i])
  }

  lemma {:induction false} LeftOfPadded(before: string, s: string)
    requires AllSpace(before)
    ensures StripLeft(before + s) == StripLeft(s)
  {
    if before == "" {
      assert before + s == s;
    } else {
      assert (before + s)[1..] == before[1..] + s;
      LeftOfPadded(before[1..], s);
    }
  }

  lemma {:induction false} RightOfPadded(s: string, after: string)
    requires AllSpace(after)
    ensures StripRight(s + after) == StripRight(s)
  {
    if after == "" {
      assert s + after == s;
    } else {
      assert (s + after)[..|s + after| - 1] == s + after[..|after| - 1];
      RightOfPadded(s, after[..|after| - 1]);
    }
  }

  /** A text that begins and ends with no whitespace is what is left of it between whitespace. */
  lemma StripOfPadded(before: string, s: string, after: string)
    requires AllSpace(before) && AllSpace(after)
    requires s != "" && !IsSpace(s[0]) && !IsSpace(s[|s| - 1])
    ensures Strip(before + s + after) == s
  {
    assert before + s + after == before + (s + after);
    LeftOfPadded(before, s + after);
    assert (s + after)[0] == s[0];
    RightOfPadded(s, after);
  }

  // ---------------------------------------------------------------------------
  // Code point order
  // ---------------------------------------------------------------------------

  predicate Precedes(a: string, b: string) {
    if a == "" then b != ""
    else if b == "" then false
    else a[0] < b[0] || (a[0] == b[0] && Precedes(a[1..], b[1..]))
  }

  lemma {:induction false} Trichotomy(a: string, b: string)
    ensures (Precedes(a, b) && a != b && !Precedes(b, a))
            || (!Precedes(a, b) && a == b && !Precedes(b, a))
            || (!Precedes(a, b) && a != b && Precedes(b, a))
  {
    if a != "" && b != "" {
      Trichotomy(a[1..], b[1..]);
      assert a == [a[0]] + a[1..] && b == [b[0]] + b[1..];
    }
  }

  lemma {:induction false} Transitive(a: string, b: string, c: string)
    requires Precedes(a, b) && Precedes(b, c)
    ensures Precedes(a, c)
  {
    if a != "" && a[0] == b[0] == c[0] {
      Transitive(a[1..], b[1..], c[1..]);
    }
  }

  /** Before in the order of characters: a proper prefix, or smaller at the first difference. */
  ghost predicate CharacterOrder(a: string, b: string) {
    || (|a| < |b| && b[..|a|] == a)
    || exists k :: SmallerAt(a, b, k)
  }

  predicate SmallerAt(a: string, b: string, k: nat) {
    k < |a| && k < |b| && a[..k] == b[..k] && a[k] < b[k]
  }

  lemma {:induction false} PrecedesExactly(a: string, b: string)
    ensures Precedes(a, b) <==> CharacterOrder(a, b)
  {
    if a != "" && b != "" {
      if a[0] == b[0] {
        PrecedesExactly(a[1..], b[1..]);
        SameHead(a, b);
      } else if a[0] < b[0] {
        assert SmallerAt(a, b, 0);
      } else {
        DifferentHead(a, b);
      }
    }
  }

  lemma DifferentHead(a: string, b: string)
    requires a != "" && b != "" && b[0] < a[0]
    ensures !CharacterOrder(a, b)
  {
    assert forall k :: 0 < k <= |a| && k <= |b| ==> a[..k][0] != b[..k][0];
  }

  lemma SameHead(a: string, b: string)
    requires a != "" && b != "" && a[0] == b[0]
    ensures CharacterOrder(a, b) <==> CharacterOrder(a[1..], b[1..])
  {
    var c, d := a[1..], b[1..];
    assert a == [a[0]] + c && b == [a[0]] + d;
    if |a| < |b| && b[..|a|] == a {
      assert d[..|c|] == b[..|a|][1..] == c;
    }
    if |c| < |d| && d[..|c|] == c {
      assert b[..|a|] == [a[0]] + d[..|c|];
    }
    if k: nat :| SmallerAt(a, b, k) {
      assert c[..k - 1] == a[..k][1..] && d[..k - 1] == b[..k][1..];
      assert SmallerAt(c, d, k - 1);
    }
    if k: nat :| SmallerAt(c, d, k) {
      assert a[..k + 1] == [a[0]] + c[..k] && b[..k + 1] == [a[0]] + d[..k];
      assert SmallerAt(a, b, k + 1);
    }
  }

  ghost predicate Increasing(names: seq<string>) {
    forall i, j :: 0 <= i < j < |names| ==> Precedes(names[i], names[j])
  }

  /** Sorted names stand in the order of characters. */
  lemma IncreasingIsCharacterOrder(names: seq<string>)
    requires Increasing(names)
    ensures forall i, j :: 0 <= i < j < |names| ==> CharacterOrder(names[i], names[j])
  {
    forall i, j | 0 <= i < j < |names| ensures CharacterOrder(names[i], names[j]) {
      PrecedesExactly(names[i], names[j]);
    }
  }

  predicate Least(names: set<string>, least: string) {
    least in names && forall n :: n in names && n != least ==> Precedes(least, n)
  }

  lemma LeastIsUnique(names: set<string>, a: string, b: string)
    requires Least(names, a) && Least(names, b)
    ensures a == b
  {
    Trichotomy(a, b);
  }

  lemma {:induction false} LeastExists(names: set<string>)
    requires names != {}
    ensures exists least :: Least(names, least)
  {
    var pick :| pick in names;
    var rest := names - {pick};
    if rest == {} {
      assert names == {pick};
      assert Least(names, pick);
    } else {
      LeastExists(rest);
      var small :| Least(rest, small);
      LeastOfMore(rest, pick, small);
      assert names == rest + {pick};
    }
  }

  lemma LeastOfMore(rest: set<string>, pick: string, small: string)
    requires pick !in rest && Least(rest, small)
    ensures Least(rest + {pick}, if Precedes(pick, small) then pick else small)
  {
    Trichotomy(pick, small);
    if Precedes(pick, small) {
      forall n | n in rest ensures Precedes(pick, n) {
        if n != small {
          Transitive(pick, small, n);
        }
      }
    }
  }

  function Smallest(names: set<string>): (least: string)
    requires names != {}
    ensures Least(names, least)
  {
    LeastExists(names);
    assert forall a, b :: Least(names, a) && Least(names, b) ==> a == b by {
      forall a, b | Least(names, a) && Least(names, b) ensures a == b {
        LeastIsUnique(names, a, b);
      }
    }
    var least :| Least(names, least);
    least
  }

  /** `sorted` on a set of names. */
  function Sorted(names: set<string>): (s: seq<string>)
    ensures Increasing(s)
    ensures forall n :: n in s <==> n in names
    decreases |names|
  {
    if names == {} then []
    else
      var least := Smallest(names);
      var rest := Sorted(names - {least});
      assert forall i :: 0 <= i < |rest| ==> rest[i] in rest;
      IncreasingCons(least, rest);
      [least] + rest
  }

  lemma IncreasingCons(least: string, rest: seq<string>)
    requires Increasing(rest) && forall i :: 0 <= i < |rest| ==> Precedes(least, rest[i])
    ensures Increasing([least] + rest)
  {
  }
}
