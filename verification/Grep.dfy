/** The matcher of grep.c against what a pattern means. A C string is a sequence without
    '\0'; a pointer into it is an index, and reading at the end gives '\0'. */
module Grep {

  // ----- What a pattern means -----

  /** Star('.') repeats any character. End is a final $. */
  datatype Token = Literal(c: char) | Any | Star(c: char) | End

  function Tokens(re: seq<char>): seq<Token> {
    if re == [] then []
    else if |re| >= 2 && re[1] == '*' then [Star(re[0])] + Tokens(re[2..])
    else if re == ['$'] then [End]
    else [if re[0] == '.' then Any else Literal(re[0])] + Tokens(re[1..])
  }

  /** The token describes text[a..b]. */
  predicate Fits(t: Token, text: seq<char>, a: nat, b: nat) {
    a <= b <= |text| &&
    match t
    case Literal(c) => b == a + 1 && text[a] == c
    case Any => b == a + 1
    case Star(c) => forall k :: a <= k < b ==> c == '.' || text[k] == c
    case End => a == b == |text|
  }

  /** The text from cuts[0] on is cut into one piece for each token. */
  predicate Pieces(ts: seq<Token>, text: seq<char>, cuts: seq<nat>) {
    && |cuts| == |ts| + 1 && cuts[|ts|] <= |text|
    && forall i {:trigger ts[i]} :: 0 <= i < |ts| ==> Fits(ts[i], text, cuts[i], cuts[i + 1])
  }

  ghost predicate MatchesAt(ts: seq<Token>, text: seq<char>, a: nat) {
    exists cuts :: Pieces(ts, text, cuts) && cuts[0] == a
  }

  /** A leading ^ ties the pattern to the start of the text. */
  ghost predicate Matches(re: seq<char>, text: seq<char>) {
    if re != [] && re[0] == '^' then MatchesAt(Tokens(re[1..]), text, 0)
    else exists a: nat :: a <= |text| && MatchesAt(Tokens(re), text, a)
  }

  // ----- Taking a match apart -----

  lemma MatchesNothing(text: seq<char>, a: nat)
    requires a <= |text|
    ensures MatchesAt([], text, a)
  {
    assert Pieces([], text, [a]);
  }

  lemma TakeFirst(t: Token, ts: seq<Token>, text: seq<char>, a: nat) returns (b: nat)
    requires MatchesAt([t] + ts, text, a)
    ensures Fits(t, text, a, b) && MatchesAt(ts, text, b)
  {
    var all := [t] + ts;
    var cuts :| Pieces(all, text, cuts) && cuts[0] == a;
    b := cuts[1];
    assert all[0] == t;
    forall i {:trigger ts[i]} | 0 <= i < |ts| ensures Fits(ts[i], text, cuts[1..][i], cuts[1..][i + 1]) {
      assert all[i + 1] == ts[i];
    }
    assert Pieces(ts, text, cuts[1..]);
  }

  lemma PutFirst(t: Token, ts: seq<Token>, text: seq<char>, a: nat, b: nat)
    requires Fits(t, text, a, b) && MatchesAt(ts, text, b)
    ensures MatchesAt([t] + ts, text, a)
  {
    var cuts :| Pieces(ts, text, cuts) && cuts[0] == b;
    var all, more := [t] + ts, [a] + cuts;
    forall i {:trigger all[i]} | 0 <= i < |all| ensures Fits(all[i], text, more[i], more[i + 1]) {
      if i > 0 {
        assert all[i] == ts[i - 1];
      }
    }
    assert Pieces(all, text, more);
  }

  /** A token of fixed length. */
  lemma OneCharacter(t: Token, ts: seq<Token>, text: seq<char>, a: nat)
    requires !t.Star? && !t.End? && a <= |text|
    ensures MatchesAt([t] + ts, text, a) <==> a < |text| && Fits(t, text, a, a + 1) && MatchesAt(ts, text, a + 1)
  {
    if MatchesAt([t] + ts, text, a) {
      var b := TakeFirst(t, ts, text, a);
    }
    if a < |text| && Fits(t, text, a, a + 1) && MatchesAt(ts, text, a + 1) {
      PutFirst(t, ts, text, a, a + 1);
    }
  }

  lemma AtEnd(text: seq<char>, a: nat)
    requires a <= |text|
    ensures MatchesAt([End], text, a) <==> a == |text|
  {
    assert [End] + [] == [End];
    if MatchesAt([End], text, a) {
      var b := TakeFirst(End, [], text, a);
    }
    if a == |text| {
      MatchesNothing(text, a);
      PutFirst(End, [], text, a, a);
    }
  }

  // ----- The matcher -----

  ghost predicate CString(s: seq<char>) {
    '\0' !in s
  }

  function At(s: seq<char>, i: nat): char
    requires i <= |s|
  {
    if i < |s| then s[i] else '\0'
  }

  /** match: is the pattern found in the text? */
  method Match(re: seq<char>, text: seq<char>) returns (found: bool)
    requires CString(re) && CString(text)
    ensures found <==> Matches(re, text)
  {
    assert re[0..] == re;
    if At(re, 0) == '^' {
      found := MatchHere(re, 1, text, 0);
      return;
    }
    var t := 0;
    while true
      invariant 0 <= t <= |text|
      invariant forall a :: 0 <= a < t ==> !MatchesAt(Tokens(re), text, a)
      decreases |text| - t
    {
      var here := MatchHere(re, 0, text, t);
      if here {
        return true;
      }
      if At(text, t) == '\0' {
        break;
      }
      t := t + 1;
    }
    found := false;
  }

  /** matchhere: does the pattern from i on match at t? */
  method MatchHere(re: seq<char>, i: nat, text: seq<char>, t: nat) returns (found: bool)
    requires CString(re) && CString(text) && i <= |re| && t <= |text|
    ensures found <==> MatchesAt(Tokens(re[i..]), text, t)
    decreases |re| - i, 0
  {
    var rest := re[i..];
    if At(re, i) == '\0' {
      MatchesNothing(text, t);
      return true;
    }
    assert rest[0] == re[i];
    if At(re, i + 1) == '*' {
      assert rest[2..] == re[i + 2..];
      found := MatchStar(re[i], re, i + 2, text, t);
      return;
    }
    if re[i] == '$' && At(re, i + 1) == '\0' {
      assert rest == ['$'];
      AtEnd(text, t);
      return At(text, t) == '\0';
    }
    assert rest[1..] == re[i + 1..];
    OneCharacter(if re[i] == '.' then Any else Literal(re[i]), Tokens(re[i + 1..]), text, t);
    if At(text, t) != '\0' && (re[i] == '.' || re[i] == At(text, t)) {
      found := MatchHere(re, i + 1, text, t + 1);
      return;
    }
    return false;
  }

  /** matchstar: does c*, followed by the pattern from i on, match at t0? */
  method MatchStar(c: char, re: seq<char>, i: nat, text: seq<char>, t0: nat) returns (found: bool)
    requires CString(re) && CString(text) && i <= |re| && t0 <= |text|
    ensures found <==> MatchesAt([Star(c)] + Tokens(re[i..]), text, t0)
    decreases |re| - i, 1
  {
    ghost var ts := Tokens(re[i..]);
    var t := t0;
    while true
      invariant t0 <= t <= |text| && Fits(Star(c), text, t0, t)
      invariant forall b: nat :: t0 <= b < t ==> !MatchesAt(ts, text, b)
      decreases |text| - t
    {
      var here := MatchHere(re, i, text, t);
      if here {
        PutFirst(Star(c), ts, text, t0, t);
        return true;
      }
      if !(At(text, t) != '\0' && (At(text, t) == c || c == '.')) {
        break;
      }
      t := t + 1;
    }
    if MatchesAt([Star(c)] + ts, text, t0) {
      var b := TakeFirst(Star(c), ts, text, t0);
      assert false;
    }
    found := false;
  }
}
