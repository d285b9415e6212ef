// str.strip() with the runtime's table of white space as a parameter.

module Stripping {

  function StripLeft(isSpace: char -> bool, s: string): string {
    if s != "" && isSpace(s[0]) then StripLeft(isSpace, s[1..]) else s
  }

  function StripRight(isSpace: char -> bool, s: string): string {
    if s != "" && isSpace(s[|s| - 1]) then StripRight(isSpace, s[..|s| - 1]) else s
  }

  function Strip(isSpace: char -> bool, s: string): string {
    StripRight(isSpace, StripLeft(isSpace, s))
  }

  predicate Stripped(isSpace: char -> bool, s: string) {
    s != "" ==> !isSpace(s[0]) && !isSpace(s[|s| - 1])
  }

  lemma {:induction false} StripLeftPart(isSpace: char -> bool, s: string)
    ensures var r := StripLeft(isSpace, s); |r| <= |s| && r == s[|s| - |r|..] && (r != "" ==> !isSpace(r[0]))
  {
    if s != "" && isSpace(s[0]) {
      StripLeftPart(isSpace, s[1..]);
    }
  }

  lemma {:induction false} StripRightPart(isSpace: char -> bool, s: string)
    ensures var r := StripRight(isSpace, s); |r| <= |s| && r == s[..|r|] && (r != "" ==> !isSpace(r[|r| - 1]))
  {
    if s != "" && isSpace(s[|s| - 1]) {
      StripRightPart(isSpace, s[..|s| - 1]);
    }
  }

  /** Stripping takes a piece out of the text, and that piece has no white space at its ends. */
  lemma StripPart(isSpace: char -> bool, s: string)
    ensures var r := Strip(isSpace, s); |r| <= |s| && Stripped(isSpace, r) && forall c | c in r :: c in s
  {
    StripLeftPart(isSpace, s);
    StripRightPart(isSpace, StripLeft(isSpace, s));
  }

  lemma StripIdle(isSpace: char -> bool, s: string)
    requires Stripped(isSpace, s)
    ensures Strip(isSpace, s) == s
  {
  }

  lemma StripTwice(isSpace: char -> bool, s: string)
    ensures Strip(isSpace, Strip(isSpace, s)) == Strip(isSpace, s)
  {
    StripPart(isSpace, s);
    StripIdle(isSpace, Strip(isSpace, s));
  }

  /** What stripping leaves starts at place i, with white space around it. */
  ghost predicate StripsTo(isSpace: char -> bool, s: string, i: nat) {
    var r := Strip(isSpace, s);
    && i + |r| <= |s| && s[i..i + |r|] == r
    && (forall k | 0 <= k < i || i + |r| <= k < |s| :: isSpace(s[k]))
  }

  lemma {:induction false} StripLeftTakes(isSpace: char -> bool, s: string)
    ensures var r := StripLeft(isSpace, s); |r| <= |s| && forall k | 0 <= k < |s| - |r| :: isSpace(s[k])
  {
    if s != "" && isSpace(s[0]) {
      StripLeftTakes(isSpace, s[1..]);
      var r := StripLeft(isSpace, s);
      forall k | 0 <= k < |s| - |r| ensures isSpace(s[k]) {
        assert k > 0 ==> s[k] == s[1..][k - 1];
      }
    }
  }

  lemma {:induction false} StripRightTakes(isSpace: char -> bool, s: string)
    ensures var r := StripRight(isSpace, s); |r| <= |s| && forall k | |r| <= k < |s| :: isSpace(s[k])
  {
    if s != "" && isSpace(s[|s| - 1]) {
      StripRightTakes(isSpace, s[..|s| - 1]);
    }
  }

  /** Stripping takes white space off both ends and nothing else. */
  lemma StripPlace(isSpace: char -> bool, s: string)
    ensures exists i: nat :: StripsTo(isSpace, s, i)
  {
    var t := StripLeft(isSpace, s);
    var r := StripRight(isSpace, t);
    StripLeftPart(isSpace, s);
    StripLeftTakes(isSpace, s);
    StripRightPart(isSpace, t);
    StripRightTakes(isSpace, t);
    var i := |s| - |t|;
    assert s[i..i + |r|] == t[..|r|];
    forall k | 0 <= k < i || i + |r| <= k < |s| ensures isSpace(s[k]) {
      assert k >= i ==> s[k] == t[k - i];
    }
    assert StripsTo(isSpace, s, i);
  }

  /** And there is only one such piece. */
  lemma StripBetween(isSpace: char -> bool, s: string, i: nat, j: nat)
    requires i < j <= |s| && !isSpace(s[i]) && !isSpace(s[j - 1])
    requires forall k | 0 <= k < i || j <= k < |s| :: isSpace(s[k])
    ensures Strip(isSpace, s) == s[i..j]
  {
    StripPlace(isSpace, s);
    StripPart(isSpace, s);
    var r := Strip(isSpace, s);
    var m: nat :| StripsTo(isSpace, s, m);
    assert m <= i && j <= m + |r|;
    assert r[0] == s[m] && r[|r| - 1] == s[m + |r| - 1];
    assert m == i && m + |r| == j;
  }
}
