// One-character separators: str.split(sep), sep.join(parts) and the first place of a character.

module Splitting {

  function FindFrom(c: char, s: string, i: nat): (d: nat)
    requires i <= |s|
    ensures i <= d <= |s| && (d < |s| ==> s[d] == c) && forall k | i <= k < d :: s[k] != c
    decreases |s| - i
  {
    if i == |s| || s[i] == c then i else FindFrom(c, s, i + 1)
  }

  /** The first place of c in s, or the end. */
  function Find(c: char, s: string): nat {
    FindFrom(c, s, 0)
  }

  function Split(c: char, s: string): (parts: seq<string>)
    ensures |parts| > 0 && forall p | p in parts :: c !in p
    decreases |s|
  {
    var d := Find(c, s);
    if d == |s| then [s] else [s[..d]] + Split(c, s[d + 1..])
  }

  function Join(c: char, parts: seq<string>): string {
    if parts == [] then ""
    else if |parts| == 1 then parts[0]
    else parts[0] + [c] + Join(c, parts[1..])
  }

  lemma FindAt(c: char, s: string, d: nat)
    requires d < |s| && s[d] == c && forall k | 0 <= k < d :: s[k] != c
    ensures Find(c, s) == d
  {
  }

  lemma FindAfter(c: char, head: string, rest: string)
    requires c !in head
    ensures var s, d := head + [c] + rest, |head|; Find(c, s) == d && s[..d] == head && s[d + 1..] == rest
  {
    var s, d := head + [c] + rest, |head|;
    assert forall k | 0 <= k < d :: s[k] == head[k] && head[k] in head;
    FindAt(c, s, d);
  }

  lemma {:induction false} SplitJoin(c: char, parts: seq<string>)
    requires parts != [] && forall p | p in parts :: c !in p
    ensures Split(c, Join(c, parts)) == parts
  {
    var s := Join(c, parts);
    if |parts| == 1 {
      assert s in parts;
    } else {
      FindAfter(c, parts[0], Join(c, parts[1..]));
      SplitJoin(c, parts[1..]);
    }
  }

  lemma {:induction false} JoinSplit(c: char, s: string)
    ensures Join(c, Split(c, s)) == s
    decreases |s|
  {
    var d := Find(c, s);
    if d != |s| {
      JoinSplit(c, s[d + 1..]);
      assert Split(c, s)[1..] == Split(c, s[d + 1..]);
      assert s == s[..d] + [c] + s[d + 1..];
    }
  }

  lemma SplitEmpty(c: char, s: string)
    ensures Split(c, s) == [""] <==> s == ""
  {
    JoinSplit(c, s);
  }

  lemma FindConcat(c: char, s: string, t: string)
    ensures var all, d := s + [c] + t, Find(c, s);
      && Find(c, all) == d && d < |all| && all[..d] == s[..d]
      && all[d + 1..] == if d == |s| then t else s[d + 1..] + [c] + t
  {
    FindAt(c, s + [c] + t, Find(c, s));
  }

  lemma {:induction false} SplitConcat(c: char, s: string, t: string)
    ensures Split(c, s + [c] + t) == Split(c, s) + Split(c, t)
    decreases |s|
  {
    var d := Find(c, s);
    FindConcat(c, s, t);
    if d == |s| {
      assert s[..d] == s;
    } else {
      SplitConcat(c, s[d + 1..], t);
    }
  }

  lemma {:induction false} JoinConcat(c: char, p: seq<string>, q: seq<string>)
    requires p != [] && q != []
    ensures Join(c, p + q) == Join(c, p) + [c] + Join(c, q)
  {
    if |p| == 1 {
      assert (p + q)[1..] == q;
    } else {
      JoinConcat(c, p[1..], q);
      assert (p + q)[1..] == p[1..] + q;
    }
  }
}
