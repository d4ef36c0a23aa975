/** The Python string operations the program applies to names and codes. */
module Strings {
  /** str.isspace, the white space that str.strip removes. */
  predicate IsSpace(c: char) {
    var n := c as int;
    || 9 <= n <= 13 || 28 <= n <= 32 || n == 0x85 || n == 0xA0 || n == 0x1680 || 0x2000 <= n <= 0x200A
    || n == 0x2028 || n == 0x2029 || n == 0x202F || n == 0x205F || n == 0x3000
  }

  function StripLeft(s: string): string {
    if s != [] && IsSpace(s[0]) then StripLeft(s[1..]) else s
  }

  function StripRight(s: string): string {
    if s != [] && IsSpace(s[|s| - 1]) then StripRight(s[..|s| - 1]) else s
  }

  function Strip(s: string): string { StripRight(StripLeft(s)) }

  predicate AllSpace(s: string) {
    forall i :: 0 <= i < |s| ==> IsSpace(s[i])
  }

  /** The text with the outer white space cut off, as a slice. */
  lemma {:induction false} StripLeftSlice(s: string) returns (i: nat)
    ensures i <= |s| && StripLeft(s) == s[i..] && AllSpace(s[..i])
  {
    if s != [] && IsSpace(s[0]) {
      var j := StripLeftSlice(s[1..]);
      i := j + 1;
      assert s[1..][j..] == s[i..];
      forall k | 0 <= k < i ensures IsSpace(s[k]) {
        if k > 0 { assert s[1..][..j][k - 1] == s[k]; }
      }
    } else {
      i := 0;
    }
  }

  lemma {:induction false} StripRightSlice(s: string) returns (j: nat)
    ensures j <= |s| && StripRight(s) == s[..j] && AllSpace(s[j..])
  {
    if s != [] && IsSpace(s[|s| - 1]) {
      j := StripRightSlice(s[..|s| - 1]);
      assert s[..|s| - 1][..j] == s[..j];
      forall k | j <= k < |s| ensures IsSpace(s[k]) {
        if k < |s| - 1 { assert s[..|s| - 1][j..][k - j] == s[k]; }
      }
    } else {
      j := |s|;
    }
  }

  /** Surrounding white space makes no difference to what is left. */
  lemma {:induction false} StripLeftFolds(pre: string, rest: string)
    requires AllSpace(pre)
    ensures StripLeft(pre + rest) == StripLeft(rest)
  {
    if pre == [] {
      assert pre + rest == rest;
    } else {
      assert (pre + rest)[1..] == pre[1..] + rest;
      StripLeftFolds(pre[1..], rest);
    }
  }

  lemma {:induction false} StripRightFolds(rest: string, post: string)
    requires AllSpace(post)
    ensures StripRight(rest + post) == StripRight(rest)
  {
    if post == [] {
      assert rest + post == rest;
    } else {
      assert (rest + post)[..|rest + post| - 1] == rest + post[..|post| - 1];
      StripRightFolds(rest, post[..|post| - 1]);
    }
  }

  lemma {:induction false} StripLeftStops(typed: string, post: string, i: nat)
    requires i < |typed| && StripLeft(typed) == typed[i..]
    ensures StripLeft(typed + post) == typed[i..] + post
  {
    assert (typed + post)[1..] == typed[1..] + post;
    if IsSpace(typed[0]) {
      var j := StripLeftSlice(typed[1..]);
      assert |typed[1..][j..]| == |typed[i..]|;
      assert j == i - 1;
      StripLeftStops(typed[1..], post, i - 1);
    }
  }

  lemma StripRightOfSpace(post: string)
    requires AllSpace(post)
    ensures StripRight(StripLeft(post)) == StripRight([])
  {}

  lemma StripPadded(pre: string, s: string, post: string)
    requires AllSpace(pre) && AllSpace(post)
    ensures Strip(pre + s + post) == Strip(s)
  {
    assert pre + s + post == pre + (s + post);
    StripLeftFolds(pre, s + post);
    var i := StripLeftSlice(s);
    if i < |s| {
      StripLeftStops(s, post, i);
      StripRightFolds(s[i..], post);
    } else {
      assert s[..i] == s;
      StripLeftFolds(s, post);
      StripRightOfSpace(post);
    }
  }
}
