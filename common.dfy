/** Small shared vocabulary: optional values, the outcome of an aborted run,
    and the few string operations the scripts apply to CSV cells
    (`str.strip`, `str.upper`, `str.lower`) together with the side test
    `side.strip() == 'Buy'` that every matcher uses. */
module Common {

  datatype Option<+T> = None | Some(value: T)

  /** The order side as the matchers see it: anything that is neither
      `Buy` nor `Sell` falls through every `if`/`elif` and is ignored. */
  datatype Side = Buy | Sell | Other

  function Min(a: real, b: real): real {
    if a <= b then a else b
  }

  /** The ASCII part of Python's whitespace class (`str.isspace`). */
  predicate IsSpace(c: char) {
    c == ' ' || c == '\t' || c == '\n' || c == '\r'
    || (0x0B <= c as int <= 0x0C) || (0x1C <= c as int <= 0x1F)
  }

  function TrimLeft(s: string): string {
    if s != [] && IsSpace(s[0]) then TrimLeft(s[1..]) else s
  }

  function TrimRight(s: string): string {
    if s != [] && IsSpace(s[|s| - 1]) then TrimRight(s[..|s| - 1]) else s
  }

  /** `s.strip()`. */
  function Strip(s: string): string {
    TrimRight(TrimLeft(s))
  }

  predicate AllSpace(s: string) {
    forall k :: 0 <= k < |s| ==> IsSpace(s[k])
  }

  /** `TrimLeft` drops exactly the leading whitespace: what it keeps is a
      suffix that does not start with whitespace, after a prefix of
      whitespace only. */
  lemma {:induction false} TrimLeftFacts(s: string)
    ensures |TrimLeft(s)| <= |s| && TrimLeft(s) == s[|s| - |TrimLeft(s)|..]
    ensures AllSpace(s[..|s| - |TrimLeft(s)|])
    ensures TrimLeft(s) == [] || !IsSpace(TrimLeft(s)[0])
    decreases |s|
  {
    if s != [] && IsSpace(s[0]) {
      TrimLeftFacts(s[1..]);
      var n := |s| - |TrimLeft(s)|;
      assert forall k :: 1 <= k < n ==> s[..n][k] == s[1..][..n - 1][k - 1];
    }
  }

  /** `TrimRight` drops exactly the trailing whitespace. */
  lemma {:induction false} TrimRightFacts(s: string)
    ensures |TrimRight(s)| <= |s| && TrimRight(s) == s[..|TrimRight(s)|]
    ensures AllSpace(s[|TrimRight(s)|..])
    ensures TrimRight(s) == [] || !IsSpace(TrimRight(s)[|TrimRight(s)| - 1])
    decreases |s|
  {
    if s != [] && IsSpace(s[|s| - 1]) {
      var init := s[..|s| - 1];
      TrimRightFacts(init);
      var n := |TrimRight(s)|;
      assert forall k :: n <= k < |s| - 1 ==> s[k] == init[k];
    }
  }

  /** `strip()` keeps a contiguous piece of `s` that neither starts nor
      ends with whitespace, and drops only whitespace around it. */
  lemma StripFacts(s: string)
    ensures var r := Strip(s);
      && (r == [] || (!IsSpace(r[0]) && !IsSpace(r[|r| - 1])))
      && exists i :: 0 <= i <= i + |r| <= |s| && r == s[i..i + |r|]
           && AllSpace(s[..i]) && AllSpace(s[i + |r|..])
  {
    var left := TrimLeft(s);
    var r := TrimRight(left);
    TrimLeftFacts(s);
    TrimRightFacts(left);
    var i := |s| - |left|;
    assert r == left[..|r|] == s[i..i + |r|];
    assert s[i + |r|..] == left[|r|..];
  }

  function UpperChar(c: char): char {
    if 'a' <= c <= 'z' then (c as int - 32) as char else c
  }

  function LowerChar(c: char): char {
    if 'A' <= c <= 'Z' then (c as int + 32) as char else c
  }

  /** `s.upper()` on ASCII letters. */
  function Upper(s: string): string {
    seq(|s|, k requires 0 <= k < |s| => UpperChar(s[k]))
  }

  /** `s.lower()` on ASCII letters. */
  function Lower(s: string): string {
    seq(|s|, k requires 0 <= k < |s| => LowerChar(s[k]))
  }

  /** `side = text.strip()` followed by `if side == 'Buy' … elif side == 'Sell'`. */
  function ParseSide(text: string): Side {
    var t := Strip(text);
    if t == "Buy" then Buy else if t == "Sell" then Sell else Other
  }

  /** Surrounding whitespace never changes the side: for any padding of
      spaces, tabs and line breaks, the padded cell reads like the bare one. */
  lemma {:induction false} PaddedSide(pre: string, side: string, post: string)
    requires AllSpace(pre) && AllSpace(post)
    requires side == "Buy" || side == "Sell"
    ensures ParseSide(pre + side + post) == (if side == "Buy" then Buy else Sell)
  {
    assert pre + side + post == pre + (side + post);
    TrimLeftPadded(pre, side + post);
    TrimRightPadded(side, post);
  }

  lemma {:induction false} TrimLeftPadded(pre: string, s: string)
    requires AllSpace(pre) && s != [] && !IsSpace(s[0])
    ensures TrimLeft(pre + s) == s
    decreases |pre|
  {
    if pre == [] {
      assert pre + s == s;
    } else {
      assert (pre + s)[1..] == pre[1..] + s;
      TrimLeftPadded(pre[1..], s);
    }
  }

  lemma {:induction false} TrimRightPadded(s: string, post: string)
    requires AllSpace(post) && s != [] && !IsSpace(s[|s| - 1])
    ensures TrimRight(s + post) == s
    decreases |post|
  {
    if post == [] {
      assert s + post == s;
    } else {
      var t := s + post;
      assert t[..|t| - 1] == s + post[..|post| - 1];
      TrimRightPadded(s, post[..|post| - 1]);
    }
  }
}
