/** The PHP string functions the modelled code calls: `strtoupper`,
    `strtolower`, single-character `strtr`, `strrpos`, and `strtr` with an
    array of replacement pairs. Case mapping is the ASCII one. */
module Text {
  import opened Wrappers

  function UpperChar(c: char): char {
    if 'a' <= c <= 'z' then (c as int - 32) as char else c
  }

  function LowerChar(c: char): char {
    if 'A' <= c <= 'Z' then (c as int + 32) as char else c
  }

  /** `strtoupper`. */
  function ToUpper(s: string): (r: string)
    ensures |r| == |s|
    ensures forall i :: 0 <= i < |s| ==> r[i] == UpperChar(s[i])
  {
    seq(|s|, i requires 0 <= i < |s| => UpperChar(s[i]))
  }

  /** `strtolower`. */
  function ToLower(s: string): (r: string)
    ensures |r| == |s|
    ensures forall i :: 0 <= i < |s| ==> r[i] == LowerChar(s[i])
  {
    seq(|s|, i requires 0 <= i < |s| => LowerChar(s[i]))
  }

  /** A string `strtoupper` leaves unchanged. */
  predicate IsUpper(s: string) {
    forall i :: 0 <= i < |s| ==> !('a' <= s[i] <= 'z')
  }

  lemma ToUpperIsUpper(s: string)
    ensures IsUpper(ToUpper(s))
    ensures IsUpper(s) <==> ToUpper(s) == s
  {
    if IsUpper(s) {
      assert forall i :: 0 <= i < |s| ==> ToUpper(s)[i] == s[i];
    }
  }

  /** `strtr(s, from, to)` for one character. */
  function Translate(s: string, from: char, to: char): (r: string)
    ensures |r| == |s|
    ensures forall i :: 0 <= i < |s| ==> r[i] == if s[i] == from then to else s[i]
  {
    seq(|s|, i requires 0 <= i < |s| => if s[i] == from then to else s[i])
  }

  /** `strrpos(s, c)`: the position of the last occurrence of `c`. */
  function LastIndexOf(s: string, c: char): (r: Option<nat>)
    ensures r.None? <==> c !in s
    ensures r.Some? ==> r.value < |s| && s[r.value] == c
    ensures r.Some? ==> forall j :: r.value < j < |s| ==> s[j] != c
  {
    if |s| == 0 then None
    else if s[|s| - 1] == c then Some(|s| - 1)
    else
      var r := LastIndexOf(s[..|s| - 1], c);
      assert s == s[..|s| - 1] + [s[|s| - 1]];
      r
  }

  /** The length of the longest prefix of `s`, at most `n` long, that is a
      key of `pairs`; 0 when no non-empty prefix is. */
  function LongestKey(s: string, pairs: map<string, string>, n: nat): (len: nat)
    requires n <= |s|
    ensures len <= n
    ensures len > 0 ==> s[..len] in pairs
    ensures forall m :: len < m <= n ==> s[..m] !in pairs
  {
    if n == 0 then 0
    else if s[..n] in pairs then n
    else LongestKey(s, pairs, n - 1)
  }

  /** `strtr(s, pairs)`: scanning left to right, the longest key that
      starts at the current position is replaced by its value and the scan
      resumes after it; replaced text is never scanned again. */
  function Strtr(s: string, pairs: map<string, string>): string
    decreases |s|
  {
    if |s| == 0 then ""
    else
      var len := LongestKey(s, pairs, |s|);
      if len > 0 then pairs[s[..len]] + Strtr(s[len..], pairs)
      else [s[0]] + Strtr(s[1..], pairs)
  }

  /** `k` occurs in `s` starting at position `i`. */
  predicate OccursAt(k: string, s: string, i: int) {
    0 <= i && i + |k| <= |s| && s[i..i + |k|] == k
  }

  /** `k` occurs somewhere in `s`. */
  ghost predicate OccursIn(k: string, s: string) {
    exists i :: OccursAt(k, s, i)
  }

  /** A string holding no key of `pairs` comes out of `strtr` unchanged. */
  lemma {:induction false} StrtrWithoutKeys(s: string, pairs: map<string, string>)
    requires forall k :: k in pairs ==> !OccursIn(k, s)
    ensures Strtr(s, pairs) == s
    decreases |s|
  {
    if |s| > 0 {
      var len := LongestKey(s, pairs, |s|);
      if len > 0 {
        assert OccursAt(s[..len], s, 0);
        assert false;
      }
      forall k | k in pairs
        ensures !OccursIn(k, s[1..])
      {
        if OccursIn(k, s[1..]) {
          var i :| OccursAt(k, s[1..], i);
          assert s[1..][i..i + |k|] == s[i + 1..i + 1 + |k|];
          assert OccursAt(k, s, i + 1);
        }
      }
      StrtrWithoutKeys(s[1..], pairs);
    }
  }

  /** Every key of `pairs` is non-empty and starts with `c`. */
  predicate KeysStartWith(pairs: map<string, string>, c: char) {
    forall k :: k in pairs ==> |k| > 0 && k[0] == c
  }

  /** Text free of the keys' first character is copied through. */
  lemma {:induction false} StrtrCopiesPlainText(pre: string, rest: string, pairs: map<string, string>, c: char)
    requires KeysStartWith(pairs, c)
    requires c !in pre
    ensures Strtr(pre + rest, pairs) == pre + Strtr(rest, pairs)
    decreases |pre|
  {
    if |pre| > 0 {
      var s := pre + rest;
      var len := LongestKey(s, pairs, |s|);
      assert s[0] == pre[0] && pre[0] != c;
      assert len == 0;
      assert Strtr(s, pairs) == [s[0]] + Strtr(s[1..], pairs);
      assert s[1..] == pre[1..] + rest;
      StrtrCopiesPlainText(pre[1..], rest, pairs, c);
      calc {
        Strtr(s, pairs);
        [pre[0]] + (pre[1..] + Strtr(rest, pairs));
        ([pre[0]] + pre[1..]) + Strtr(rest, pairs);
        { assert pre == [pre[0]] + pre[1..]; }
        pre + Strtr(rest, pairs);
      }
    } else {
      assert pre + rest == rest;
    }
  }

  /** A key no longer key extends is replaced by its value when the scan
      reaches it. */
  lemma StrtrReplacesKey(k: string, rest: string, pairs: map<string, string>)
    requires k in pairs && |k| > 0
    requires forall k' :: k' in pairs && |k| < |k'| ==> k'[..|k|] != k
    ensures Strtr(k + rest, pairs) == pairs[k] + Strtr(rest, pairs)
  {
    var s := k + rest;
    assert s[..|k|] == k;
    var len := LongestKey(s, pairs, |s|);
    assert len == |k|;
    assert s[len..] == rest;
  }

  /** No key of `pairs` is a proper prefix of another key that begins
      with `k`. */
  predicate Unextended(k: string, pairs: map<string, string>) {
    forall k' :: k' in pairs && |k| < |k'| ==> k'[..|k|] != k
  }

  /** A template with two placeholders between plain text comes out with
      both replaced and the text around them kept. */
  lemma FillTwo(a: string, k1: string, b: string, k2: string, c: string, pairs: map<string, string>, lead: char)
    requires KeysStartWith(pairs, lead)
    requires lead !in a && lead !in b && lead !in c
    requires k1 in pairs && Unextended(k1, pairs)
    requires k2 in pairs && Unextended(k2, pairs)
    ensures Strtr(a + k1 + b + k2 + c, pairs) == a + pairs[k1] + b + pairs[k2] + c
  {
    var t3 := k2 + c;
    var t2 := b + t3;
    var t1 := k1 + t2;
    StrtrKeepsPlainText(c, pairs, lead);
    StrtrReplacesKey(k2, c, pairs);
    StrtrCopiesPlainText(b, t3, pairs, lead);
    StrtrReplacesKey(k1, t2, pairs);
    StrtrCopiesPlainText(a, t1, pairs, lead);
    assert Strtr(a + t1, pairs) == a + (pairs[k1] + (b + (pairs[k2] + c)));
    ConcatFive(a, k1, b, k2, c);
    ConcatFive(a, pairs[k1], b, pairs[k2], c);
  }

  /** One key after plain text is replaced, and the rest is scanned on. */
  lemma FillOne(pre: string, k: string, post: string, pairs: map<string, string>, lead: char)
    requires KeysStartWith(pairs, lead)
    requires lead !in pre
    requires k in pairs && Unextended(k, pairs)
    ensures Strtr(pre + k + post, pairs) == pre + pairs[k] + Strtr(post, pairs)
  {
    var tail := k + post;
    assert pre + k + post == pre + tail;
    StrtrCopiesPlainText(pre, tail, pairs, lead);
    StrtrReplacesKey(k, post, pairs);
  }

  lemma ConcatFive(a: string, b: string, c: string, d: string, e: string)
    ensures a + b + c + d + e == a + (b + (c + (d + e)))
  {
  }

  /** Text free of the keys' first character comes out unchanged. */
  lemma StrtrKeepsPlainText(c: string, pairs: map<string, string>, lead: char)
    requires KeysStartWith(pairs, lead)
    requires lead !in c
    ensures Strtr(c, pairs) == c
  {
    StrtrCopiesPlainText(c, "", pairs, lead);
    assert c + "" == c;
  }
}
