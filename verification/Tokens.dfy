/** Pseudo-tokens in text: the regular expressions `[A-Z]+_\d+` and
    `[A-Z]+(_\d*)?$`, as matchers, and the substitution they drive.
    `\d` matches every decimal digit of Unicode, so the digit class is a
    parameter: any set with the ASCII digits and neither capitals nor `_`. */
module Tokens {
  const ASCII_DIGITS: set<char> := {'0', '1', '2', '3', '4', '5', '6', '7', '8', '9'}

  predicate IsUpper(c: char) {
    'A' <= c <= 'Z'
  }

  ghost predicate IsDigitClass(d: set<char>) {
    ASCII_DIGITS <= d && forall c :: c in d ==> !IsUpper(c) && c != '_'
  }

  type DigitClass = d: set<char> | IsDigitClass(d) witness ASCII_DIGITS

  predicate SplitsAsToken(d: DigitClass, w: string, u: nat) {
    && 0 < u < |w| - 1 && w[u] == '_'
    && (forall i :: 0 <= i < u ==> IsUpper(w[i]))
    && (forall i :: u < i < |w| ==> w[i] in d)
  }

  /** The language of `[A-Z]+_\d+`. */
  predicate IsToken(d: DigitClass, w: string) {
    exists u :: 0 < u < |w| && SplitsAsToken(d, w, u)
  }

  // ----- greedy runs -----

  /** The length of the run of capitals at the start of `s`. */
  function UpperRun(s: string): (n: nat)
    ensures n <= |s| && (n < |s| ==> !IsUpper(s[n]))
    ensures forall i :: 0 <= i < n ==> IsUpper(s[i])
  {
    if s == "" || !IsUpper(s[0]) then 0 else 1 + UpperRun(s[1..])
  }

  /** Where the run of digits from position `i` ends. */
  function DigitEnd(d: DigitClass, s: string, i: nat): (e: nat)
    requires i <= |s|
    ensures i <= e <= |s| && (e < |s| ==> s[e] !in d)
    ensures forall j :: i <= j < e ==> s[j] in d
    decreases |s| - i
  {
    if i == |s| || s[i] !in d then i else DigitEnd(d, s, i + 1)
  }

  /** The length of the match of `[A-Z]+_\d+` at the start of `s`; 0 without one. */
  function MatchLength(d: DigitClass, s: string): (n: nat)
    ensures n <= |s|
  {
    var u := UpperRun(s);
    if u > 0 && u < |s| && s[u] == '_' && DigitEnd(d, s, u + 1) > u + 1 then DigitEnd(d, s, u + 1) else 0
  }

  /** The greedy match is the longest: every match at the start of `s` is no
      longer than `MatchLength`, and `MatchLength` itself is one. */
  lemma MatchLengthLongest(d: DigitClass, s: string, n: nat)
    requires n <= |s|
    ensures IsToken(d, s[..n]) ==> n <= MatchLength(d, s)
    ensures MatchLength(d, s) > 0 ==> IsToken(d, s[..MatchLength(d, s)])
  {
    var w, u, m := s[..n], UpperRun(s), MatchLength(d, s);
    if IsToken(d, w) {
      var k :| 0 < k < |w| && SplitsAsToken(d, w, k);
      assert s[k] == w[k] && forall i :: 0 <= i < n ==> s[i] == w[i];
      assert k == u;
    }
    if m > 0 {
      assert SplitsAsToken(d, s[..m], u);
    }
  }

  // ----- substitution -----

  function Lookup(v: map<string, string>, token: string): string {
    if token in v then v[token] else token
  }

  /** `replace_all`: leftmost matches, never overlapping; an unknown token stays. */
  function Substitute(d: DigitClass, v: map<string, string>, s: string): string
    decreases |s|
  {
    if s == "" then ""
    else
      var n := MatchLength(d, s);
      if n > 0 then Lookup(v, s[..n]) + Substitute(d, v, s[n..])
      else [s[0]] + Substitute(d, v, s[1..])
  }

  /** Whether some match is a known token. */
  predicate FindsKnown(d: DigitClass, v: map<string, string>, s: string)
    decreases |s|
  {
    s != "" &&
    var n := MatchLength(d, s);
    if n > 0 then s[..n] in v || FindsKnown(d, v, s[n..]) else FindsKnown(d, v, s[1..])
  }

  // ----- the held tail -----

  /** The language of `[A-Z]+(_\d*)?`. */
  predicate IsTail(d: DigitClass, w: string) {
    var u := UpperRun(w);
    u > 0 && (u == |w| || (w[u] == '_' && DigitEnd(d, w, u + 1) == |w|))
  }

  /** Where the leftmost match of `[A-Z]+(_\d*)?$` starts; `|s|` without one. */
  function HoldAt(d: DigitClass, s: string): (h: nat)
    ensures h <= |s|
    ensures h < |s| ==> IsTail(d, s[h..])
    ensures forall i :: 0 <= i < h ==> !IsTail(d, s[i..])
  {
    if s == "" || IsTail(d, s) then 0
    else
      var h := 1 + HoldAt(d, s[1..]);
      assert forall i :: 1 <= i <= |s| ==> s[i..] == s[1..][i - 1..];
      h
  }

  /** The tail expression is exact: `w` could still become a token, or already
      is one, exactly when it matches. So holding less would be unsafe and
      holding more is never needed. */
  lemma TailIsTokenPrefix(d: DigitClass, w: string)
    ensures IsTail(d, w) <==> w != "" && exists ext :: IsToken(d, w + ext)
  {
    var u := UpperRun(w);
    if IsTail(d, w) {
      assert '0' in ASCII_DIGITS;
      var t := w + if u == |w| then "_0" else "0";
      assert SplitsAsToken(d, t, u);
      assert IsToken(d, t);
    }
    if w != "" && exists ext :: IsToken(d, w + ext) {
      var ext :| IsToken(d, w + ext);
      var t := w + ext;
      var k :| 0 < k < |t| && SplitsAsToken(d, t, k);
      assert forall i :: 0 <= i < |w| ==> w[i] == t[i];
      assert k < |w| ==> k == u;
    }
  }
}
