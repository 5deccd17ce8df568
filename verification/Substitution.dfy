/** What one substitution does, told from the tokens that stand in a text: leftmost
    first, as long as possible, never overlapping, and only known ones replaced. */
module Substitution {
  import opened Tokens
  import Lists

  /** No token starts at `i`. */
  predicate NoTokenAt(d: DigitClass, s: string, i: nat) {
    forall n :: i <= n <= |s| ==> !IsToken(d, s[i..n])
  }

  predicate NoTokenBefore(d: DigitClass, s: string, i: nat) {
    forall j :: 0 <= j < i ==> NoTokenAt(d, s, j)
  }

  /** The longest token at `i` ends at `n`. */
  predicate IsLongestToken(d: DigitClass, s: string, i: nat, n: nat) {
    i < n <= |s| && IsToken(d, s[i..n]) && forall m :: n < m <= |s| ==> !IsToken(d, s[i..m])
  }

  lemma MatchIs(d: DigitClass, s: string, n: nat)
    ensures MatchLength(d, s) == 0 <==> NoTokenAt(d, s, 0)
    ensures IsLongestToken(d, s, 0, n) ==> MatchLength(d, s) == n
  {
    var m := MatchLength(d, s);
    hide MatchLength, IsToken;
    forall k | 0 <= k <= |s| ensures IsToken(d, s[0..k]) ==> k <= m {
      assert s[0..k] == s[..k];
      MatchLengthLongest(d, s, k);
    }
    MatchLengthLongest(d, s, 0);
    assert s[0..m] == s[..m];
    TokenNonEmpty(d);
  }

  lemma TokenNonEmpty(d: DigitClass)
    ensures !IsToken(d, "")
  {
  }

  lemma TokenAtTail(d: DigitClass, s: string, i: nat)
    requires s != "" && i < |s|
    ensures NoTokenAt(d, s[1..], i) <==> NoTokenAt(d, s, i + 1)
  {
    hide IsToken;
    var k := i + 1;
    forall n | k <= n <= |s| ensures s[k..n] == s[1..][i..n - 1] {
    }
    if NoTokenAt(d, s, k) {
      forall n | i <= n < |s| ensures !IsToken(d, s[1..][i..n]) {
        assert s[1..][i..n] == s[k..n + 1];
      }
    }
  }

  lemma LongestAtTail(d: DigitClass, s: string, i: nat, n: nat)
    requires s != "" && IsLongestToken(d, s, i + 1, n)
    ensures IsLongestToken(d, s[1..], i, n - 1) && s[1..][i..n - 1] == s[i + 1..n] && s[1..][n - 1..] == s[n..]
  {
    hide IsToken;
    assert s[1..][i..n - 1] == s[i + 1..n];
    forall m | n - 1 < m <= |s[1..]| ensures !IsToken(d, s[1..][i..m]) {
      assert s[1..][i..m] == s[i + 1..m + 1];
    }
  }

  /** Text without a token stays as it is. */
  lemma {:induction false} NothingToReplace(d: DigitClass, v: map<string, string>, s: string)
    requires NoTokenBefore(d, s, |s|)
    ensures Substitute(d, v, s) == s && !FindsKnown(d, v, s)
    decreases |s|
  {
    hide MatchLength, NoTokenAt;
    if s != "" {
      MatchIs(d, s, 0);
      forall j | 0 <= j < |s[1..]| ensures NoTokenAt(d, s[1..], j) {
        TokenAtTail(d, s, j);
      }
      NothingToReplace(d, v, s[1..]);
    }
  }

  /** Otherwise text before the first token stays, a known token gives its original and an
      unknown one itself, and the rest is treated alike; a known token is found exactly
      when the first one is known or one is found in the rest. */
  lemma {:induction false} FirstReplaced(d: DigitClass, v: map<string, string>, s: string, i: nat, n: nat)
    requires NoTokenBefore(d, s, i) && IsLongestToken(d, s, i, n)
    ensures var token := s[i..n];
            && Substitute(d, v, s) == s[..i] + ((if token in v then v[token] else token) + Substitute(d, v, s[n..]))
            && (FindsKnown(d, v, s) <==> token in v || FindsKnown(d, v, s[n..]))
    decreases |s|
  {
    hide Substitute, FindsKnown, NoTokenBefore, IsToken;
    if i == 0 {
      TokenFirst(d, v, s, n);
      var token := s[0..n];
      var rest := (if token in v then v[token] else token) + Substitute(d, v, s[n..]);
      assert s[..0] + rest == rest;
    } else {
      FirstStays(d, v, s, i, n);
      TailBefore(d, s, i);
      LongestAtTail(d, s, i - 1, n);
      FirstReplaced(d, v, s[1..], i - 1, n - 1);
      var token := s[i..n];
      Lists.ConcatAssociates([s[0]], s[1..][..i - 1],
                             (if token in v then v[token] else token) + Substitute(d, v, s[n..]));
      assert s[..i] == [s[0]] + s[1..][..i - 1];
    }
  }

  lemma TokenFirst(d: DigitClass, v: map<string, string>, s: string, n: nat)
    requires IsLongestToken(d, s, 0, n)
    ensures var token := s[0..n];
            && Substitute(d, v, s) == (if token in v then v[token] else token) + Substitute(d, v, s[n..])
            && (FindsKnown(d, v, s) <==> token in v || FindsKnown(d, v, s[n..]))
  {
    MatchIs(d, s, n);
    hide MatchLength, IsToken;
    assert s[0..n] == s[..n];
  }

  lemma FirstStays(d: DigitClass, v: map<string, string>, s: string, i: nat, n: nat)
    requires 0 < i && NoTokenBefore(d, s, i) && IsLongestToken(d, s, i, n)
    ensures Substitute(d, v, s) == [s[0]] + Substitute(d, v, s[1..])
    ensures FindsKnown(d, v, s) <==> FindsKnown(d, v, s[1..])
  {
    MatchIs(d, s, n);
    hide MatchLength, NoTokenAt;
    assert NoTokenAt(d, s, 0);
  }

  lemma TailBefore(d: DigitClass, s: string, i: nat)
    requires 0 < i <= |s| && NoTokenBefore(d, s, i)
    ensures NoTokenBefore(d, s[1..], i - 1)
  {
    hide NoTokenAt;
    forall j | 0 <= j < i - 1 ensures NoTokenAt(d, s[1..], j) {
      TokenAtTail(d, s, j);
    }
  }
}
