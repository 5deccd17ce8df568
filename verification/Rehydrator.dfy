/** Streaming rehydration: chunks in, rehydrated text out, with a possible
    partial token held back between chunks. */
module Rehydrator {
  import opened Tokens
  import Lists

  // ----- where a match can be cut -----

  /** Text that is no tail already shows its match: no continuation changes it. */
  lemma MatchSettled(d: DigitClass, s: string, ext: string)
    requires s != "" && !IsTail(d, s)
    ensures MatchLength(d, s + ext) == MatchLength(d, s)
  {
    var w, u := s + ext, UpperRun(s);
    assert forall i :: 0 <= i < |s| ==> w[i] == s[i];
    assert UpperRun(w) == u < |s|;
    if u > 0 && s[u] == '_' {
      assert DigitEnd(d, w, u + 1) == DigitEnd(d, s, u + 1);
    }
  }

  /** A match at the start of `s` ends no later than the hold point, unless the
      hold point is the start. */
  lemma MatchBeforeHold(d: DigitClass, s: string)
    requires HoldAt(d, s) > 0
    ensures MatchLength(d, s) <= HoldAt(d, s) && s != "" && !IsTail(d, s)
  {
    var h, u := HoldAt(d, s), UpperRun(s);
    assert s[0..] == s && !IsTail(d, s);
    var m := MatchLength(d, s);
    if h < m {
      InsideMatchIsNoTail(d, s, h);
    }
  }

  /** No tail starts inside a match that stops short of the end. */
  lemma InsideMatchIsNoTail(d: DigitClass, s: string, i: nat)
    requires 0 < i < MatchLength(d, s) < |s|
    ensures !IsTail(d, s[i..])
  {
    var w, u, m := s[i..], UpperRun(s), MatchLength(d, s);
    assert forall j :: 0 <= j < |w| ==> w[j] == s[i + j];
    if i < u {
      assert UpperRun(w) == u - i;
      assert DigitEnd(d, w, u - i + 1) <= m - i by {
        assert w[m - i] == s[m];
      }
    } else {
      assert !IsUpper(w[0]);
    }
  }

  lemma HoldAtIs(d: DigitClass, s: string, h: nat)
    requires h <= |s| && (h < |s| ==> IsTail(d, s[h..]))
    requires forall i :: 0 <= i < h ==> !IsTail(d, s[i..])
    ensures HoldAt(d, s) == h
  {
    var k := HoldAt(d, s);
    if k < h {
      assert false;
    } else if h < k {
      assert false;
    }
  }

  lemma HoldAtTail(d: DigitClass, s: string, n: nat)
    requires n <= HoldAt(d, s)
    ensures HoldAt(d, s[n..]) == HoldAt(d, s) - n
  {
    hide HoldAt, IsTail;
    var h, t := HoldAt(d, s), s[n..];
    assert t[h - n..] == s[h..];
    forall i | 0 <= i < h - n ensures !IsTail(d, t[i..]) {
      assert t[i..] == s[n + i..];
    }
    HoldAtIs(d, t, h - n);
  }

  /** The flushed prefix alone has the same first match. */
  lemma MatchWithin(d: DigitClass, s: string, h: nat)
    requires MatchLength(d, s) <= h <= |s|
    ensures MatchLength(d, s[..h]) == MatchLength(d, s)
  {
    var m, p := MatchLength(d, s), s[..h];
    if m > 0 {
      MatchLengthLongest(d, s, m);
      assert p[..m] == s[..m];
      MatchLengthLongest(d, p, m);
    }
    var n := MatchLength(d, p);
    if n > 0 {
      MatchLengthLongest(d, p, n);
      assert p[..n] == s[..n];
      MatchLengthLongest(d, s, n);
    }
  }

  /** What one step of the substitution reads and writes. */
  function StepLength(d: DigitClass, s: string): nat {
    if MatchLength(d, s) > 0 then MatchLength(d, s) else 1
  }

  function Emit(v: map<string, string>, isMatch: bool, read: string): string {
    if isMatch then Lookup(v, read) else read
  }

  lemma SubstituteStep(d: DigitClass, v: map<string, string>, s: string)
    requires s != ""
    ensures var n := StepLength(d, s);
            n <= |s| && Substitute(d, v, s) == Emit(v, MatchLength(d, s) > 0, s[..n]) + Substitute(d, v, s[n..])
  {
    assert s[..1] == [s[0]];
  }

  /** Before the hold point, text that follows does not change the first step. */
  lemma StepSettled(d: DigitClass, v: map<string, string>, s: string, ext: string)
    requires HoldAt(d, s) > 0
    ensures var n := StepLength(d, s);
            && n <= HoldAt(d, s)
            && Substitute(d, v, s + ext) == Emit(v, MatchLength(d, s) > 0, s[..n]) + Substitute(d, v, s[n..] + ext)
  {
    hide Substitute, HoldAt, MatchLength, IsTail, Emit;
    MatchBeforeHold(d, s);
    MatchSettled(d, s, ext);
    SubstituteStep(d, v, s + ext);
    var n, w := StepLength(d, s), s + ext;
    assert w[..n] == s[..n] && w[n..] == s[n..] + ext;
  }

  lemma StepWithin(d: DigitClass, v: map<string, string>, s: string)
    requires HoldAt(d, s) > 0
    ensures var n, p := StepLength(d, s), s[..HoldAt(d, s)];
            n <= |p| && Substitute(d, v, p) == Emit(v, MatchLength(d, s) > 0, s[..n]) + Substitute(d, v, p[n..])
  {
    hide Substitute, HoldAt, MatchLength, IsTail, Emit;
    var n, p := StepLength(d, s), s[..HoldAt(d, s)];
    MatchBeforeHold(d, s);
    MatchWithin(d, s, |p|);
    SubstituteStep(d, v, p);
    assert p[..n] == s[..n];
  }

  lemma HoldAfterStep(d: DigitClass, s: string, n: nat)
    requires n <= HoldAt(d, s)
    ensures var h, t := HoldAt(d, s), s[n..];
            HoldAt(d, t) == h - n && t[..h - n] == s[..h][n..] && t[h - n..] == s[h..]
  {
    hide HoldAt, IsTail;
    HoldAtTail(d, s, n);
  }

  /** Substitution distributes over the hold point, whatever text follows. */
  lemma {:induction false} SubstituteAcrossHold(d: DigitClass, v: map<string, string>, s: string, ext: string)
    ensures var h := HoldAt(d, s);
            Substitute(d, v, s + ext) == Substitute(d, v, s[..h]) + Substitute(d, v, s[h..] + ext)
    decreases |s|
  {
    hide Substitute, HoldAt, MatchLength, IsTail, Emit;
    var h := HoldAt(d, s);
    var rest := Substitute(d, v, s[h..] + ext);
    if h == 0 {
      EmptyUnchanged(d, v);
      assert s[0..] == s && s[..0] == "" && "" + rest == rest;
    } else {
      StepSettled(d, v, s, ext);
      StepWithin(d, v, s);
      var n := StepLength(d, s);
      HoldAfterStep(d, s, n);
      SubstituteAcrossHold(d, v, s[n..], ext);
      Lists.ConcatAssociates(Emit(v, MatchLength(d, s) > 0, s[..n]), Substitute(d, v, s[..h][n..]), rest);
    }
  }

  lemma EmptyUnchanged(d: DigitClass, v: map<string, string>)
    ensures Substitute(d, v, "") == ""
  {
  }

  // ----- the streaming rewriter -----

  /** The caller's buffer: text received but not yet safe to send on. */
  class StreamBuffer {
    var text: string

    constructor ()
      ensures text == ""
    {
      text := "";
    }
  }

  /** One chunk: hold the tail, substitute in the rest. `hit` says whether a
      known token was replaced. */
  method RehydrateChunk(d: DigitClass, v: map<string, string>, chunk: string, buffer: StreamBuffer)
      returns (output: string, hit: bool)
    modifies buffer
    ensures var s := old(buffer.text) + chunk;
            && output == Substitute(d, v, s[..HoldAt(d, s)])
            && hit == FindsKnown(d, v, s[..HoldAt(d, s)])
            && buffer.text == s[HoldAt(d, s)..]
  {
    buffer.text := buffer.text + chunk;
    var holdAt := HoldAt(d, buffer.text);
    var flushable, held := buffer.text[..holdAt], buffer.text[holdAt..];
    hit := FindsKnown(d, v, flushable);
    output := Substitute(d, v, flushable);
    buffer.text := held;
  }

  /** A whole stream: every chunk through `RehydrateChunk`, from an empty buffer. */
  method RehydrateStream(d: DigitClass, v: map<string, string>, chunks: seq<string>)
      returns (output: string, rest: string)
    ensures output == Streamed(d, v, "", chunks).0 && rest == Streamed(d, v, "", chunks).1
    ensures output + Substitute(d, v, rest) == Substitute(d, v, Concat(chunks))
  {
    var buffer := new StreamBuffer();
    hide Substitute, HoldAt;
    output := "";
    assert chunks[0..] == chunks;
    for i := 0 to |chunks|
      invariant Streamed(d, v, "", chunks).0 == output + Streamed(d, v, buffer.text, chunks[i..]).0
      invariant Streamed(d, v, "", chunks).1 == Streamed(d, v, buffer.text, chunks[i..]).1
    {
      assert chunks[i..][0] == chunks[i] && chunks[i..][1..] == chunks[i + 1..];
      var o, _ := RehydrateChunk(d, v, chunks[i], buffer);
      output := output + o;
    }
    rest := buffer.text;
    assert chunks[|chunks|..] == [];
    StreamingRefinesOneShot(d, v, "", chunks);
    assert "" + Concat(chunks) == Concat(chunks);
  }

  function Concat(chunks: seq<string>): string {
    if chunks == [] then "" else chunks[0] + Concat(chunks[1..])
  }

  /** What is sent and what stays held after `chunks`, from buffer `held`. */
  function Streamed(d: DigitClass, v: map<string, string>, held: string, chunks: seq<string>): (string, string)
    decreases |chunks|
  {
    if chunks == [] then ("", held)
    else
      var s := held + chunks[0];
      var h := HoldAt(d, s);
      var (output, rest) := Streamed(d, v, s[h..], chunks[1..]);
      (Substitute(d, v, s[..h]) + output, rest)
  }

  /** Streaming refines one-shot substitution: however the text is chunked,
      what was sent plus the substituted rest is the substitution of it all. */
  lemma {:induction false} StreamingRefinesOneShot(d: DigitClass, v: map<string, string>, held: string,
                                                   chunks: seq<string>)
    ensures Streamed(d, v, held, chunks).0 + Substitute(d, v, Streamed(d, v, held, chunks).1)
         == Substitute(d, v, held + Concat(chunks))
    decreases |chunks|
  {
    hide Substitute, HoldAt;
    if chunks == [] {
      assert held + "" == held;
    } else {
      var s, more := held + chunks[0], Concat(chunks[1..]);
      var h := HoldAt(d, s);
      var (o, r) := Streamed(d, v, s[h..], chunks[1..]);
      calc {
        Streamed(d, v, held, chunks).0 + Substitute(d, v, r);
        (Substitute(d, v, s[..h]) + o) + Substitute(d, v, r);
        Substitute(d, v, s[..h]) + (o + Substitute(d, v, r));
        { StreamingRefinesOneShot(d, v, s[h..], chunks[1..]); }
        Substitute(d, v, s[..h]) + Substitute(d, v, s[h..] + more);
        { SubstituteAcrossHold(d, v, s, more); }
        Substitute(d, v, s + more);
        { assert held + Concat(chunks) == s + more; }
        Substitute(d, v, held + Concat(chunks));
      }
    }
  }

  /** Nothing sent is ever retracted: what was sent after any prefix of the
      chunks starts the one-shot substitution of every text that continues them. */
  lemma SentIsFinal(d: DigitClass, v: map<string, string>, chunks: seq<string>, more: string)
    ensures Streamed(d, v, "", chunks).0 <= Substitute(d, v, Concat(chunks) + more)
  {
    var (o, r) := Streamed(d, v, "", chunks);
    var all := chunks + [more];
    StreamingRefinesOneShot(d, v, "", all);
    StreamedAppend(d, v, "", chunks, more);
    ConcatAppend(chunks, more);
    assert "" + Concat(all) == Concat(chunks) + more;
  }

  lemma {:induction false} StreamedAppend(d: DigitClass, v: map<string, string>, held: string, chunks: seq<string>,
                                          more: string)
    ensures Streamed(d, v, held, chunks).0 <= Streamed(d, v, held, chunks + [more]).0
    decreases |chunks|
  {
    if chunks != [] {
      var s := held + chunks[0];
      assert (chunks + [more])[1..] == chunks[1..] + [more];
      StreamedAppend(d, v, s[HoldAt(d, s)..], chunks[1..], more);
    }
  }

  lemma {:induction false} ConcatAppend(chunks: seq<string>, more: string)
    ensures Concat(chunks + [more]) == Concat(chunks) + more
  {
    if chunks == [] {
      assert [more][1..] == [] && chunks + [more] == [more];
    } else {
      assert (chunks + [more])[1..] == chunks[1..] + [more];
      ConcatAppend(chunks[1..], more);
    }
  }

  /** The held tail never cuts a token: in no continuation of the buffer does
      the substitution of the flushed prefix read past the hold point, and the
      held tail is the longest suffix that could still become a token. */
  lemma HoldIsExact(d: DigitClass, s: string, i: nat)
    requires i < |s|
    ensures i == HoldAt(d, s) ==> exists ext :: IsToken(d, s[i..] + ext)
    ensures i < HoldAt(d, s) ==> !exists ext :: IsToken(d, s[i..] + ext)
  {
    TailIsTokenPrefix(d, s[i..]);
  }
}
