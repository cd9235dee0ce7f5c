/**
 Full-text redactors that replace every match of a pattern of fixed length, which meet the contract of the
 streaming redactor (redaction.py) and show that its bound on the holdback is exact.
 */
module MatchRedaction {
  import opened Options
  import opened StreamRedaction

  const REPLACEMENT: string := "[REDACTED]"

  datatype Pattern = Pattern(matches: string -> bool, length: nat)

  /** Matches have one length, hold no replacement marker and do not start like anything in a replacement. */
  ghost predicate Regular(p: Pattern) {
    p.length > 0 && forall s :: p.matches(s) ==> |s| == p.length && MARK !in s && s[0] !in REPLACEMENT
  }

  ghost predicate TriggersScan(scan: Scan, p: Pattern) { forall s :: p.matches(s) ==> NeedsScan(scan, s) }

  predicate StartsWithMatch(p: Pattern, x: string) { 0 < p.length <= |x| && p.matches(x[..p.length]) }

  /** Replaces every match, scanning from the left. */
  function RedactEach(p: Pattern, x: string): string {
    if StartsWithMatch(p, x) then REPLACEMENT + RedactEach(p, x[p.length..])
    else if x == "" then ""
    else [x[0]] + RedactEach(p, x[1..])
  }

  function EachRedactor(scan: Scan, p: Pattern): Redactor { Redactor(scan, x => RedactEach(p, x), p.matches) }

  // ---------------------------------------------------------------- the redactor's contract

  lemma {:induction false} CopiesUpToMark(p: Pattern, x: string, n: nat)
    requires n <= |RedactEach(p, x)|
    ensures MARK !in RedactEach(p, x)[..n] ==> RedactEach(p, x)[..n] <= x
    decreases |x|
  {
    var y := RedactEach(p, x);
    if n > 0 {
      if StartsWithMatch(p, x) {
        assert y[..n][0] == REPLACEMENT[0] == MARK;
      } else {
        var rest := RedactEach(p, x[1..]);
        assert y[..n] == [x[0]] + rest[..n - 1];
        CopiesUpToMark(p, x[1..], n - 1);
      }
    }
  }

  lemma {:induction false} OutputStartsWithNoMatch(p: Pattern, x: string)
    requires Regular(p)
    ensures !StartsWithMatch(p, RedactEach(p, x))
  {
    var y := RedactEach(p, x);
    if p.length <= |y| {
      CopiesUpToMark(p, x, p.length);
      if StartsWithMatch(p, x) {
        assert y[..p.length][0] == REPLACEMENT[0];
      } else if MARK !in y[..p.length] {
        assert y[..p.length] == x[..p.length];
      }
    }
  }

  lemma {:induction false} DropBehind(a: string, b: string, i: nat)
    requires |a| <= i <= |a| + |b|
    ensures (a + b)[i..] == b[i - |a|..]
  {
  }

  /** No match starts inside a replacement, whatever stands behind it. */
  lemma {:induction false} NoMatchInReplacement(p: Pattern, rest: string, i: nat)
    requires Regular(p) && i < |REPLACEMENT|
    ensures !StartsWithMatch(p, (REPLACEMENT + rest)[i..])
  {
    var y := (REPLACEMENT + rest)[i..];
    if p.length <= |y| { assert y[..p.length][0] == REPLACEMENT[i]; }
  }

  lemma {:induction false} OutputHasNoMatch(p: Pattern, x: string, i: nat)
    requires Regular(p) && i <= |RedactEach(p, x)|
    ensures !StartsWithMatch(p, RedactEach(p, x)[i..])
    decreases |x|
  {
    if i == 0 {
      OutputStartsWithNoMatch(p, x);
      assert RedactEach(p, x)[0..] == RedactEach(p, x);
    } else if !StartsWithMatch(p, x) {
      OutputHasNoMatch(p, x[1..], i - 1);
      DropBehind([x[0]], RedactEach(p, x[1..]), i);
    } else if i < |REPLACEMENT| {
      NoMatchInReplacement(p, RedactEach(p, x[p.length..]), i);
    } else {
      OutputHasNoMatch(p, x[p.length..], i - |REPLACEMENT|);
      DropBehind(REPLACEMENT, RedactEach(p, x[p.length..]), i);
    }
  }

  lemma {:induction false} SliceIsPrefix(y: string, i: nat, j: nat)
    requires i <= j <= |y|
    ensures y[i..j] == y[i..][..j - i]
  {
  }

  lemma {:induction false} OutputIsClean(scan: Scan, p: Pattern, x: string)
    requires Regular(p)
    ensures Clean(EachRedactor(scan, p), RedactEach(p, x))
  {
    var y := RedactEach(p, x);
    forall i, j | 0 <= i <= j <= |y| ensures !p.matches(y[i..j]) {
      if j - i == p.length {
        OutputHasNoMatch(p, x, i);
        SliceIsPrefix(y, i, j);
      }
    }
  }

  /** The contract is met for every pattern whose matches trigger the scan. */
  lemma {:induction false} PatternIsSound(scan: Scan, p: Pattern)
    requires Regular(p) && TriggersScan(scan, p)
    ensures Sound(EachRedactor(scan, p), p.length)
  {
    var r := EachRedactor(scan, p);
    forall x ensures Clean(r, r.redact(x)) { OutputIsClean(scan, p, x); }
    forall x, n | 0 <= n <= |r.redact(x)| && MARK !in r.redact(x)[..n] ensures r.redact(x)[..n] <= x {
      CopiesUpToMark(p, x, n);
    }
  }

  // ---------------------------------------------------------------- what is left alone

  lemma {:induction false} LeavesShortText(p: Pattern, x: string)
    requires |x| < p.length
    ensures RedactEach(p, x) == x
  {
    if x != "" { LeavesShortText(p, x[1..]); }
  }

  lemma {:induction false} CleanRest(scan: Scan, p: Pattern, x: string, k: nat)
    requires k <= |x| && Clean(EachRedactor(scan, p), x)
    ensures Clean(EachRedactor(scan, p), x[k..])
  {
    forall i, j | 0 <= i <= j <= |x[k..]| ensures !p.matches(x[k..][i..j]) {
      assert x[k..][i..j] == x[k + i..k + j];
    }
  }

  lemma {:induction false} CleanFront(scan: Scan, p: Pattern, x: string, k: nat)
    requires k <= |x| && Clean(EachRedactor(scan, p), x)
    ensures Clean(EachRedactor(scan, p), x[..k])
  {
    forall i, j | 0 <= i <= j <= |x[..k]| ensures !p.matches(x[..k][i..j]) {
      assert x[..k][i..j] == x[i..j];
    }
  }

  lemma {:induction false} CleanTextIsLeftAlone(scan: Scan, p: Pattern, x: string)
    requires Clean(EachRedactor(scan, p), x)
    ensures RedactEach(p, x) == x
  {
    if x != "" {
      CleanRest(scan, p, x, 1);
      CleanTextIsLeftAlone(scan, p, x[1..]);
      if |x| >= p.length { assert x[0..p.length] == x[..p.length]; }
    }
  }

  /** The redactor leaves exactly those texts alone that hold no match. */
  lemma {:induction false} LeavesAloneIff(scan: Scan, p: Pattern, x: string)
    requires Regular(p)
    ensures RedactEach(p, x) == x <==> Clean(EachRedactor(scan, p), x)
  {
    if Clean(EachRedactor(scan, p), x) {
      CleanTextIsLeftAlone(scan, p, x);
    } else {
      OutputIsClean(scan, p, x);
    }
  }

  /** Text without a match passes through the stream unchanged, for every chunking and every holdback. */
  lemma {:induction false} CleanStreamPassesThrough(scan: Scan, p: Pattern, h: int, tokens: seq<Token>)
    requires Clean(EachRedactor(scan, p), Input(tokens))
    ensures Output(EachRedactor(scan, p), h, tokens) == Input(tokens)
  {
    var r, x := EachRedactor(scan, p), Input(tokens);
    forall i, j | 0 <= i <= j <= |x| ensures r.redact(x[i..j]) == x[i..j] {
      CleanFront(scan, p, x, j);
      assert x[..j][i..] == x[i..j];
      CleanRest(scan, p, x[..j], i);
      CleanTextIsLeftAlone(scan, p, x[i..j]);
    }
    StreamIsTransparent(r, h, tokens);
  }

  // ---------------------------------------------------------------- redaction works from left to right

  /** Text in front of which no match starts is copied. */
  lemma {:induction false} CopiesFront(p: Pattern, x: string, k: nat)
    requires k <= |x| && forall i: nat :: i < k ==> !StartsWithMatch(p, x[i..])
    ensures RedactEach(p, x) == x[..k] + RedactEach(p, x[k..])
  {
    if k > 0 {
      CopiesFront(p, x, k - 1);
      var y := x[k - 1..];
      assert !StartsWithMatch(p, y);
      assert RedactEach(p, y) == [y[0]] + RedactEach(p, y[1..]);
      assert y[1..] == x[k..] && x[..k - 1] + [x[k - 1]] == x[..k];
      Associate(x[..k - 1], [x[k - 1]], RedactEach(p, x[k..]));
    } else {
      assert x[0..] == x;
    }
  }

  lemma {:induction false} Associate(a: string, b: string, c: string)
    ensures a + (b + c) == (a + b) + c
  {
  }

  /** A clean text can be cut anywhere but in its last characters, one fewer than a match has. */
  lemma {:induction false} PatternSplits(scan: Scan, p: Pattern, x: string, k: nat, rest: string)
    requires p.length > 0 && k <= |x| && |x| - k >= p.length - 1 && Clean(EachRedactor(scan, p), x)
    ensures SplitsAt(EachRedactor(scan, p), x, k, rest)
  {
    var all := x + rest;
    forall i: nat | i < k ensures !StartsWithMatch(p, all[i..]) {
      assert all[i..][..p.length] == x[i..i + p.length];
    }
    CopiesFront(p, all, k);
    assert all[..k] == x[..k] && all[k..] == x[k..] + rest;
  }

  /** No match starts in a replacement. */
  lemma {:induction false} CopiesReplacement(p: Pattern, y: string)
    requires Regular(p)
    ensures RedactEach(p, REPLACEMENT + y) == REPLACEMENT + RedactEach(p, y)
  {
    var x := REPLACEMENT + y;
    forall i: nat | i < |REPLACEMENT| ensures !StartsWithMatch(p, x[i..]) { NoMatchInReplacement(p, y, i); }
    CopiesFront(p, x, |REPLACEMENT|);
    assert x[..|REPLACEMENT|] == REPLACEMENT && x[|REPLACEMENT|..] == y;
  }

  /** A text of which something was replaced shows the marker. */
  lemma {:induction false} UnmarkedIsLeftAlone(p: Pattern, x: string)
    requires MARK !in RedactEach(p, x)
    ensures RedactEach(p, x) == x
  {
    assert REPLACEMENT[0] == MARK;
    if !StartsWithMatch(p, x) && x != "" {
      assert RedactEach(p, x)[1..] == RedactEach(p, x[1..]);
      UnmarkedIsLeftAlone(p, x[1..]);
    }
  }

  lemma {:induction false} NotAtStart(p: Pattern, x: string, rest: string)
    requires |x| >= p.length > 0 && !StartsWithMatch(p, x)
    ensures RedactEach(p, x + rest) == [x[0]] + RedactEach(p, x[1..] + rest)
  {
    assert (x + rest)[..p.length] == x[..p.length] && (x + rest)[1..] == x[1..] + rest;
  }

  lemma {:induction false} AtStart(p: Pattern, x: string, rest: string)
    requires StartsWithMatch(p, x)
    ensures RedactEach(p, x + rest) == REPLACEMENT + RedactEach(p, x[p.length..] + rest)
  {
    assert (x + rest)[..p.length] == x[..p.length] && (x + rest)[p.length..] == x[p.length..] + rest;
  }

  lemma {:induction false} MarkedIsNoMatch(p: Pattern, o: string, rest: string)
    requires Regular(p) && |o| < p.length && MARK in o
    ensures !StartsWithMatch(p, o + rest)
  {
    var i :| 0 <= i < |o| && o[i] == MARK;
    if |o + rest| >= p.length { assert (o + rest)[..p.length][i] == MARK; }
  }

  /** Behind a first character that is copied, redacted text can be redacted again. */
  lemma {:induction false} CopiesFirstAgain(p: Pattern, x: string, rest: string)
    requires Regular(p) && |x| >= p.length && !StartsWithMatch(p, x)
    ensures var o := RedactEach(p, x); RedactEach(p, o + rest) == [o[0]] + RedactEach(p, o[1..] + rest)
  {
    var o := RedactEach(p, x);
    if |o| >= p.length {
      OutputStartsWithNoMatch(p, x);
      NotAtStart(p, o, rest);
    } else {
      if MARK !in o { UnmarkedIsLeftAlone(p, x); }
      MarkedIsNoMatch(p, o, rest);
      assert (o + rest)[1..] == o[1..] + rest;
    }
  }

  lemma {:induction false} ReplacedAgain(p: Pattern, o: string, rest: string)
    requires Regular(p)
    ensures RedactEach(p, (REPLACEMENT + o) + rest) == REPLACEMENT + RedactEach(p, o + rest)
  {
    CopiesReplacement(p, o + rest);
    assert (REPLACEMENT + o) + rest == REPLACEMENT + (o + rest);
  }

  lemma {:induction false} TailOf(c: char, o: string)
    ensures ([c] + o)[1..] == o && ([c] + o)[0] == c
  {
  }

  /** Redacting what is redacted already, with more text behind it, is redacting all of it. */
  lemma {:induction false} PatternRescans(p: Pattern, x: string, rest: string)
    requires Regular(p)
    ensures RedactEach(p, x + rest) == RedactEach(p, RedactEach(p, x) + rest)
    decreases |x|
  {
    if |x| < p.length {
      LeavesShortText(p, x);
    } else if StartsWithMatch(p, x) {
      AtStart(p, x, rest);
      PatternRescans(p, x[p.length..], rest);
      ReplacedAgain(p, RedactEach(p, x[p.length..]), rest);
    } else {
      NotAtStart(p, x, rest);
      PatternRescans(p, x[1..], rest);
      CopiesFirstAgain(p, x, rest);
      TailOf(x[0], RedactEach(p, x[1..]));
    }
  }

  lemma {:induction false} PatternIsLeftToRight(scan: Scan, p: Pattern)
    requires Regular(p)
    ensures LeftToRight(EachRedactor(scan, p), p.length)
  {
    var r := EachRedactor(scan, p);
    forall x, rest ensures Rescans(r, x, rest) { PatternRescans(p, x, rest); }
    forall x, k: nat, rest | k <= |x| && |x| - k >= p.length - 1 && Clean(r, x) ensures SplitsAt(r, x, k, rest) {
      PatternSplits(scan, p, x, k, rest);
    }
  }

  // ---------------------------------------------------------------- the exact holdback

  /** Text shorter than a match passes through unchanged, chunk by chunk. */
  lemma {:induction false} ShortStepIsTransparent(scan: Scan, p: Pattern, h: int, st: Stream, token: Token)
    requires token.Chunk? && |st.pending + token.text| < p.length
    ensures Step(EachRedactor(scan, p), h, st, token).Text() == st.Text() + token.text
    ensures |Step(EachRedactor(scan, p), h, st, token).pending| <= if h > 0 then h else 0
  {
    LeavesShortText(p, st.pending + token.text);
    StepOnFixedText(EachRedactor(scan, p), h, st, token);
  }

  lemma {:induction false} ShortFlushIsTransparent(scan: Scan, p: Pattern, st: Stream)
    requires |st.pending| < p.length
    ensures Concat(Flush(EachRedactor(scan, p), st)) == st.Text()
  {
    LeavesShortText(p, st.pending);
    ConcatOne(st.emitted, st.pending);
  }

  /** With a smaller holdback, text fed one character at a time is never seen as wide as a match. */
  lemma {:induction false} SmallHoldbackPassesAll(scan: Scan, p: Pattern, h: int, tokens: seq<Token>)
    requires h < p.length - 1 && p.length > 1
    requires forall k :: 0 <= k < |tokens| ==> tokens[k].Chunk? && |tokens[k].text| == 1
    ensures Run(EachRedactor(scan, p), h, tokens).Text() == Input(tokens)
    ensures |Run(EachRedactor(scan, p), h, tokens).pending| < p.length - 1
  {
    if tokens != [] {
      var before, last := tokens[..|tokens| - 1], tokens[|tokens| - 1];
      SmallHoldbackPassesAll(scan, p, h, before);
      ShortStepIsTransparent(scan, p, h, Run(EachRedactor(scan, p), h, before), last);
    }
  }

  function OneByOne(text: string): (tokens: seq<Token>)
    ensures |tokens| == |text| && forall k :: 0 <= k < |text| ==> tokens[k] == Chunk([text[k]])
  {
    seq(|text|, k requires 0 <= k < |text| => Chunk([text[k]]))
  }

  lemma {:induction false} InputOneByOne(text: string)
    ensures Input(OneByOne(text)) == text
  {
    if text != "" {
      var n := |text| - 1;
      InputOneByOne(text[..n]);
      assert OneByOne(text)[..n] == OneByOne(text[..n]);
      assert text == text[..n] + [text[n]];
    }
  }

  /** With a smaller holdback, any match fed one character at a time comes out whole. */
  lemma {:induction false} SmallHoldbackLeaks(scan: Scan, p: Pattern, h: int, id: string)
    requires h < p.length - 1 && p.length > 1 && |id| == p.length && p.matches(id)
    ensures Output(EachRedactor(scan, p), h, OneByOne(id)) == id
    ensures !Clean(EachRedactor(scan, p), Output(EachRedactor(scan, p), h, OneByOne(id)))
  {
    var tokens := OneByOne(id);
    SmallHoldbackPassesAll(scan, p, h, tokens);
    InputOneByOne(id);
    ShortFlushIsTransparent(scan, p, Run(EachRedactor(scan, p), h, tokens));
    assert id[0..|id|] == id;
  }

  /**
   The bound on the holdback is exact: every chunking is safe if and only if the holdback is at least one less than
   the length of a match.  Negative holdbacks, which the `holdback_chars` argument allows, fail like the small ones.
   */
  lemma {:induction false} StreamIsSafeIff(scan: Scan, p: Pattern, h: int, id: string)
    requires Regular(p) && TriggersScan(scan, p) && p.length > 1 && p.matches(id)
    ensures (forall tokens :: Clean(EachRedactor(scan, p), Output(EachRedactor(scan, p), h, tokens)))
       <==> h >= p.length - 1
  {
    var r := EachRedactor(scan, p);
    if h >= p.length - 1 {
      PatternIsSound(scan, p);
      forall tokens ensures Clean(r, Output(r, h, tokens)) { StreamOutputIsClean(r, p.length, h, tokens); }
    } else {
      SmallHoldbackLeaks(scan, p, h, id);
    }
  }

  /** With the same bound, and no smaller one, streaming equals redacting the whole text at once, for every chunking. */
  lemma {:induction false} StreamIsOneShotIff(scan: Scan, p: Pattern, h: int, id: string)
    requires Regular(p) && TriggersScan(scan, p) && p.length > 1 && p.matches(id)
    ensures (forall tokens :: Output(EachRedactor(scan, p), h, tokens) == RedactEach(p, Input(tokens)))
       <==> h >= p.length - 1
  {
    var r := EachRedactor(scan, p);
    if h >= p.length - 1 {
      PatternIsSound(scan, p);
      PatternIsLeftToRight(scan, p);
      forall tokens ensures Output(r, h, tokens) == RedactEach(p, Input(tokens)) {
        StreamIsOneShot(r, p.length, h, tokens);
      }
    } else {
      SmallHoldbackLeaks(scan, p, h, id);
      InputOneByOne(id);
      OutputIsClean(scan, p, id);
      assert Output(r, h, OneByOne(id)) != RedactEach(p, Input(OneByOne(id)));
    }
  }
}
