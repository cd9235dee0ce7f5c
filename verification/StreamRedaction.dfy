/**
 Streaming redaction (redaction.py).

 Provider output arrives in chunks.  A suffix of at most `holdback` characters is kept
 back so that an identifier cut in two by a chunk boundary is still seen whole by the
 full-text redactor, which is a parameter here (`Redactor`) with a contract (`Sound`).
 */
module StreamRedaction {
  import opened Options

  // ---------------------------------------------------------------- the scan predicate

  const HINTS: seq<string> := [
    "@", "sk-", "akia", "asia", "aroa", "anpa", "aiza", "bearer", "eyj",
    "api_key", "api-key", "secret=", "secret:", "token=", "token:",
    "access_token", "refresh_token", "password=", "password:", "client_secret",
    "ssn", "social security", "passport", "medical record", "patient",
    "diagnosis", "health history", "routing number", "credit card", "pin ",
    "ignore previous", "reveal system prompt", "developer mode", "jailbreak",
    "system prompt", "hidden_metadata"
  ]

  /** The hints, and how the language lower-cases a character and tells a digit. */
  datatype Scan = Scan(hints: seq<string>, lower: char -> string, isDigit: char -> bool)

  function LowerAll(scan: Scan, s: string): string {
    if s == "" then "" else LowerAll(scan, s[..|s| - 1]) + scan.lower(s[|s| - 1])
  }

  predicate OccursAt(text: string, part: string, i: int) {
    0 <= i <= |text| - |part| && text[i..i + |part|] == part
  }

  predicate Contains(text: string, part: string) {
    exists i :: 0 <= i <= |text| - |part| && OccursAt(text, part, i)
  }

  function DigitCount(scan: Scan, s: string): nat {
    if s == "" then 0 else DigitCount(scan, s[..|s| - 1]) + (if scan.isDigit(s[|s| - 1]) then 1 else 0)
  }

  predicate HasHint(scan: Scan, s: string) {
    exists k :: 0 <= k < |scan.hints| && Contains(LowerAll(scan, s), scan.hints[k])
  }

  predicate NeedsScan(scan: Scan, s: string) { HasHint(scan, s) || DigitCount(scan, s) >= 4 }

  /** From position i on, the text spells the hint, in lower case or not. */
  predicate Spells(scan: Scan, text: string, hint: string, i: nat) {
    i + |hint| <= |text| && forall k :: 0 <= k < |hint| ==> scan.lower(text[i + k]) == [hint[k]]
  }

  ghost predicate SpellsHint(scan: Scan, text: string) {
    exists k, i: nat :: 0 <= k < |scan.hints| && Spells(scan, text, scan.hints[k], i)
  }

  /** Ascending places that hold digits. */
  predicate DigitsAt(scan: Scan, text: string, places: seq<nat>) {
    && (forall i, j :: 0 <= i < j < |places| ==> places[i] < places[j])
    && forall i :: 0 <= i < |places| ==> places[i] < |text| && scan.isDigit(text[places[i]])
  }

  ghost predicate HasFourDigits(scan: Scan, text: string) {
    exists places :: |places| == 4 && DigitsAt(scan, text, places)
  }

  /** Every character of the text has a single lower-case character. */
  predicate LowersOneToOne(scan: Scan, text: string) { forall i :: 0 <= i < |text| ==> |scan.lower(text[i])| == 1 }

  /** The scan as the program runs it: one pass over the hints, one over the characters. */
  method StreamNeedsRedactionScan(scan: Scan, value: string) returns (needed: bool)
    ensures needed <==> NeedsScan(scan, value)
  {
    var lowered := LowerAll(scan, value);
    for k := 0 to |scan.hints|
      invariant forall j :: 0 <= j < k ==> !Contains(lowered, scan.hints[j])
    {
      if Contains(lowered, scan.hints[k]) { return true; }
    }
    var digits := 0;
    for i := 0 to |value|
      invariant digits == DigitCount(scan, value[..i]) < 4
    {
      assert value[..i + 1][..i] == value[..i];
      if scan.isDigit(value[i]) {
        digits := digits + 1;
        if digits >= 4 {
          DigitCountOfSum(scan, value[..i + 1], value[i + 1..]);
          assert value[..i + 1] + value[i + 1..] == value;
          return true;
        }
      }
    }
    assert value[..|value|] == value;
    return false;
  }

  lemma {:induction false} DigitCountOfSum(scan: Scan, a: string, b: string)
    ensures DigitCount(scan, a + b) == DigitCount(scan, a) + DigitCount(scan, b)
    decreases |b|
  {
    if b == "" {
      assert a + b == a;
    } else {
      var n := |b| - 1;
      assert (a + b)[..|a + b| - 1] == a + b[..n];
      DigitCountOfSum(scan, a, b[..n]);
    }
  }

  lemma {:induction false} LowerAllOfSum(scan: Scan, a: string, b: string)
    ensures LowerAll(scan, a + b) == LowerAll(scan, a) + LowerAll(scan, b)
    decreases |b|
  {
    if b == "" {
      assert a + b == a;
    } else {
      var n := |b| - 1;
      assert (a + b)[..|a + b| - 1] == a + b[..n];
      LowerAllOfSum(scan, a, b[..n]);
    }
  }

  lemma {:induction false} ContainedInTheMiddle(a: string, b: string, c: string, part: string)
    requires Contains(b, part)
    ensures Contains(a + b + c, part)
  {
    var m :| 0 <= m <= |b| - |part| && OccursAt(b, part, m);
    assert (a + b + c)[|a| + m..|a| + m + |part|] == b[m..m + |part|];
    assert OccursAt(a + b + c, part, |a| + m);
  }

  lemma {:induction false} NeedsScanOfMiddle(scan: Scan, a: string, b: string, c: string)
    requires NeedsScan(scan, b)
    ensures NeedsScan(scan, a + b + c)
  {
    DigitCountOfSum(scan, a, b);
    DigitCountOfSum(scan, a + b, c);
    LowerAllOfSum(scan, a, b);
    LowerAllOfSum(scan, a + b, c);
    if HasHint(scan, b) {
      var k :| 0 <= k < |scan.hints| && Contains(LowerAll(scan, b), scan.hints[k]);
      ContainedInTheMiddle(LowerAll(scan, a), LowerAll(scan, b), LowerAll(scan, c), scan.hints[k]);
    }
  }

  lemma {:induction false} LowerAllSpelled(scan: Scan, part: string, hint: string)
    requires |part| == |hint| && forall k :: 0 <= k < |hint| ==> scan.lower(part[k]) == [hint[k]]
    ensures LowerAll(scan, part) == hint
  {
    if part != "" {
      var n := |part| - 1;
      LowerAllSpelled(scan, part[..n], hint[..n]);
      assert hint == hint[..n] + [hint[n]];
    }
  }

  lemma {:induction false} SpelledIsContained(scan: Scan, text: string, hint: string, i: nat)
    requires Spells(scan, text, hint, i)
    ensures Contains(LowerAll(scan, text), hint)
  {
    var a, b, c := text[..i], text[i..i + |hint|], text[i + |hint|..];
    assert text == a + b + c;
    LowerAllSpelled(scan, b, hint);
    assert OccursAt(hint, hint, 0);
    LowerAllOfSum(scan, a, b);
    LowerAllOfSum(scan, a + b, c);
    ContainedInTheMiddle(LowerAll(scan, a), hint, LowerAll(scan, c), hint);
  }

  lemma {:induction false} LowerAllAt(scan: Scan, text: string, j: nat)
    requires LowersOneToOne(scan, text)
    ensures |LowerAll(scan, text)| == |text|
    ensures j < |text| ==> scan.lower(text[j]) == [LowerAll(scan, text)[j]]
  {
    if text != "" {
      var n := |text| - 1;
      LowerAllAt(scan, text[..n], j);
      assert |scan.lower(text[n])| == 1;
    }
  }

  lemma {:induction false} ContainedIsSpelled(scan: Scan, text: string, hint: string) returns (i: nat)
    requires LowersOneToOne(scan, text) && Contains(LowerAll(scan, text), hint)
    ensures Spells(scan, text, hint, i)
  {
    var lowered := LowerAll(scan, text);
    i :| 0 <= i <= |lowered| - |hint| && OccursAt(lowered, hint, i);
    LowerAllAt(scan, text, 0);
    forall k | 0 <= k < |hint| ensures scan.lower(text[i + k]) == [hint[k]] {
      LowerAllAt(scan, text, i + k);
      assert hint[k] == lowered[i..i + |hint|][k];
    }
  }

  lemma {:induction false} DigitsAreCounted(scan: Scan, text: string, places: seq<nat>)
    requires DigitsAt(scan, text, places)
    ensures |places| <= DigitCount(scan, text)
  {
    if places != [] {
      var n, last := |text| - 1, |places| - 1;
      assert places[last] < |text| && scan.isDigit(text[places[last]]);
      if places[last] == n {
        DigitsAreCounted(scan, text[..n], places[..last]);
      } else {
        DigitsAreCounted(scan, text[..n], places);
      }
    }
  }

  lemma {:induction false} PlacesOfDigits(scan: Scan, text: string) returns (places: seq<nat>)
    ensures DigitsAt(scan, text, places) && |places| == DigitCount(scan, text)
  {
    places := [];
    if text != "" {
      var n := |text| - 1;
      places := PlacesOfDigits(scan, text[..n]);
      if scan.isDigit(text[n]) { places := places + [n]; }
    }
  }

  lemma {:induction false} NeedsScanIfSpelled(scan: Scan, text: string)
    ensures SpellsHint(scan, text) || HasFourDigits(scan, text) ==> NeedsScan(scan, text)
  {
    if SpellsHint(scan, text) {
      var k, i: nat :| 0 <= k < |scan.hints| && Spells(scan, text, scan.hints[k], i);
      SpelledIsContained(scan, text, scan.hints[k], i);
    }
    if HasFourDigits(scan, text) {
      var places :| |places| == 4 && DigitsAt(scan, text, places);
      DigitsAreCounted(scan, text, places);
    }
  }

  lemma {:induction false} NeedsScanOnlyIfSpelled(scan: Scan, text: string)
    requires LowersOneToOne(scan, text)
    ensures NeedsScan(scan, text) ==> SpellsHint(scan, text) || HasFourDigits(scan, text)
  {
    if HasHint(scan, text) {
      var k :| 0 <= k < |scan.hints| && Contains(LowerAll(scan, text), scan.hints[k]);
      var i := ContainedIsSpelled(scan, text, scan.hints[k]);
    } else if DigitCount(scan, text) >= 4 {
      var places := PlacesOfDigits(scan, text);
      assert DigitsAt(scan, text, places[..4]);
    }
  }

  /** A text is scanned whenever any part of it would be: the scan can never miss a part that triggers it. */
  lemma {:induction false} NeedsScanOfPart(scan: Scan, s: string, i: nat, j: nat)
    requires i <= j <= |s|
    requires NeedsScan(scan, s[i..j])
    ensures NeedsScan(scan, s)
  {
    NeedsScanOfMiddle(scan, s[..i], s[i..j], s[j..]);
    assert s[..i] + s[i..j] + s[j..] == s;
  }

  // ---------------------------------------------------------------- the redactor and its contract

  /** The full-text redactor, the strings it exists to remove, and the scan that guards it. */
  datatype Redactor = Redactor(scan: Scan, redact: string -> string, sensitive: string -> bool)

  /** First character of every replacement ("[REDACTED]"). */
  const MARK: char := '['

  /** No sensitive string occurs anywhere in `text`. */
  ghost predicate Clean(r: Redactor, text: string) {
    forall i, j :: 0 <= i <= j <= |text| ==> !r.sensitive(text[i..j])
  }

  /** No sensitive string occurs in `text` starting before position `n`. */
  ghost predicate CleanBefore(r: Redactor, text: string, n: nat) {
    forall i, j :: 0 <= i < n && i <= j <= |text| ==> !r.sensitive(text[i..j])
  }

  /**
   What the redactor promises: its output is clean, and up to the first replacement it copies its
   input.  Sensitive strings are non-empty, at most `longest` long, free of the replacement
   marker, and trigger the scan.
   */
  ghost predicate Sound(r: Redactor, longest: nat) {
    && (forall s :: r.sensitive(s) ==> 0 < |s| <= longest && MARK !in s && NeedsScan(r.scan, s))
    && (forall x :: Clean(r, r.redact(x)))
    && (forall x, n :: 0 <= n <= |r.redact(x)| && MARK !in r.redact(x)[..n] ==> r.redact(x)[..n] <= x)
  }

  // ---------------------------------------------------------------- the stream

  /** One item of the provider's stream; the program skips None. */
  datatype Token = Absent | Chunk(text: string)

  datatype Stream = Stream(emitted: seq<string>, pending: string) {
    function Sent(): string { Concat(emitted) }
    function Text(): string { Sent() + pending }
  }

  function Concat(pieces: seq<string>): string {
    if pieces == [] then "" else Concat(pieces[..|pieces| - 1]) + pieces[|pieces| - 1]
  }

  function TextOf(token: Token): string { if token.Chunk? then token.text else "" }

  function Input(tokens: seq<Token>): string {
    if tokens == [] then "" else Input(tokens[..|tokens| - 1]) + TextOf(tokens[|tokens| - 1])
  }

  /** `holdback_chars or _stream_holdback_size()`: `configured` is the environment value, None if not a number. */
  function EffectiveHoldback(requested: Option<int>, configured: Option<int>): (h: int)
    ensures h != 0
    ensures requested.Some? && requested.value != 0 ==> h == requested.value
    ensures requested.None? || requested.value == 0 ==>
      64 <= h <= 4096 && (configured.None? ==> h == 256)
      && (configured.Some? ==> h == configured.value || (h == 64 > configured.value) || (h == 4096 < configured.value))
  {
    if requested.Some? && requested.value != 0 then requested.value
    else if configured.None? then 256
    else if configured.value > 4096 then 4096
    else if configured.value < 64 then 64
    else configured.value
  }

  /** Yield the first `k` characters and keep the rest; slicing past the end takes everything. */
  function Emit(emitted: seq<string>, text: string, k: int): Stream
    requires k > 0
  {
    var cut := if k < |text| then k else |text|;
    Stream(if cut > 0 then emitted + [text[..cut]] else emitted, text[cut..])
  }

  function Step(r: Redactor, h: int, st: Stream, token: Token): Stream {
    if token.Absent? then st
    else Advance(r, h, st, st.pending + token.text, NeedsScan(r.scan, st.pending + token.text))
  }

  /** What one chunk does once the pending text has become `p` and the scan has answered. */
  function Advance(r: Redactor, h: int, st: Stream, p: string, scan: bool): Stream {
    if |p| <= h then st.(pending := p)
    else if !scan then Emit(st.emitted, p, |p| - h)
    else
      var q := r.redact(p);
      if |q| - h > 0 then Emit(st.emitted, q, |q| - h) else st.(pending := p)
  }

  function Run(r: Redactor, h: int, tokens: seq<Token>): Stream {
    if tokens == [] then Stream([], "")
    else Step(r, h, Run(r, h, tokens[..|tokens| - 1]), tokens[|tokens| - 1])
  }

  /** The end of the stream: whatever is still pending is redacted and yielded. */
  function Flush(r: Redactor, st: Stream): seq<string> {
    if st.pending == "" || r.redact(st.pending) == "" then st.emitted
    else st.emitted + [r.redact(st.pending)]
  }

  function Output(r: Redactor, h: int, tokens: seq<Token>): string {
    Concat(Flush(r, Run(r, h, tokens)))
  }

  lemma {:induction false} RunOneMore(r: Redactor, h: int, tokens: seq<Token>, n: nat)
    requires n < |tokens|
    ensures Run(r, h, tokens[..n + 1]) == Step(r, h, Run(r, h, tokens[..n]), tokens[n])
  {
    assert tokens[..n + 1][..n] == tokens[..n];
  }

  /** `yielded = text[:k]`, unless it is empty, and `pending = text[k:]`. */
  method YieldFront(out: seq<string>, text: string, k: int) returns (more: seq<string>, pending: string)
    requires k > 0
    ensures Stream(more, pending) == Emit(out, text, k)
    ensures "" !in out ==> "" !in more
  {
    var cut := if k < |text| then k else |text|;
    var yielded := text[..cut];
    pending := text[cut..];
    more := if yielded != "" then out + [yielded] else out;
  }

  /** The generator, collecting what it yields. */
  method StreamRedactSensitiveTokens(r: Redactor, holdback: int, tokens: seq<Token>) returns (out: seq<string>)
    ensures Concat(out) == Output(r, holdback, tokens)
    ensures "" !in out
  {
    var pending := "";
    out := [];
    for n := 0 to |tokens|
      invariant Stream(out, pending) == Run(r, holdback, tokens[..n])
      invariant "" !in out
    {
      RunOneMore(r, holdback, tokens, n);
      if tokens[n].Absent? { continue; }
      pending := pending + tokens[n].text;
      if |pending| <= holdback { continue; }
      var scan := StreamNeedsRedactionScan(r.scan, pending);
      if !scan {
        out, pending := YieldFront(out, pending, |pending| - holdback);
        continue;
      }
      var redacted := r.redact(pending);
      var sliceIdx := |redacted| - holdback;
      if sliceIdx > 0 {
        out, pending := YieldFront(out, redacted, sliceIdx);
      }
    }
    assert tokens[..|tokens|] == tokens;
    if pending != "" {
      var tail := r.redact(pending);
      if tail != "" { out := out + [tail]; }
    }
  }

  // ---------------------------------------------------------------- safety for every chunking

  lemma {:induction false} ConcatOne(pieces: seq<string>, last: string)
    ensures Concat(pieces + [last]) == Concat(pieces) + last
  {
    assert (pieces + [last])[..|pieces|] == pieces;
  }

  lemma {:induction false} EmitSplits(emitted: seq<string>, text: string, k: int)
    requires k > 0
    ensures Emit(emitted, text, k).Text() == Concat(emitted) + text
  {
    var cut := if k < |text| then k else |text|;
    ConcatOne(emitted, text[..cut]);
    assert Concat(emitted) + text[..cut] + text[cut..] == Concat(emitted) + text;
  }

  /** Nothing sensitive starts in what was sent, and what is held back covers a whole identifier. */
  ghost predicate Guarded(r: Redactor, h: int, st: Stream) {
    && CleanBefore(r, st.Text(), |st.Sent()|)
    && (st.Sent() != "" ==> |st.pending| >= h)
  }

  /** Appending a chunk cannot complete an identifier that starts in the text already sent. */
  lemma {:induction false} AppendKeepsGuard(r: Redactor, longest: nat, sent: string, pending: string, more: string)
    requires Sound(r, longest)
    requires CleanBefore(r, sent + pending, |sent|)
    requires sent != "" ==> |pending| >= longest - 1
    ensures CleanBefore(r, sent + (pending + more), |sent|)
  {
    var whole := sent + (pending + more);
    forall i, j | 0 <= i < |sent| && i <= j <= |whole|
      ensures !r.sensitive(whole[i..j])
    {
      if j - i <= longest {
        assert whole[i..j] == (sent + pending)[i..j];
      }
    }
  }

  lemma {:induction false} SameSlice(front: string, a: string, b: string, i: nat, j: nat)
    requires i <= |front| <= j <= |front| + |a| && a[..j - |front|] <= b
    ensures (front + a)[i..j] == (front + b)[i..j]
  {
    var n := j - |front|;
    assert (front + a)[i..j] == front[i..] + a[..n];
    assert (front + b)[i..j] == front[i..] + b[..n];
    assert a[..n] == b[..n];
  }

  /** Redacting the pending text leaves no identifier anywhere, not even across the boundary. */
  lemma {:induction false} RedactingCleans(r: Redactor, longest: nat, sent: string, pending: string)
    requires Sound(r, longest)
    requires CleanBefore(r, sent + pending, |sent|)
    ensures Clean(r, sent + r.redact(pending))
  {
    var q := r.redact(pending);
    var whole := sent + q;
    assert Clean(r, q);
    forall i, j | 0 <= i <= j <= |whole|
      ensures !r.sensitive(whole[i..j])
    {
      if i >= |sent| {
        assert whole[i..j] == q[i - |sent|..j - |sent|];
      } else if j <= |sent| {
        assert whole[i..j] == (sent + pending)[i..j];
      } else if MARK !in whole[i..j] {
        var n := j - |sent|;
        assert forall m :: 0 <= m < n ==> q[m] == whole[i..j][|sent| - i + m];
        assert MARK !in q[..n];
        assert q[..n] <= pending;
        SameSlice(sent, q, pending, i, j);
      }
    }
  }

  /** Text that does not trigger the scan holds no identifier. */
  lemma {:induction false} UnscannedTextIsClean(r: Redactor, longest: nat, p: string)
    requires Sound(r, longest) && !NeedsScan(r.scan, p)
    ensures Clean(r, p)
  {
    forall i, j | 0 <= i <= j <= |p| ensures !r.sensitive(p[i..j]) {
      if NeedsScan(r.scan, p[i..j]) {
        NeedsScanOfPart(r.scan, p, i, j);
        assert false;
      }
    }
  }

  lemma {:induction false} UnscannedIsClean(r: Redactor, longest: nat, sent: string, p: string)
    requires Sound(r, longest)
    requires CleanBefore(r, sent + p, |sent|)
    requires !NeedsScan(r.scan, p)
    ensures Clean(r, sent + p)
  {
    UnscannedTextIsClean(r, longest, p);
    CleanBehind(r, sent, p);
  }

  lemma {:induction false} CleanBehind(r: Redactor, sent: string, p: string)
    requires CleanBefore(r, sent + p, |sent|) && Clean(r, p)
    ensures Clean(r, sent + p)
  {
    forall i, j | |sent| <= i <= j <= |sent + p| ensures !r.sensitive((sent + p)[i..j]) {
      assert (sent + p)[i..j] == p[i - |sent|..j - |sent|];
    }
  }

  lemma {:induction false} EmitKeepsGuard(r: Redactor, h: nat, emitted: seq<string>, text: string)
    requires Clean(r, Concat(emitted) + text) && |text| > h
    ensures Guarded(r, h, Emit(emitted, text, |text| - h))
  {
    EmitSplits(emitted, text, |text| - h);
  }

  lemma {:induction false} AdvanceKeepsGuard(r: Redactor, h: nat, st: Stream, p: string, scan: bool)
    requires CleanBefore(r, st.Sent() + p, |st.Sent()|)
    requires !scan ==> Clean(r, st.Sent() + p)
    requires Clean(r, st.Sent() + r.redact(p))
    requires Guarded(r, h, st) && |p| >= |st.pending|
    ensures Guarded(r, h, Advance(r, h, st, p, scan))
  {
    if |p| > h && !scan {
      EmitKeepsGuard(r, h, st.emitted, p);
    } else if |p| > h && |r.redact(p)| > h {
      EmitKeepsGuard(r, h, st.emitted, r.redact(p));
    }
  }

  lemma {:induction false} StepKeepsGuard(r: Redactor, longest: nat, h: int, st: Stream, token: Token)
    requires Sound(r, longest) && h >= longest - 1 && h >= 0
    requires Guarded(r, h, st)
    ensures Guarded(r, h, Step(r, h, st, token))
  {
    if token.Chunk? {
      var sent, p := st.Sent(), st.pending + token.text;
      AppendKeepsGuard(r, longest, sent, st.pending, token.text);
      RedactingCleans(r, longest, sent, p);
      var scan := NeedsScan(r.scan, p);
      if !scan { UnscannedIsClean(r, longest, sent, p); }
      AdvanceKeepsGuard(r, h, st, p, scan);
    }
  }

  lemma {:induction false} RunIsGuarded(r: Redactor, longest: nat, h: int, tokens: seq<Token>)
    requires Sound(r, longest) && h >= longest - 1 && h >= 0
    ensures Guarded(r, h, Run(r, h, tokens))
  {
    if tokens != [] {
      RunIsGuarded(r, longest, h, tokens[..|tokens| - 1]);
      StepKeepsGuard(r, longest, h, Run(r, h, tokens[..|tokens| - 1]), tokens[|tokens| - 1]);
    }
  }

  /**
   Main result.  However the text is cut into chunks, the concatenation of everything yielded holds
   no sensitive string, also across the pieces; a holdback one short of the longest identifier is enough.
   */
  lemma {:induction false} StreamOutputIsClean(r: Redactor, longest: nat, h: int, tokens: seq<Token>)
    requires Sound(r, longest) && h >= longest - 1 && h >= 0
    ensures Clean(r, Output(r, h, tokens))
  {
    var st := Run(r, h, tokens);
    RunIsGuarded(r, longest, h, tokens);
    RedactingCleans(r, longest, st.Sent(), st.pending);
    var whole := st.Sent() + r.redact(st.pending);
    ConcatOne(st.emitted, r.redact(st.pending));
    if Output(r, h, tokens) != whole {
      assert Output(r, h, tokens) == st.Sent() == st.Text();
    }
  }

  // ---------------------------------------------------------------- streaming is one-shot redaction

  /** Redacting a text and then, with more text behind it, the result, is redacting all of it. */
  ghost predicate Rescans(r: Redactor, p: string, rest: string) {
    r.redact(p + rest) == r.redact(r.redact(p) + rest)
  }

  /** Text can be cut at k before redacting. */
  ghost predicate SplitsAt(r: Redactor, x: string, k: nat, rest: string)
    requires k <= |x|
  {
    r.redact(x + rest) == x[..k] + r.redact(x[k..] + rest)
  }

  /** A redactor that works from left to right: what it has done stays done, and clean text can be cut off. */
  ghost predicate LeftToRight(r: Redactor, longest: nat) {
    && r.redact("") == ""
    && (forall p, rest :: Rescans(r, p, rest))
    && (forall x, k: nat, rest :: k <= |x| && |x| - k >= longest - 1 && Clean(r, x) ==> SplitsAt(r, x, k, rest))
  }

  lemma {:induction false} EmitRefines(r: Redactor, longest: nat, h: nat, emitted: seq<string>, x: string, rest: string)
    requires LeftToRight(r, longest) && h >= longest - 1 && |x| > h && Clean(r, x)
    ensures var next := Emit(emitted, x, |x| - h);
            next.Sent() + r.redact(next.pending + rest) == Concat(emitted) + r.redact(x + rest)
  {
    var k := |x| - h;
    assert SplitsAt(r, x, k, rest);
    ConcatOne(emitted, x[..k]);
    assert Concat(emitted) + x[..k] + r.redact(x[k..] + rest) == Concat(emitted) + (x[..k] + r.redact(x[k..] + rest));
  }

  /** Redacting what is pending, with any text still to come, completes what was sent. */
  lemma {:induction false} AdvanceRefines(
    r: Redactor, longest: nat, h: nat, st: Stream, p: string, scan: bool, rest: string)
    requires Sound(r, longest) && LeftToRight(r, longest) && h >= longest - 1
    requires !scan ==> Clean(r, p)
    ensures var next := Advance(r, h, st, p, scan);
            next.Sent() + r.redact(next.pending + rest) == st.Sent() + r.redact(p + rest)
  {
    if |p| > h && !scan {
      assert Advance(r, h, st, p, scan) == Emit(st.emitted, p, |p| - h);
      EmitRefines(r, longest, h, st.emitted, p, rest);
    } else if |p| > h && |r.redact(p)| > h {
      assert Rescans(r, p, rest);
      assert Advance(r, h, st, p, scan) == Emit(st.emitted, r.redact(p), |r.redact(p)| - h);
      EmitRefines(r, longest, h, st.emitted, r.redact(p), rest);
    }
  }

  lemma {:induction false} StepRefines(r: Redactor, longest: nat, h: nat, st: Stream, token: Token, rest: string)
    requires Sound(r, longest) && LeftToRight(r, longest) && h >= longest - 1
    ensures var next := Step(r, h, st, token);
            next.Sent() + r.redact(next.pending + rest) == st.Sent() + r.redact(st.pending + (TextOf(token) + rest))
  {
    var p := st.pending + TextOf(token);
    assert st.pending + (TextOf(token) + rest) == p + rest;
    if token.Chunk? {
      if !NeedsScan(r.scan, p) { UnscannedTextIsClean(r, longest, p); }
      AdvanceRefines(r, longest, h, st, p, NeedsScan(r.scan, p), rest);
    } else {
      assert p == st.pending;
    }
  }

  lemma {:induction false} InputOneMore(tokens: seq<Token>, n: nat, rest: string)
    requires |tokens| == n + 1
    ensures Input(tokens[..n]) + (TextOf(tokens[n]) + rest) == Input(tokens) + rest
  {
  }

  lemma {:induction false} RunRefines(r: Redactor, longest: nat, h: nat, tokens: seq<Token>, rest: string)
    requires Sound(r, longest) && LeftToRight(r, longest) && h >= longest - 1
    ensures var st := Run(r, h, tokens);
            st.Sent() + r.redact(st.pending + rest) == r.redact(Input(tokens) + rest)
    decreases |tokens|
  {
    if tokens == [] {
      assert "" + r.redact("" + rest) == r.redact("" + rest);
    } else {
      var n := |tokens| - 1;
      RunRefines(r, longest, h, tokens[..n], TextOf(tokens[n]) + rest);
      StepRefines(r, longest, h, Run(r, h, tokens[..n]), tokens[n], rest);
      InputOneMore(tokens, n, rest);
    }
  }

  /**
   The full-text redactor stays the source of truth: for every chunking the output of the stream is the
   redaction of the whole input, under a holdback one short of the longest identifier.
   */
  lemma {:induction false} StreamIsOneShot(r: Redactor, longest: nat, h: nat, tokens: seq<Token>)
    requires Sound(r, longest) && LeftToRight(r, longest) && h >= longest - 1
    ensures Output(r, h, tokens) == r.redact(Input(tokens))
  {
    var st := Run(r, h, tokens);
    RunRefines(r, longest, h, tokens, "");
    assert st.pending + "" == st.pending && Input(tokens) + "" == Input(tokens);
    FlushCompletes(r, st);
  }

  lemma {:induction false} FlushCompletes(r: Redactor, st: Stream)
    requires r.redact("") == ""
    ensures Concat(Flush(r, st)) == st.Sent() + r.redact(st.pending)
  {
    ConcatOne(st.emitted, r.redact(st.pending));
  }

  // ---------------------------------------------------------------- transparency and the size of the buffer

  /** The redactor leaves every part of the text alone. */
  ghost predicate Fixes(r: Redactor, text: string) {
    forall i, j :: 0 <= i <= j <= |text| ==> r.redact(text[i..j]) == text[i..j]
  }

  lemma {:induction false} FixesPart(r: Redactor, a: string, b: string)
    requires Fixes(r, a + b)
    ensures Fixes(r, a) && Fixes(r, b)
  {
    forall i, j | 0 <= i <= j <= |a| ensures r.redact(a[i..j]) == a[i..j] {
      assert (a + b)[i..j] == a[i..j];
    }
    forall i, j | 0 <= i <= j <= |b| ensures r.redact(b[i..j]) == b[i..j] {
      assert (a + b)[|a| + i..|a| + j] == b[i..j];
    }
  }

  lemma {:induction false} FixesWhole(r: Redactor, text: string)
    requires Fixes(r, text)
    ensures r.redact(text) == text
  {
    assert text[0..|text|] == text;
  }

  /** A step that finds nothing to redact only moves text from pending to sent. */
  lemma {:induction false} AdvanceOnFixedText(r: Redactor, h: int, st: Stream, p: string, scan: bool)
    requires r.redact(p) == p
    ensures Advance(r, h, st, p, scan).Text() == st.Sent() + p
  {
    if |p| > h {
      assert Advance(r, h, st, p, scan) == Emit(st.emitted, p, |p| - h);
      EmitSplits(st.emitted, p, |p| - h);
    }
  }

  lemma {:induction false} StepOnFixedText(r: Redactor, h: int, st: Stream, token: Token)
    requires r.redact(st.pending + TextOf(token)) == st.pending + TextOf(token)
    ensures Step(r, h, st, token).Text() == st.Text() + TextOf(token)
  {
    var p := st.pending + TextOf(token);
    assert st.Sent() + p == st.Text() + TextOf(token);
    if token.Chunk? {
      AdvanceOnFixedText(r, h, st, p, NeedsScan(r.scan, p));
    }
  }

  lemma {:induction false} RunOnFixedText(r: Redactor, h: int, tokens: seq<Token>)
    requires Fixes(r, Input(tokens))
    ensures Run(r, h, tokens).Text() == Input(tokens)
  {
    if tokens != [] {
      var before, more := tokens[..|tokens| - 1], TextOf(tokens[|tokens| - 1]);
      FixesPart(r, Input(before), more);
      RunOnFixedText(r, h, before);
      var st := Run(r, h, before);
      assert Input(tokens) == st.Sent() + (st.pending + more);
      FixesPart(r, st.Sent(), st.pending + more);
      FixesWhole(r, st.pending + more);
      StepOnFixedText(r, h, st, tokens[|tokens| - 1]);
    }
  }

  /** On text the redactor leaves alone, streaming loses, repeats and reorders nothing, for any holdback at all. */
  lemma {:induction false} StreamIsTransparent(r: Redactor, h: int, tokens: seq<Token>)
    requires Fixes(r, Input(tokens))
    ensures Output(r, h, tokens) == Input(tokens)
  {
    RunOnFixedText(r, h, tokens);
    var st := Run(r, h, tokens);
    FixesPart(r, st.Sent(), st.pending);
    FixesWhole(r, st.pending);
    ConcatOne(st.emitted, st.pending);
  }

  /** After every chunk the pending text fits the holdback, or its redaction does. */
  lemma {:induction false} PendingOrItsRedactionFits(r: Redactor, h: int, tokens: seq<Token>)
    requires h >= 0
    ensures |Run(r, h, tokens).pending| <= h
            || (NeedsScan(r.scan, Run(r, h, tokens).pending) && |r.redact(Run(r, h, tokens).pending)| <= h)
  {
    if tokens != [] {
      PendingOrItsRedactionFits(r, h, tokens[..|tokens| - 1]);
    }
  }
}
