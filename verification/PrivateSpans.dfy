/** What the private spans of a text are, said without the functions that find them, and what redaction
    does to them (the pattern and redact_private_text in harness_mem/capture_policy.py). */
module PrivateSpans {
  import opened Wrappers
  import opened PrivateText

  // ---------------------------------------------------------------- what a span is

  /** The word `private` in any of its forms, from position `p` on. */
  predicate SpellsPrivate(a: Alphabet, s: string, p: nat)
    requires p + 7 <= |s|
  {
    && a.same(s[p], 'p') && a.same(s[p + 1], 'r') && a.same(s[p + 2], 'i') && a.same(s[p + 3], 'v')
    && a.same(s[p + 4], 'a') && a.same(s[p + 5], 't') && a.same(s[p + 6], 'e')
  }

  /** A closing tag stands from `c` up to `n`: `</private`, white space, and a `>`. */
  predicate ClosesAt(a: Alphabet, s: string, c: nat, n: nat) {
    && c + 10 <= n <= |s|
    && s[c] == '<' && s[c + 1] == '/' && SpellsPrivate(a, s, c + 2)
    && s[n - 1] == '>' && forall k :: c + 9 <= k < n - 1 ==> a.isSpace(s[k]) && s[k] != '>'
  }

  /** No closing tag begins between the two positions. */
  ghost predicate NoneCloses(a: Alphabet, s: string, from: nat, to: nat) {
    forall d, m :: from <= d < to ==> !ClosesAt(a, s, d, m)
  }

  /** The text begins with an opening tag, whose `>` is the first one, at `b`; the closing tag that ends at
      `n` begins at `c`, and none begins between them. */
  ghost predicate IsSpanBy(a: Alphabet, s: string, n: nat, b: nat, c: nat) {
    && 8 <= b < c && ClosesAt(a, s, c, n) && NoneCloses(a, s, b + 1, c)
    && s[0] == '<' && SpellsPrivate(a, s, 1) && !a.isWord(s[8])
    && s[b] == '>' && forall k :: 8 <= k < b ==> s[k] != '>'
  }

  ghost predicate IsSpan(a: Alphabet, s: string, n: nat) {
    exists b: nat, c: nat :: IsSpanBy(a, s, n, b, c)
  }

  // ---------------------------------------------------------------- the parts of the pattern

  /** The rest of the word from its letter `i` on. */
  lemma {:induction false} WordExactly(a: Alphabet, s: string, i: nat)
    requires i <= 7
    ensures Begins(a, s, "private"[i..]) <==> |s| >= 7 - i && forall k :: 0 <= k < 7 - i ==> a.same(s[k], "private"[i + k])
    ensures BeginsWord(a, s, "private"[i..]) <==> |s| >= 8 - i && Begins(a, s, "private"[i..]) && !a.isWord(s[7 - i])
    decreases 7 - i
  {
    if i < 7 && s != "" {
      WordExactly(a, s[1..], i + 1);
      assert "private"[i..][1..] == "private"[i + 1..];
      assert forall k :: 0 < k < 7 - i && k < |s| ==> s[k] == s[1..][k - 1] && "private"[i + k] == "private"[i + 1 + (k - 1)];
    }
  }

  lemma OpensExactly(a: Alphabet, s: string)
    ensures Opens(a, s) <==> |s| >= 9 && s[0] == '<' && SpellsPrivate(a, s, 1) && !a.isWord(s[8])
  {
    if s != "" {
      WordExactly(a, s[1..], 0);
      assert "private"[0..] == "private";
    }
  }

  lemma {:induction false} TagEndExactly(a: Alphabet, s: string, n: nat)
    ensures TagEnd(a, s) == Some(n) <==>
              1 <= n <= |s| && s[n - 1] == '>' && forall k :: 0 <= k < n - 1 ==> a.isSpace(s[k]) && s[k] != '>'
  {
    if s != "" && s[0] != '>' && a.isSpace(s[0]) && n > 0 {
      TagEndExactly(a, s[1..], n - 1);
      assert forall k :: 0 < k < |s| ==> s[k] == s[1..][k - 1];
    }
  }

  lemma ClosingTagExactly(a: Alphabet, s: string, c: nat, n: nat)
    requires c <= n <= |s|
    ensures ClosingTag(a, s[c..]) == Some(n - c) <==> ClosesAt(a, s, c, n)
  {
    var t := s[c..];
    if |t| >= 9 {
      WordExactly(a, t[2..], 0);
      assert "private"[0..] == "private";
      assert t[9..] == s[c + 9..];
      if c + 9 <= n {
        TagEndExactly(a, t[9..], n - c - 9);
      }
    }
  }

  lemma NoneClosesHere(a: Alphabet, s: string, c: nat)
    requires c <= |s|
    ensures ClosingTag(a, s[c..]) == None <==> forall n :: !ClosesAt(a, s, c, n)
  {
    if ClosingTag(a, s[c..]).Some? {
      ClosingTagExactly(a, s, c, c + ClosingTag(a, s[c..]).value);
    }
    forall n | ClosesAt(a, s, c, n) ensures ClosingTag(a, s[c..]).Some? {
      ClosingTagExactly(a, s, c, n);
    }
  }

  /** The earliest closing tag at or behind `p` begins at `c` and ends at `n`. */
  ghost predicate ClosesFirst(a: Alphabet, s: string, p: nat, c: nat, n: nat) {
    p <= c && ClosesAt(a, s, c, n) && NoneCloses(a, s, p, c)
  }

  ghost predicate ClosedBy(a: Alphabet, s: string, p: nat, n: nat) {
    exists c: nat :: ClosesFirst(a, s, p, c, n)
  }

  lemma ClosedLater(a: Alphabet, s: string, p: nat, n: nat)
    requires forall m :: !ClosesAt(a, s, p, m)
    ensures ClosedBy(a, s, p, n) <==> ClosedBy(a, s, p + 1, n)
  {
    if ClosedBy(a, s, p, n) {
      var c: nat :| ClosesFirst(a, s, p, c, n);
      assert ClosesFirst(a, s, p + 1, c, n);
    }
    if ClosedBy(a, s, p + 1, n) {
      var c: nat :| ClosesFirst(a, s, p + 1, c, n);
      assert ClosesFirst(a, s, p, c, n);
    }
  }

  lemma {:induction false} ThroughClosingExactly(a: Alphabet, s: string, p: nat, n: nat)
    requires p <= n <= |s|
    ensures ThroughClosing(a, s[p..]) == Some(n - p) <==> ClosedBy(a, s, p, n)
    decreases |s| - p
  {
    var t := s[p..];
    NoneClosesHere(a, s, p);
    ClosingTagExactly(a, s, p, n);
    if ClosingTag(a, t).Some? {
      assert ClosesAt(a, s, p, n) ==> ClosesFirst(a, s, p, p, n);
      assert forall c :: ClosesFirst(a, s, p, c, n) ==> c == p;
    } else {
      ClosedLater(a, s, p, n);
      if p < n {
        assert t[1..] == s[p + 1..];
        ThroughClosingExactly(a, s, p + 1, n);
      } else {
        assert !ClosedBy(a, s, p, n);
      }
    }
  }

  /** The first `>` behind the opening word. */
  lemma BracketExactly(s: string, b: nat)
    requires |s| >= 8
    ensures ThroughBracket(s[8..]) == Some(b - 7) <==> 8 <= b < |s| && s[b] == '>' && forall k :: 8 <= k < b ==> s[k] != '>'
  {
    var t := s[8..];
    if '>' in t {
      var n := ThroughBracket(t).value;
      assert s[n + 7] == t[n - 1] && forall k :: 8 <= k < n + 7 ==> s[k] == t[..n - 1][k - 8];
    } else {
      assert forall k :: 8 <= k < |s| ==> s[k] == t[k - 8];
    }
  }

  /** Behind that bracket the closing tag is looked for. */
  lemma SpanWithBracket(a: Alphabet, s: string, n: nat, b: nat)
    requires Opens(a, s) && 8 <= b < |s| && ThroughBracket(s[8..]) == Some(b - 7)
    ensures SpanLength(a, s) == Some(n) <==> n > b && ThroughClosing(a, s[b + 1..]) == Some(n - (b + 1))
  {
  }

  lemma SpanOpens(a: Alphabet, s: string, n: nat, b: nat, c: nat)
    requires IsSpanBy(a, s, n, b, c)
    ensures Opens(a, s) && ThroughBracket(s[8..]) == Some(b - 7)
  {
    OpensExactly(a, s);
    BracketExactly(s, b);
  }

  lemma SpanCloses(a: Alphabet, s: string, n: nat, b: nat, c: nat)
    requires IsSpanBy(a, s, n, b, c)
    ensures ThroughClosing(a, s[b + 1..]) == Some(n - (b + 1))
  {
    assert ClosesFirst(a, s, b + 1, c, n);
    ThroughClosingExactly(a, s, b + 1, n);
  }

  lemma SpanIsFound(a: Alphabet, s: string, n: nat, b: nat, c: nat)
    requires IsSpanBy(a, s, n, b, c)
    ensures SpanLength(a, s) == Some(n)
  {
    SpanOpens(a, s, n, b, c);
    SpanCloses(a, s, n, b, c);
    SpanWithBracket(a, s, n, b);
  }

  lemma FoundIsSpan(a: Alphabet, s: string, n: nat)
    requires SpanLength(a, s) == Some(n)
    ensures IsSpan(a, s, n)
  {
    OpensExactly(a, s);
    var b := 7 + ThroughBracket(s[8..]).value;
    BracketExactly(s, b);
    SpanWithBracket(a, s, n, b);
    ThroughClosingExactly(a, s, b + 1, n);
    var c: nat :| ClosesFirst(a, s, b + 1, c, n);
    assert IsSpanBy(a, s, n, b, c);
  }

  /** The spans that redaction looks for are exactly these. */
  lemma SpanExactly(a: Alphabet, s: string, n: nat)
    ensures SpanLength(a, s) == Some(n) <==> IsSpan(a, s, n)
  {
    if SpanLength(a, s) == Some(n) {
      FoundIsSpan(a, s, n);
    }
    if IsSpan(a, s, n) {
      var b: nat, c: nat :| IsSpanBy(a, s, n, b, c);
      SpanIsFound(a, s, n, b, c);
    }
  }

  /** A span of `n` characters begins at position `p`. */
  ghost predicate SpanAt(a: Alphabet, s: string, p: nat, n: nat)
    requires p <= |s|
  {
    IsSpan(a, s[p..], n)
  }

  lemma SpanAtExactly(a: Alphabet, s: string, p: nat, n: nat)
    requires p <= |s|
    ensures SpanLength(a, s[p..]) == Some(n) <==> SpanAt(a, s, p, n)
  {
    SpanExactly(a, s[p..], n);
  }

  /** A text is clean if no span begins anywhere in it. */
  lemma CleanExactly(a: Alphabet, s: string)
    ensures Clean(a, s) <==> forall p, n :: 0 <= p <= |s| ==> !SpanAt(a, s, p, n)
  {
    if Clean(a, s) {
      forall p, n | 0 <= p <= |s| ensures !SpanAt(a, s, p, n) {
        CleanEverywhere(a, s, p);
        SpanAtExactly(a, s, p, n);
      }
    } else {
      var p, n := SpanSomewhere(a, s);
    }
  }

  lemma {:induction false} SpanSomewhere(a: Alphabet, s: string) returns (p: nat, n: nat)
    requires !Clean(a, s)
    ensures p <= |s| && SpanAt(a, s, p, n)
  {
    if SpanLength(a, s).Some? {
      p, n := 0, SpanLength(a, s).value;
      assert s[0..] == s;
    } else {
      p, n := SpanSomewhere(a, s[1..]);
      SpanAtExactly(a, s[1..], p, n);
      assert s[1..][p..] == s[p + 1..];
      p := p + 1;
    }
    SpanAtExactly(a, s, p, n);
  }

  // ---------------------------------------------------------------- what redaction does

  /** The spans of a text from left to right: each behind so many characters, and so long. */
  datatype Matches = NoMore | Match(skipped: nat, length: nat, rest: Matches)
  {
    function Count(): nat {
      if NoMore? then 0 else 1 + rest.Count()
    }
  }

  /** No span begins in the first `n` places. */
  ghost predicate NoneBegins(a: Alphabet, s: string, n: nat)
    requires n <= |s| + 1
  {
    forall p, m :: 0 <= p < n ==> !SpanAt(a, s, p, m)
  }

  /** All the spans of the text, each the first one behind its predecessor. */
  ghost predicate AreSpans(a: Alphabet, s: string, spans: Matches)
    decreases spans
  {
    match spans
    case NoMore => NoneBegins(a, s, |s| + 1)
    case Match(skipped, length, rest) =>
      && skipped + length <= |s| && NoneBegins(a, s, skipped) && SpanAt(a, s, skipped, length)
      && AreSpans(a, s[skipped + length..], rest)
  }

  /** The matches lie within the text. */
  predicate Fit(s: string, spans: Matches)
    decreases spans
  {
    spans.NoMore? || (spans.skipped + spans.length <= |s| && Fit(s[spans.skipped + spans.length..], spans.rest))
  }

  lemma {:induction false} SpansFit(a: Alphabet, s: string, spans: Matches)
    requires AreSpans(a, s, spans)
    ensures Fit(s, spans)
    decreases spans
  {
    if spans.Match? {
      SpansFit(a, s[spans.skipped + spans.length..], spans.rest);
    }
  }

  /** The text with the marker in the place of each match. */
  function Marked(s: string, spans: Matches): string
    requires Fit(s, spans)
    decreases spans
  {
    match spans
    case NoMore => s
    case Match(skipped, length, rest) => s[..skipped] + ("[private content omitted]" + Marked(s[skipped + length..], rest))
  }

  lemma SpanShifted(a: Alphabet, s: string, p: nat, m: nat)
    requires 0 < p <= |s|
    ensures SpanAt(a, s, p, m) <==> SpanAt(a, s[1..], p - 1, m)
  {
    assert s[1..][p - 1..] == s[p..];
  }

  lemma NoneHereExactly(a: Alphabet, s: string, p: nat)
    requires p <= |s|
    ensures SpanLength(a, s[p..]) == None <==> forall m: nat :: !SpanAt(a, s, p, m)
  {
    if SpanLength(a, s[p..]).Some? {
      SpanAtExactly(a, s, p, SpanLength(a, s[p..]).value);
    }
    forall m: nat | SpanAt(a, s, p, m) ensures SpanLength(a, s[p..]).Some? {
      SpanAtExactly(a, s, p, m);
    }
  }

  lemma NoneBeginsStep(a: Alphabet, s: string, n: nat)
    requires 0 < n <= |s|
    ensures NoneBegins(a, s, n) <==> (forall m: nat :: !SpanAt(a, s, 0, m)) && NoneBegins(a, s[1..], n - 1)
  {
    forall p: nat, m: nat | 0 < p < n ensures SpanAt(a, s, p, m) <==> SpanAt(a, s[1..], p - 1, m) {
      SpanShifted(a, s, p, m);
    }
    if !NoneBegins(a, s, n) {
      var p: nat, m: nat :| p < n && SpanAt(a, s, p, m);
    } else {
      forall p: nat, m: nat | p < n - 1 ensures !SpanAt(a, s[1..], p, m) {
        SpanShifted(a, s, p + 1, m);
      }
    }
  }

  lemma {:induction false} NoneBeginsExactly(a: Alphabet, s: string, n: nat)
    requires n <= |s|
    ensures NoneBegins(a, s, n) <==> NoSpanBefore(a, s, n)
  {
    if n > 0 {
      NoneBeginsStep(a, s, n);
      NoneBeginsExactly(a, s[1..], n - 1);
      NoneHereExactly(a, s, 0);
      assert s[0..] == s;
    }
  }

  /** The first span of a text, given what stands before and behind it. */
  lemma RedactFirst(a: Alphabet, s: string, p: nat, n: nat, before: string, behind: string)
    requires p + n <= |s| && NoSpanBefore(a, s, p) && SpanLength(a, s[p..]) == Some(n)
    requires before == s[..p] && behind == s[p + n..]
    ensures Redact(a, s) == before + (PRIVATE_REDACTION + Redact(a, behind)) && Spans(a, s) == 1 + Spans(a, behind)
  {
    FirstSpanIsReplaced(a, s, p, n);
  }

  lemma RedactNone(a: Alphabet, s: string)
    requires NoneBegins(a, s, |s| + 1)
    ensures Redact(a, s) == s && Spans(a, s) == 0
  {
    assert NoneBegins(a, s, |s|);
    NoneBeginsExactly(a, s, |s|);
    PrefixStays(a, s, |s|);
    assert s[..|s|] == s;
  }

  lemma MarkedFirst(s: string, spans: Matches, before: string, behind: string, redacted: string)
    requires Fit(s, spans) && spans.Match? && before == s[..spans.skipped] && behind == s[spans.skipped + spans.length..]
    requires redacted == Marked(behind, spans.rest)
    ensures Marked(s, spans) == before + (PRIVATE_REDACTION + redacted)
  {
  }

  lemma RedactFirstSpan(a: Alphabet, s: string, skipped: nat, length: nat, before: string, behind: string)
    requires skipped + length <= |s| && NoneBegins(a, s, skipped) && SpanAt(a, s, skipped, length)
    requires before == s[..skipped] && behind == s[skipped + length..]
    ensures Redact(a, s) == before + (PRIVATE_REDACTION + Redact(a, behind)) && Spans(a, s) == 1 + Spans(a, behind)
  {
    NoneBeginsExactly(a, s, skipped);
    SpanAtExactly(a, s, skipped, length);
    RedactFirst(a, s, skipped, length, before, behind);
  }

  lemma FirstOfSpans(a: Alphabet, s: string, spans: Matches, behind: string)
    requires AreSpans(a, s, spans) && spans.Match?
    requires spans.skipped + spans.length <= |s| && behind == s[spans.skipped + spans.length..]
    ensures NoneBegins(a, s, spans.skipped) && SpanAt(a, s, spans.skipped, spans.length) && AreSpans(a, behind, spans.rest)
  {
  }

  lemma RedactionMarksFirst(a: Alphabet, s: string, spans: Matches, behind: string)
    requires Fit(s, spans) && spans.Match? && behind == s[spans.skipped + spans.length..]
    requires NoneBegins(a, s, spans.skipped) && SpanAt(a, s, spans.skipped, spans.length)
    requires Redact(a, behind) == Marked(behind, spans.rest)
    ensures Redact(a, s) == Marked(s, spans) && Spans(a, s) == 1 + Spans(a, behind)
  {
    var before := s[..spans.skipped];
    RedactFirstSpan(a, s, spans.skipped, spans.length, before, behind);
    MarkedFirst(s, spans, before, behind, Redact(a, behind));
  }

  /** Redaction puts the marker in the place of each span, keeps everything else in order, and counts them. */
  lemma {:induction false} RedactionMarksSpans(a: Alphabet, s: string, spans: Matches)
    requires AreSpans(a, s, spans)
    ensures Fit(s, spans) && Redact(a, s) == Marked(s, spans) && Spans(a, s) == spans.Count()
    decreases spans
  {
    SpansFit(a, s, spans);
    if spans.NoMore? {
      RedactNone(a, s);
    } else {
      var behind := s[spans.skipped + spans.length..];
      FirstOfSpans(a, s, spans, behind);
      RedactionMarksSpans(a, behind, spans.rest);
      RedactionMarksFirst(a, s, spans, behind);
    }
  }

  /** Where the first span of a text begins, or its end. */
  lemma {:induction false} FirstSpan(a: Alphabet, s: string, from: nat) returns (p: nat)
    requires from <= |s| && NoneBegins(a, s, from)
    ensures p <= |s| && NoneBegins(a, s, p) && (p < |s| ==> SpanLength(a, s[p..]).Some?)
    decreases |s| - from
  {
    p := from;
    if from < |s| && SpanLength(a, s[from..]) == None {
      NoneHereExactly(a, s, from);
      p := FirstSpan(a, s, from + 1);
    }
  }

  lemma SpansAfter(a: Alphabet, s: string, p: nat, n: nat, behind: string, rest: Matches)
    requires p + n <= |s| && NoneBegins(a, s, p) && SpanAt(a, s, p, n) && behind == s[p + n..] && AreSpans(a, behind, rest)
    ensures AreSpans(a, s, Match(p, n, rest))
  {
  }

  lemma SpansEnd(a: Alphabet, s: string)
    requires NoneBegins(a, s, |s|)
    ensures AreSpans(a, s, NoMore)
  {
    NoneHereExactly(a, s, |s|);
    assert s[|s|..] == "";
  }

  /** Every text has such a list of spans. */
  lemma {:induction false} SpansExist(a: Alphabet, s: string) returns (spans: Matches)
    ensures AreSpans(a, s, spans)
    decreases |s|
  {
    var p := FirstSpan(a, s, 0);
    if p < |s| {
      var n := SpanLength(a, s[p..]).value;
      SpanAtExactly(a, s, p, n);
      var behind := s[p + n..];
      spans := SpansExist(a, behind);
      SpansAfter(a, s, p, n, behind, spans);
      spans := Match(p, n, spans);
    } else {
      SpansEnd(a, s);
      spans := NoMore;
    }
  }
}
