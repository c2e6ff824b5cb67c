/** Redaction of private spans in text (redact_private_text in harness_mem/capture_policy.py).

    A span runs from `<private`, a word boundary and the next `>`, to the earliest closing tag after
    it. Which characters are letters of a word, white space, or the same letter in another case is
    left to the text or byte alphabet in use. */
module PrivateText {
  import opened Wrappers

  const PRIVATE_REDACTION := "[private content omitted]"

  datatype Alphabet = Alphabet(isWord: char -> bool, isSpace: char -> bool, same: (char, char) -> bool)
  {
    /** A bracket is neither part of a word nor another form of a letter. */
    ghost predicate Regular() {
      && !isWord('<') && !isWord('[')
      && forall k :: 0 <= k < |"private"| ==> !same('[', "private"[k])
    }
  }

  // ---------------------------------------------------------------- the pattern

  predicate Begins(a: Alphabet, s: string, w: string) {
    w == "" || (s != "" && a.same(s[0], w[0]) && Begins(a, s[1..], w[1..]))
  }

  /** The word, followed by a character that does not continue it. */
  predicate BeginsWord(a: Alphabet, s: string, w: string) {
    if w == "" then s != "" && !a.isWord(s[0])
    else s != "" && a.same(s[0], w[0]) && BeginsWord(a, s[1..], w[1..])
  }

  predicate Opens(a: Alphabet, s: string) {
    s != "" && s[0] == '<' && BeginsWord(a, s[1..], "private")
  }

  /** How much of a text reaches up to and including its first `>`. */
  function ThroughBracket(s: string): (n: Option<nat>)
    ensures n.Some? <==> '>' in s
    ensures n.Some? ==> 0 < n.value <= |s| && s[n.value - 1] == '>' && '>' !in s[..n.value - 1]
  {
    if s == "" then None
    else if s[0] == '>' then Some(1)
    else
      assert s == [s[0]] + s[1..];
      var n := ThroughBracket(s[1..]);
      if n.None? then None
      else
        assert s[..n.value] == [s[0]] + s[1..][..n.value - 1];
        Some(1 + n.value)
  }

  /** White space and a `>`. */
  function TagEnd(a: Alphabet, s: string): (n: Option<nat>)
    ensures n.Some? ==> n.value <= |s|
  {
    if s == "" then None
    else if s[0] == '>' then Some(1)
    else if !a.isSpace(s[0]) then None
    else
      var n := TagEnd(a, s[1..]);
      if n.None? then None else Some(1 + n.value)
  }

  function ClosingTag(a: Alphabet, s: string): (n: Option<nat>)
    ensures n.Some? ==> n.value <= |s|
  {
    if !("</" <= s && Begins(a, s[2..], "private") && |s| >= 9) then None
    else
      var n := TagEnd(a, s[9..]);
      if n.None? then None else Some(9 + n.value)
  }

  /** How much of a text reaches through its earliest closing tag. */
  function ThroughClosing(a: Alphabet, s: string): (n: Option<nat>)
    ensures n.Some? ==> n.value <= |s|
  {
    if ClosingTag(a, s).Some? then ClosingTag(a, s)
    else if s == "" then None
    else
      var n := ThroughClosing(a, s[1..]);
      if n.None? then None else Some(1 + n.value)
  }

  lemma {:induction false} WordFits(a: Alphabet, s: string, w: string)
    requires BeginsWord(a, s, w)
    ensures |w| < |s|
  {
    if w != "" {
      WordFits(a, s[1..], w[1..]);
    }
  }

  /** The length of the private span a text begins with. */
  function SpanLength(a: Alphabet, s: string): (n: Option<nat>)
    ensures n.Some? ==> 0 < n.value <= |s| && Opens(a, s)
  {
    if !Opens(a, s) then None
    else
      assert |s| > 8 by { WordFits(a, s[1..], "private"); }
      var bracket := ThroughBracket(s[8..]);
      if bracket.None? then None
      else
        var closing := ThroughClosing(a, s[8 + bracket.value..]);
        if closing.None? then None else Some(8 + bracket.value + closing.value)
  }

  // ---------------------------------------------------------------- redaction

  /** Replaces the spans from left to right. */
  function Redact(a: Alphabet, s: string): string {
    if s == "" then ""
    else
      var span := SpanLength(a, s);
      if span.Some? then PRIVATE_REDACTION + Redact(a, s[span.value..])
      else [s[0]] + Redact(a, s[1..])
  }

  function Spans(a: Alphabet, s: string): nat {
    if s == "" then 0
    else
      var span := SpanLength(a, s);
      if span.Some? then 1 + Spans(a, s[span.value..]) else Spans(a, s[1..])
  }

  /** No private span begins anywhere in the text. */
  predicate Clean(a: Alphabet, s: string) {
    s == "" || (SpanLength(a, s) == None && Clean(a, s[1..]))
  }

  lemma {:induction false} CleanEverywhere(a: Alphabet, s: string, p: nat)
    requires Clean(a, s) && p <= |s|
    ensures SpanLength(a, s[p..]) == None
  {
    if p == 0 {
      assert s[0..] == s;
    } else {
      CleanEverywhere(a, s[1..], p - 1);
      assert s[1..][p - 1..] == s[p..];
    }
  }

  /** A clean text is left as it is, and only a clean text is. */
  lemma {:induction false} CleanIsUntouched(a: Alphabet, s: string)
    ensures Clean(a, s) <==> Spans(a, s) == 0
    ensures Clean(a, s) ==> Redact(a, s) == s
  {
    if s != "" {
      CleanIsUntouched(a, s[1..]);
    }
  }

  predicate NoSpanBefore(a: Alphabet, s: string, p: nat)
    requires p <= |s|
  {
    p == 0 || (SpanLength(a, s) == None && NoSpanBefore(a, s[1..], p - 1))
  }

  lemma StepOver(a: Alphabet, s: string)
    requires s != "" && SpanLength(a, s) == None
    ensures Redact(a, s) == [s[0]] + Redact(a, s[1..]) && Spans(a, s) == Spans(a, s[1..])
  {
  }

  lemma PrefixStep(s: string, p: nat)
    requires 0 < p <= |s|
    ensures s[1..][p - 1..] == s[p..] && s[..p] == [s[0]] + s[1..][..p - 1]
  {
  }

  /** What stands before the first span stays. */
  lemma {:induction false} PrefixStays(a: Alphabet, s: string, p: nat)
    requires p <= |s| && NoSpanBefore(a, s, p)
    ensures Redact(a, s) == s[..p] + Redact(a, s[p..]) && Spans(a, s) == Spans(a, s[p..])
  {
    if p == 0 {
      assert s[0..] == s;
    } else {
      PrefixStays(a, s[1..], p - 1);
      StepOver(a, s);
      PrefixStep(s, p);
    }
  }

  /** The first span is replaced as a whole, and the search goes on behind it. */
  lemma FirstSpanIsReplaced(a: Alphabet, s: string, p: nat, n: nat)
    requires p <= |s| && NoSpanBefore(a, s, p) && SpanLength(a, s[p..]) == Some(n)
    ensures p + n <= |s| && Redact(a, s) == s[..p] + (PRIVATE_REDACTION + Redact(a, s[p + n..]))
    ensures Spans(a, s) == 1 + Spans(a, s[p + n..])
  {
    PrefixStays(a, s, p);
    assert s[p..][n..] == s[p + n..];
  }

  // ---------------------------------------------------------------- one pass is enough

  lemma {:induction false} ClosingLater(a: Alphabet, s: string, d: nat)
    requires d <= |s| && ThroughClosing(a, s[d..]).Some?
    ensures ThroughClosing(a, s).Some?
  {
    if d == 0 {
      assert s[0..] == s;
    } else {
      assert s[1..][d - 1..] == s[d..];
      ClosingLater(a, s[1..], d - 1);
    }
  }

  /** A bracket further on leaves no doubt about a first bracket. */
  lemma BracketBefore(s: string, d: nat)
    requires d < |s| && s[d] == '>'
    ensures ThroughBracket(s).Some? && ThroughBracket(s).value <= d + 1
  {
    var n := ThroughBracket(s).value;
    assert forall k :: 0 <= k < n - 1 ==> s[k] == s[..n - 1][k] != '>';
  }

  lemma ClosingLaterAt(a: Alphabet, s: string, i: nat, j: nat)
    requires i <= j <= |s| && ThroughClosing(a, s[j..]).Some?
    ensures ThroughClosing(a, s[i..]).Some?
  {
    assert s[i..][j - i..] == s[j..];
    ClosingLater(a, s[i..], j - i);
  }

  lemma BracketBeforeAt(s: string, d: nat)
    requires 8 <= d < |s| && s[d] == '>'
    ensures ThroughBracket(s[8..]).Some? && 8 + ThroughBracket(s[8..]).value <= d + 1
  {
    assert s[8..][d - 8] == '>';
    BracketBefore(s[8..], d - 8);
  }

  /** The last character of the opening tag of a span that begins at `p`. */
  lemma SpanParts(a: Alphabet, s: string, p: nat) returns (d: nat)
    requires p <= |s| && SpanLength(a, s[p..]).Some?
    ensures p + 8 <= d < |s| && s[d] == '>' && ThroughClosing(a, s[d + 1..]).Some?
  {
    var t := s[p..];
    WordFits(a, t[1..], "private");
    var later := ThroughBracket(t[8..]).value;
    d := p + 7 + later;
    assert s[d] == t[8..][later - 1] && t[8 + later..] == s[d + 1..];
  }

  /** Where an opening tag begins and a whole span begins later, the opening tag begins a span too. */
  lemma OpenerBeforeSpan(a: Alphabet, s: string, p: nat)
    requires Opens(a, s) && p <= |s| && SpanLength(a, s[p..]).Some?
    ensures SpanLength(a, s).Some?
  {
    var d := SpanParts(a, s, p);
    BracketBeforeAt(s, d);
    ClosingLaterAt(a, s, 8 + ThroughBracket(s[8..]).value, d + 1);
  }

  lemma {:induction false} NoSpanAfter(a: Alphabet, s: string, t: string)
    requires Opens(a, s) && SpanLength(a, s) == None
    requires |t| <= |s| && t == s[|s| - |t|..]
    ensures Clean(a, t)
  {
    if t != "" {
      NoSpanAfter(a, s, t[1..]);
      if SpanLength(a, t).Some? {
        OpenerBeforeSpan(a, s, |s| - |t|);
        assert false;
      }
    }
  }

  /** Redaction leaves no word that was not there: it starts with a bracket, not with a letter. */
  lemma {:induction false} WordWasThere(a: Alphabet, s: string, w: string)
    requires a.Regular() && |w| <= 7 && w == "private"[7 - |w|..]
    requires BeginsWord(a, Redact(a, s), w)
    ensures BeginsWord(a, s, w)
  {
    var r := Redact(a, s);
    assert s != "";
    assert w != "" ==> w[0] == "private"[7 - |w|];
    if SpanLength(a, s).Some? {
      assert r[0] == '[';
    } else {
      assert r[0] == s[0] && r[1..] == Redact(a, s[1..]);
      if w != "" {
        WordWasThere(a, s[1..], w[1..]);
      }
    }
  }

  lemma {:induction false} CleanJoin(a: Alphabet, s: string, t: string)
    requires '<' !in s && Clean(a, t)
    ensures Clean(a, s + t)
  {
    if s == "" {
      assert s + t == t;
    } else {
      assert (s + t)[0] == s[0] && (s + t)[1..] == s[1..] + t;
      CleanJoin(a, s[1..], t);
    }
  }

  /** After one pass no span is left, not even one made up of what stood around the redacted ones. */
  lemma {:induction false} RedactionIsComplete(a: Alphabet, s: string)
    requires a.Regular()
    ensures Clean(a, Redact(a, s))
  {
    if s != "" {
      var span := SpanLength(a, s);
      if span.Some? {
        RedactionIsComplete(a, s[span.value..]);
        assert '<' !in PRIVATE_REDACTION;
        CleanJoin(a, PRIVATE_REDACTION, Redact(a, s[span.value..]));
      } else {
        RedactionIsComplete(a, s[1..]);
        var r := Redact(a, s);
        assert r[0] == s[0] && r[1..] == Redact(a, s[1..]);
        if Opens(a, r) {
          WordWasThere(a, s[1..], "private");
          NoSpanAfter(a, s, s);
          CleanIsUntouched(a, s);
        }
      }
    }
  }

  lemma SecondPassChangesNothing(a: Alphabet, s: string)
    requires a.Regular()
    ensures Redact(a, Redact(a, s)) == Redact(a, s) && Spans(a, Redact(a, s)) == 0
  {
    RedactionIsComplete(a, s);
    CleanIsUntouched(a, Redact(a, s));
  }
}
