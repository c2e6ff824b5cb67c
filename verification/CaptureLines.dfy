/** What a redacted capture reads back as (_redact_capture_jsonl in harness_mem/capture_policy.py): the
    lines written anew are lines again, every record in them is clean, and redacting them once more
    changes nothing. */
module CaptureLines {
  import opened Wrappers
  import opened Payloads
  import opened PrivateText
  import opened PrivateRedaction
  import opened PrivateTrees

  predicate Unbroken(s: string) {
    forall c :: c in s ==> !IsBreak(c)
  }

  predicate IsEnding(s: string) {
    s == "" || s == "\n" || s == "\r" || s == "\r\n"
  }

  /** One line, with its line break if it has one. */
  predicate IsLine(s: string) {
    s != "" && LineLength(s) == |s|
  }

  /** A line `a` followed by `b` stays a line of its own. */
  predicate Parts(a: string, b: string)
    requires a != "" && b != ""
  {
    IsBreak(a[|a| - 1]) && !(a[|a| - 1] == '\r' && b[0] == '\n')
  }

  ghost predicate Separate(lines: seq<string>) {
    && (forall i :: 0 <= i < |lines| ==> IsLine(lines[i]))
    && (forall i :: 0 <= i < |lines| - 1 ==> Parts(lines[i], lines[i + 1]))
  }

  lemma {:induction false} LineBefore(line: string, rest: string)
    requires IsLine(line) && (rest != "" ==> Parts(line, rest))
    ensures LineLength(line + rest) == |line|
  {
    if !IsBreak(line[0]) && |line| > 1 {
      assert (line + rest)[1..] == line[1..] + rest;
      LineBefore(line[1..], rest);
    }
  }

  lemma {:induction false} SeparateLinesAreRead(lines: seq<string>)
    requires Separate(lines)
    ensures LinesOf(Concat(lines)) == lines
  {
    if lines != [] {
      var rest := Concat(lines[1..]);
      assert forall i :: 0 <= i < |lines| - 1 ==> lines[1..][i] == lines[i + 1];
      if |lines| > 1 {
        assert rest == lines[1] + Concat(lines[1..][1..]) && rest[0] == lines[1][0];
      }
      LineBefore(lines[0], rest);
      SeparateLinesAreRead(lines[1..]);
      assert (lines[0] + rest)[..|lines[0]|] == lines[0] && (lines[0] + rest)[|lines[0]|..] == rest;
    }
  }

  lemma {:induction false} FirstLine(text: string)
    requires text != ""
    ensures var n := LineLength(text); IsLine(text[..n]) && (n < |text| ==> Parts(text[..n], text[n..]))
  {
    var n := LineLength(text);
    if !IsBreak(text[0]) && |text| > 1 {
      FirstLine(text[1..]);
      assert text[..n][1..] == text[1..][..n - 1] && text[n..] == text[1..][n - 1..];
    }
  }

  lemma {:induction false} LinesAreSeparate(text: string)
    ensures Separate(LinesOf(text))
  {
    if text != "" {
      var n := LineLength(text);
      var rest := text[n..];
      FirstLine(text);
      LinesAreSeparate(rest);
      if rest != "" {
        assert LinesOf(text)[1] == rest[..LineLength(rest)] && LinesOf(text)[1][0] == rest[0];
      }
      assert forall i :: 1 <= i < |LinesOf(text)| ==> LinesOf(text)[i] == LinesOf(rest)[i - 1];
    }
  }

  // ---------------------------------------------------------------- a line written anew

  lemma {:induction false} EndingAfter(c: char, s: string)
    requires !IsBreak(c)
    ensures Ending([c] + s) == Ending(s)
  {
    if s != "" {
      assert ([c] + s)[..|s|] == [c] + s[..|s| - 1];
      EndingAfter(c, s[..|s| - 1]);
    }
  }

  lemma {:induction false} LineHasEnding(line: string)
    requires IsLine(line)
    ensures IsEnding(Ending(line))
    ensures IsBreak(line[|line| - 1]) ==> Ending(line) != "" && Ending(line)[|Ending(line)| - 1] == line[|line| - 1]
    ensures !IsBreak(line[|line| - 1]) ==> Ending(line) == ""
  {
    if !IsBreak(line[0]) && |line| > 1 {
      LineHasEnding(line[1..]);
      EndingAfter(line[0], line[1..]);
      assert [line[0]] + line[1..] == line;
    } else if |line| == 1 {
      assert line[..0] == "" && [] + [line[0]] == line;
    } else {
      assert line == "\r\n" && line[..1] == "\r" && line[..1][..0] == "";
      assert Ending("\r") == [] + ['\r'];
    }
  }

  lemma {:induction false} UnbrokenLine(body: string, ending: string)
    requires Unbroken(body) && IsEnding(ending) && body != ""
    ensures IsLine(body + ending)
  {
    assert body[0] in body;
    if |body| > 1 {
      UnbrokenLine(body[1..], ending);
      assert (body + ending)[1..] == body[1..] + ending;
    } else {
      assert (body + ending)[1..] == ending;
      assert ending != "" ==> LineLength(ending) == |ending|;
    }
  }

  // ---------------------------------------------------------------- the order of fields

  /** `order` takes each of `n` positions to a different one. */
  ghost predicate IsReordering(order: seq<nat>, n: nat) {
    && |order| == n
    && (forall i :: 0 <= i < n ==> order[i] < n)
    && (forall i, j :: 0 <= i < j < n ==> order[i] != order[j])
    && (forall k :: 0 <= k < n ==> k in order)
  }

  /** Equal but for the order of fields, in objects at any depth; records are written with sorted names. */
  ghost predicate SameTree(v: Json, w: Json)
    decreases v
  {
    match v
    case List(items) => w.List? && |w.items| == |items| && forall i :: 0 <= i < |items| ==> SameTree(items[i], w.items[i])
    case Object(fields) =>
      && w.Object? && |w.fields| == |fields|
      && exists order: seq<nat> ::
           && IsReordering(order, |fields|)
           && forall i :: 0 <= i < |fields| ==>
                fields[i].name == w.fields[order[i]].name && SameTree(fields[i].value, w.fields[order[i]].value)
    case _ => v == w
  }

  lemma SameNamesApart(a: Alphabet, fields: seq<Field>, others: seq<Field>, order: seq<nat>)
    requires |others| == |fields| && IsReordering(order, |fields|)
    requires forall i :: 0 <= i < |fields| ==> fields[i].name == others[order[i]].name
    ensures NamesApart(a, fields) <==> NamesApart(a, others)
  {
    if NamesApart(a, fields) {
      forall k, l | 0 <= k < l < |others| ensures Redact(a, others[k].name) != Redact(a, others[l].name) {
        assert k in order;
        var i :| 0 <= i < |order| && order[i] == k;
        assert l in order;
        var j :| 0 <= j < |order| && order[j] == l;
        assert i < j || j < i;
      }
    }
    if NamesApart(a, others) {
      forall i, j | 0 <= i < j < |fields| ensures Redact(a, fields[i].name) != Redact(a, fields[j].name) {
        assert order[i] < order[j] || order[j] < order[i];
      }
    }
  }

  lemma ReorderedIsClean(a: Alphabet, fields: seq<Field>, others: seq<Field>, order: seq<nat>)
    requires |others| == |fields| && IsReordering(order, |fields|)
    requires forall i :: 0 <= i < |fields| ==>
               fields[i].name == others[order[i]].name && (CleanTree(a, fields[i].value) <==> CleanTree(a, others[order[i]].value))
    ensures CleanTree(a, Object(fields)) <==> CleanTree(a, Object(others))
  {
    if CleanTree(a, Object(fields)) {
      forall k | 0 <= k < |others| ensures Clean(a, others[k].name) && CleanTree(a, others[k].value) {
        assert k in order;
        var i :| 0 <= i < |order| && order[i] == k;
      }
    }
  }

  lemma ReorderedIsAcceptable(p: Policy, fields: seq<Field>, others: seq<Field>, order: seq<nat>, depth: nat, strict: bool)
    requires |others| == |fields| && IsReordering(order, |fields|)
    requires forall i :: 0 <= i < |fields| ==> fields[i].name == others[order[i]].name
    requires forall i :: 0 <= i < |fields| ==>
               (Acceptable(p, fields[i].value, depth + 1, strict) <==> Acceptable(p, others[order[i]].value, depth + 1, strict))
    ensures Acceptable(p, Object(fields), depth, strict) <==> Acceptable(p, Object(others), depth, strict)
  {
    SameNamesApart(p.alphabet, fields, others, order);
    if Acceptable(p, Object(fields), depth, strict) {
      forall k | 0 <= k < |others|
        ensures !(strict && p.announcesEncoding(others[k].name)) && Acceptable(p, others[k].value, depth + 1, strict)
      {
        assert k in order;
        var i :| 0 <= i < |order| && order[i] == k;
      }
    }
  }

  lemma {:induction false} SameTreeIsClean(a: Alphabet, v: Json, w: Json)
    requires SameTree(v, w)
    ensures CleanTree(a, v) <==> CleanTree(a, w)
    decreases v
  {
    match v
    case List(items) =>
      forall i | 0 <= i < |items| ensures CleanTree(a, items[i]) <==> CleanTree(a, w.items[i]) {
        SameTreeIsClean(a, items[i], w.items[i]);
      }
    case Object(fields) =>
      var order: seq<nat> :|
        && IsReordering(order, |fields|)
        && forall i :: 0 <= i < |fields| ==>
             fields[i].name == w.fields[order[i]].name && SameTree(fields[i].value, w.fields[order[i]].value);
      forall i | 0 <= i < |fields| ensures CleanTree(a, fields[i].value) <==> CleanTree(a, w.fields[order[i]].value) {
        SameTreeIsClean(a, fields[i].value, w.fields[order[i]].value);
      }
      ReorderedIsClean(a, fields, w.fields, order);
    case _ =>
  }

  lemma {:induction false} SameTreeIsAcceptable(p: Policy, v: Json, w: Json, depth: nat, strict: bool)
    requires SameTree(v, w)
    ensures Acceptable(p, v, depth, strict) <==> Acceptable(p, w, depth, strict)
    decreases v
  {
    match v
    case List(items) =>
      forall i | 0 <= i < |items| ensures Acceptable(p, items[i], depth + 1, strict) <==> Acceptable(p, w.items[i], depth + 1, strict) {
        SameTreeIsAcceptable(p, items[i], w.items[i], depth + 1, strict);
      }
    case Object(fields) =>
      var order: seq<nat> :|
        && IsReordering(order, |fields|)
        && forall i :: 0 <= i < |fields| ==>
             fields[i].name == w.fields[order[i]].name && SameTree(fields[i].value, w.fields[order[i]].value);
      forall i | 0 <= i < |fields|
        ensures Acceptable(p, fields[i].value, depth + 1, strict) <==> Acceptable(p, w.fields[order[i]].value, depth + 1, strict)
      {
        SameTreeIsAcceptable(p, fields[i].value, w.fields[order[i]].value, depth + 1, strict);
      }
      ReorderedIsAcceptable(p, fields, w.fields, order, depth, strict);
    case _ =>
  }

  /** A redacted record is accepted again, except that redaction may have made a name announce encoded
      content. */
  lemma {:induction false} RedactedIsAcceptable(p: Policy, v: Json, depth: nat, strict: bool)
    requires p.alphabet.Regular() && Acceptable(p, v, depth, strict)
    ensures Acceptable(p, RedactTree(p.alphabet, v), depth, false)
  {
    var w := RedactTree(p.alphabet, v);
    match v
    case List(items) =>
      forall i | 0 <= i < |items| ensures Acceptable(p, w.items[i], depth + 1, false) {
        RedactedIsAcceptable(p, items[i], depth + 1, strict);
      }
    case Object(fields) =>
      forall i | 0 <= i < |fields|
        ensures Redact(p.alphabet, w.fields[i].name) == w.fields[i].name && Acceptable(p, w.fields[i].value, depth + 1, false)
      {
        SecondPassChangesNothing(p.alphabet, fields[i].name);
        RedactedIsAcceptable(p, fields[i].value, depth + 1, strict);
      }
    case _ =>
  }

  // ---------------------------------------------------------------- the capture written anew

  /** The record reads back from the line it is written to, which is one line. */
  ghost predicate ReadsBackAs(codec: Codec, v: Json) {
    && codec.encode(v) != "" && Unbroken(codec.encode(v))
    && forall mark, ending :: mark in {"", "\U{feff}"} && IsEnding(ending) ==> Reads(codec, mark + codec.encode(v) + ending, v)
  }

  /** The line decodes to this record, its fields perhaps in another order. */
  ghost predicate Reads(codec: Codec, line: string, v: Json) {
    codec.decode(line).Some? && SameTree(v, codec.decode(line).value)
  }

  /** Every record with private spans reads back once it is redacted. */
  ghost predicate RoundTrips(p: Policy, codec: Codec, text: string) {
    forall line :: line in LinesOf(text) && SpansOfLine(p, codec, line) > 0 ==>
      ReadsBackAs(codec, RedactTree(p.alphabet, codec.decode(line).value))
  }

  /** A line that was redacted stays a line with the same line break, and reads back as the redacted record. */
  lemma RedactedLineIsLine(p: Policy, codec: Codec, line: string)
    requires IsLine(line) && SpansOfLine(p, codec, line) > 0
    requires ReadsBackAs(codec, RedactTree(p.alphabet, codec.decode(line).value))
    ensures var r := RedactedLine(p, codec, line);
            && IsLine(r) && !IsBreak(r[0]) && Reads(codec, r, RedactTree(p.alphabet, codec.decode(line).value))
            && (IsBreak(line[|line| - 1]) ==> r[|r| - 1] == line[|line| - 1])
  {
    var written := codec.encode(RedactTree(p.alphabet, codec.decode(line).value));
    var body := Mark(line) + written;
    LineHasEnding(line);
    assert Mark(line) in {"", "\U{feff}"} && Unbroken(body);
    UnbrokenLine(body, Ending(line));
  }

  /** A capture is refused for its first bad line: one that is no record, a record that is no object, or an
      object that redaction refuses. */
  lemma {:induction false} FirstBadLine(p: Policy, codec: Codec, lines: seq<string>, strict: bool) returns (i: nat)
    requires FirstLineProblem(p, codec, lines, strict).Some?
    ensures i < |lines| && FirstLineProblem(p, codec, lines[..i], strict) == None && !IsBlank(lines[i])
    ensures var error, record := FirstLineProblem(p, codec, lines, strict).value, codec.decode(lines[i]);
            && (record == None <==> error == InvalidRecord)
            && (record.Some? && !record.value.Object? <==> error == UnsupportedRecord)
            && (record.Some? && record.value.Object? ==> Problem(p, record.value, 0, strict) == Some(error))
  {
    var front := lines[..|lines| - 1];
    if FirstLineProblem(p, codec, front, strict).Some? {
      i := FirstBadLine(p, codec, front, strict);
      assert front[..i] == lines[..i];
    } else {
      i := |lines| - 1;
      ProblemsOfValues(p, codec, lines[i], strict);
    }
  }

  lemma ProblemsOfValues(p: Policy, codec: Codec, line: string, strict: bool)
    ensures codec.decode(line).Some? && Problem(p, codec.decode(line).value, 0, strict).Some? ==>
              Problem(p, codec.decode(line).value, 0, strict).value in {NestingTooDeep, AmbiguousRecord, EncodedField}
  {
    if codec.decode(line).Some? && Problem(p, codec.decode(line).value, 0, strict).Some? {
      var place := ProblemIsSomewhere(p, codec.decode(line).value, 0, strict);
    }
  }

  /** All the line breaks at the end, and nothing else. */
  lemma {:induction false} EndingExactly(line: string)
    ensures var n := |line| - |Ending(line)|;
            && 0 <= n && line[n..] == Ending(line)
            && (forall k :: n <= k < |line| ==> line[k] == '\r' || line[k] == '\n')
            && (n > 0 ==> line[n - 1] != '\r' && line[n - 1] != '\n')
  {
    if line != "" && IsBreak(line[|line| - 1]) {
      var front := line[..|line| - 1];
      EndingExactly(front);
      assert Ending(line) == Ending(front) + [line[|line| - 1]];
      assert line == front + [line[|line| - 1]];
    }
  }

  /** A line with private spans is written anew between the byte order mark and the line break it had; any
      other line stays as it is. */
  lemma RedactedLineFrame(p: Policy, codec: Codec, line: string)
    ensures SpansOfLine(p, codec, line) == 0 ==> RedactedLine(p, codec, line) == line
    ensures SpansOfLine(p, codec, line) > 0 ==>
              exists n :: 0 <= n <= |line|
                && RedactedLine(p, codec, line) ==
                     (if line[0] == '\U{feff}' then "\U{feff}" else "")
                     + codec.encode(RedactTree(p.alphabet, codec.decode(line).value)) + line[n..]
                && (forall k :: n <= k < |line| ==> line[k] == '\r' || line[k] == '\n')
                && (n > 0 ==> line[n - 1] != '\r' && line[n - 1] != '\n')
  {
    EndingExactly(line);
    if SpansOfLine(p, codec, line) > 0 {
      assert line != "" by { assert !IsBlank(line); }
      var n := |line| - |Ending(line)|;
      assert line[n..] == Ending(line);
    }
  }

  lemma RedactedLinesAreSeparate(p: Policy, codec: Codec, text: string)
    requires RoundTrips(p, codec, text)
    ensures Separate(RedactedLines(p, codec, LinesOf(text)))
  {
    var lines := LinesOf(text);
    var redacted := RedactedLines(p, codec, lines);
    LinesAreSeparate(text);
    forall i | 0 <= i < |lines|
      ensures IsLine(redacted[i]) && (redacted[i][0] == lines[i][0] || !IsBreak(redacted[i][0]))
      ensures IsBreak(lines[i][|lines[i]| - 1]) ==> redacted[i][|redacted[i]| - 1] == lines[i][|lines[i]| - 1]
    {
      if SpansOfLine(p, codec, lines[i]) > 0 {
        assert lines[i] in lines;
        RedactedLineIsLine(p, codec, lines[i]);
      }
    }
  }

  /** Every line of the redacted capture is blank or decodes to a record without a private span, and
      redaction would accept it again. */
  lemma RedactedCaptureIsClean(p: Policy, codec: Codec, text: string, strict: bool, line: string)
    requires p.alphabet.Regular() && RoundTrips(p, codec, text)
    requires FirstLineProblem(p, codec, LinesOf(text), strict) == None
    requires line in LinesOf(Concat(RedactedLines(p, codec, LinesOf(text)))) && !IsBlank(line)
    ensures codec.decode(line).Some? && CleanTree(p.alphabet, codec.decode(line).value)
    ensures codec.decode(line).value.Object? && Acceptable(p, codec.decode(line).value, 0, false)
  {
    var lines := LinesOf(text);
    RedactedLinesAreSeparate(p, codec, text);
    SeparateLinesAreRead(RedactedLines(p, codec, lines));
    LinesAcceptable(p, codec, lines, strict);
    var i :| 0 <= i < |lines| && RedactedLine(p, codec, lines[i]) == line;
    assert lines[i] in lines;
    LinesAreSeparate(text);
    if SpansOfLine(p, codec, lines[i]) > 0 {
      var record := codec.decode(lines[i]).value;
      RedactedLineIsLine(p, codec, lines[i]);
      RedactedTreeIsClean(p.alphabet, record);
      RedactedIsAcceptable(p, record, 0, strict);
      SameTreeIsClean(p.alphabet, RedactTree(p.alphabet, record), codec.decode(line).value);
      SameTreeIsAcceptable(p, RedactTree(p.alphabet, record), codec.decode(line).value, 0, false);
    } else {
      CleanTreeIsUntouched(p.alphabet, codec.decode(line).value);
      NotStrictIsAcceptable(p, codec.decode(line).value, 0, strict);
    }
  }

  lemma {:induction false} NotStrictIsAcceptable(p: Policy, v: Json, depth: nat, strict: bool)
    requires Acceptable(p, v, depth, strict)
    ensures Acceptable(p, v, depth, false)
  {
    match v
    case List(items) =>
      forall i | 0 <= i < |items| ensures Acceptable(p, items[i], depth + 1, false) {
        NotStrictIsAcceptable(p, items[i], depth + 1, strict);
      }
    case Object(fields) =>
      forall i | 0 <= i < |fields| ensures Acceptable(p, fields[i].value, depth + 1, false) {
        NotStrictIsAcceptable(p, fields[i].value, depth + 1, strict);
      }
    case _ =>
  }

  lemma {:induction false} CleanLinesCountZero(p: Policy, codec: Codec, lines: seq<string>)
    requires forall line :: line in lines ==> SpansOfLine(p, codec, line) == 0
    ensures SpansOfLines(p, codec, lines) == 0
  {
    if lines != [] {
      CleanLinesCountZero(p, codec, lines[..|lines| - 1]);
    }
  }

  /** Redacting a redacted capture again meets no problem. */
  lemma SecondRunIsAccepted(p: Policy, codec: Codec, text: string, redacted: string, strict: bool)
    requires p.alphabet.Regular() && RoundTrips(p, codec, text)
    requires FirstLineProblem(p, codec, LinesOf(text), strict) == None
    requires redacted == Concat(RedactedLines(p, codec, LinesOf(text)))
    ensures FirstLineProblem(p, codec, LinesOf(redacted), false) == None
  {
    forall line | line in LinesOf(redacted) && !IsBlank(line)
      ensures codec.decode(line).Some? && codec.decode(line).value.Object? && Acceptable(p, codec.decode(line).value, 0, false)
    {
      RedactedCaptureIsClean(p, codec, text, strict, line);
    }
    LinesAcceptable(p, codec, LinesOf(redacted), false);
  }

  /** It finds nothing, */
  lemma SecondRunFindsNothing(p: Policy, codec: Codec, text: string, redacted: string, strict: bool)
    requires p.alphabet.Regular() && RoundTrips(p, codec, text)
    requires FirstLineProblem(p, codec, LinesOf(text), strict) == None
    requires redacted == Concat(RedactedLines(p, codec, LinesOf(text)))
    ensures SpansOfLines(p, codec, LinesOf(redacted)) == 0
  {
    forall line | line in LinesOf(redacted) && !IsBlank(line) ensures SpansOfLine(p, codec, line) == 0 {
      RedactedCaptureIsClean(p, codec, text, strict, line);
      CleanTreeIsUntouched(p.alphabet, codec.decode(line).value);
    }
    CleanLinesCountZero(p, codec, LinesOf(redacted));
  }

  /** and returns the capture as it is. */
  lemma SecondRunChangesNothing(p: Policy, codec: Codec, text: string, redacted: string, strict: bool)
    requires p.alphabet.Regular() && RoundTrips(p, codec, text)
    requires FirstLineProblem(p, codec, LinesOf(text), strict) == None
    requires redacted == Concat(RedactedLines(p, codec, LinesOf(text)))
    ensures Concat(RedactedLines(p, codec, LinesOf(redacted))) == redacted
  {
    SecondRunFindsNothing(p, codec, text, redacted, strict);
    PublicCaptureIsUntouched(p, codec, redacted);
  }
}
