/** Redaction of decoded captures (_redact_capture_value and _redact_capture_jsonl in
    harness_mem/capture_policy.py), for records without encoded attachments. */
module PrivateRedaction {
  import opened Wrappers
  import opened Payloads
  import opened PrivateText

  const CAPTURE_JSON_DEPTH := 64

  datatype CaptureError = NestingTooDeep | AmbiguousRecord | EncodedField | InvalidRecord | UnsupportedRecord

  /** The text alphabet, and which field names announce encoded content. */
  datatype Policy = Policy(alphabet: Alphabet, announcesEncoding: string -> bool)

  // ---------------------------------------------------------------- the specification

  /** Every string and every field name redacted. */
  function RedactTree(a: Alphabet, v: Json): Json {
    match v
    case Text(s) => Text(Redact(a, s))
    case List(items) => List(seq(|items|, i requires 0 <= i < |items| => RedactTree(a, items[i])))
    case Object(fields) =>
      Object(seq(|fields|, i requires 0 <= i < |fields| => Field(Redact(a, fields[i].name), RedactTree(a, fields[i].value))))
    case _ => v
  }

  function SpansIn(a: Alphabet, v: Json): nat
    decreases v, 1
  {
    match v
    case Text(s) => Spans(a, s)
    case List(items) => SpansInFirst(a, v, |items|)
    case Object(fields) => SpansInFirst(a, v, |fields|)
    case _ => 0
  }

  function Size(v: Json): nat {
    match v
    case List(items) => |items|
    case Object(fields) => |fields|
    case _ => 0
  }

  /** The spans in the first `n` children, with their names. */
  function SpansInFirst(a: Alphabet, v: Json, n: nat): nat
    requires n <= Size(v)
    decreases v, 0, n
  {
    if n == 0 then 0
    else
      SpansInFirst(a, v, n - 1) +
      if v.List? then SpansIn(a, v.items[n - 1]) else Spans(a, v.fields[n - 1].name) + SpansIn(a, v.fields[n - 1].value)
  }

  /** No string and no field name anywhere in the tree holds a private span. */
  predicate CleanTree(a: Alphabet, v: Json) {
    match v
    case Text(s) => Clean(a, s)
    case List(items) => forall i :: 0 <= i < |items| ==> CleanTree(a, items[i])
    case Object(fields) => forall i :: 0 <= i < |fields| ==> Clean(a, fields[i].name) && CleanTree(a, fields[i].value)
    case _ => true
  }

  function NamesOf(a: Alphabet, fields: seq<Field>): set<string> {
    set f | f in fields :: Redact(a, f.name)
  }

  /** The first problem met on the way through the tree, if any. */
  function Problem(p: Policy, v: Json, depth: nat, strict: bool): Option<CaptureError>
    decreases v, 2, 0
  {
    if depth > CAPTURE_JSON_DEPTH then Some(NestingTooDeep) else ProblemBefore(p, v, Size(v), depth, strict)
  }

  /** The first problem among the first `n` children. */
  function ProblemBefore(p: Policy, v: Json, n: nat, depth: nat, strict: bool): Option<CaptureError>
    requires n <= Size(v)
    decreases v, 1, n
  {
    if n == 0 then None
    else
      var before := ProblemBefore(p, v, n - 1, depth, strict);
      if before.Some? then before else ChildProblem(p, v, n - 1, depth, strict)
  }

  function ChildProblem(p: Policy, v: Json, i: nat, depth: nat, strict: bool): Option<CaptureError>
    requires i < Size(v)
    decreases v, 0, 0
  {
    if v.List? then Problem(p, v.items[i], depth + 1, strict)
    else if Redact(p.alphabet, v.fields[i].name) in NamesOf(p.alphabet, v.fields[..i]) then Some(AmbiguousRecord)
    else if strict && p.announcesEncoding(v.fields[i].name) then Some(EncodedField)
    else Problem(p, v.fields[i].value, depth + 1, strict)
  }

  lemma {:induction false} FirstProblemStays(p: Policy, v: Json, i: nat, n: nat, depth: nat, strict: bool)
    requires i <= n <= Size(v) && ProblemBefore(p, v, i, depth, strict).Some?
    ensures ProblemBefore(p, v, n, depth, strict) == ProblemBefore(p, v, i, depth, strict)
    decreases n
  {
    if i < n {
      FirstProblemStays(p, v, i, n - 1, depth, strict);
    }
  }

  /** What redaction asks for: not too deep, no encoded fields where they are refused, and no two
      names of an object that redaction makes equal. */
  predicate Acceptable(p: Policy, v: Json, depth: nat, strict: bool) {
    depth <= CAPTURE_JSON_DEPTH &&
    match v
    case List(items) => forall i :: 0 <= i < |items| ==> Acceptable(p, items[i], depth + 1, strict)
    case Object(fields) => NamesApart(p.alphabet, fields) &&
                           forall i :: 0 <= i < |fields| ==>
                             !(strict && p.announcesEncoding(fields[i].name)) && Acceptable(p, fields[i].value, depth + 1, strict)
    case _ => true
  }

  predicate NamesApart(a: Alphabet, fields: seq<Field>) {
    forall i, j :: 0 <= i < j < |fields| ==> Redact(a, fields[i].name) != Redact(a, fields[j].name)
  }

  predicate ChildAccepted(p: Policy, v: Json, i: nat, depth: nat, strict: bool)
    requires i < Size(v)
  {
    if v.List? then Acceptable(p, v.items[i], depth + 1, strict)
    else
      && Redact(p.alphabet, v.fields[i].name) !in NamesOf(p.alphabet, v.fields[..i])
      && !(strict && p.announcesEncoding(v.fields[i].name))
      && Acceptable(p, v.fields[i].value, depth + 1, strict)
  }

  lemma ChildProblemIsExact(p: Policy, v: Json, i: nat, depth: nat, strict: bool)
    requires i < Size(v)
    ensures ChildProblem(p, v, i, depth, strict) == None <==> ChildAccepted(p, v, i, depth, strict)
    decreases v, 0
  {
    ProblemIsExact(p, if v.List? then v.items[i] else v.fields[i].value, depth + 1, strict);
  }

  lemma {:induction false} NoProblemBefore(p: Policy, v: Json, n: nat, depth: nat, strict: bool)
    requires n <= Size(v)
    ensures ProblemBefore(p, v, n, depth, strict) == None <==> forall i :: 0 <= i < n ==> ChildAccepted(p, v, i, depth, strict)
    decreases v, 1, n
  {
    if n > 0 {
      NoProblemBefore(p, v, n - 1, depth, strict);
      ChildProblemIsExact(p, v, n - 1, depth, strict);
    }
  }

  lemma NamesApartOneByOne(a: Alphabet, fields: seq<Field>)
    ensures NamesApart(a, fields) <==> forall j :: 0 <= j < |fields| ==> Redact(a, fields[j].name) !in NamesOf(a, fields[..j])
  {
    forall i, j | 0 <= i < j < |fields| ensures Redact(a, fields[i].name) in NamesOf(a, fields[..j]) {
      assert fields[..j][i] == fields[i];
    }
  }

  lemma AllChildrenAccepted(p: Policy, v: Json, depth: nat, strict: bool)
    requires depth <= CAPTURE_JSON_DEPTH
    ensures Acceptable(p, v, depth, strict) <==> forall i :: 0 <= i < Size(v) ==> ChildAccepted(p, v, i, depth, strict)
  {
    if v.Object? {
      NamesApartOneByOne(p.alphabet, v.fields);
      if Acceptable(p, v, depth, strict) {
        forall i | 0 <= i < Size(v) ensures ChildAccepted(p, v, i, depth, strict) {
          assert Acceptable(p, v.fields[i].value, depth + 1, strict);
        }
      } else if forall i :: 0 <= i < Size(v) ==> ChildAccepted(p, v, i, depth, strict) {
        forall i | 0 <= i < |v.fields|
          ensures Redact(p.alphabet, v.fields[i].name) !in NamesOf(p.alphabet, v.fields[..i])
          ensures !(strict && p.announcesEncoding(v.fields[i].name)) && Acceptable(p, v.fields[i].value, depth + 1, strict)
        {
          assert ChildAccepted(p, v, i, depth, strict);
        }
      }
    } else if v.List? {
      forall i | 0 <= i < Size(v) ensures ChildAccepted(p, v, i, depth, strict) <==> Acceptable(p, v.items[i], depth + 1, strict) {
      }
    }
  }

  /** Redaction meets no problem exactly when the tree is acceptable. */
  lemma {:induction false} ProblemIsExact(p: Policy, v: Json, depth: nat, strict: bool)
    ensures Problem(p, v, depth, strict) == None <==> Acceptable(p, v, depth, strict)
    decreases v, 2
  {
    if depth <= CAPTURE_JSON_DEPTH {
      NoProblemBefore(p, v, Size(v), depth, strict);
      AllChildrenAccepted(p, v, depth, strict);
    }
  }

  // ---------------------------------------------------------------- the walk

  /** The redacted tree with the number of spans, or the first problem. */
  function Redaction(p: Policy, v: Json, depth: nat, strict: bool): Result<(Json, nat), CaptureError> {
    var problem := Problem(p, v, depth, strict);
    if problem.Some? then Failure(problem.value) else Success((RedactTree(p.alphabet, v), SpansIn(p.alphabet, v)))
  }

  method RedactCaptureValue(p: Policy, v: Json, depth: nat, strict: bool) returns (r: Result<(Json, nat), CaptureError>)
    ensures r == Redaction(p, v, depth, strict)
    decreases v, 3
  {
    if depth > CAPTURE_JSON_DEPTH {
      return Failure(NestingTooDeep);
    }
    assert ProblemBefore(p, v, 0, depth, strict) == None;
    match v {
      case Text(s) => return Success((Text(Redact(p.alphabet, s)), Spans(p.alphabet, s)));
      case Object(_) => r := RedactObject(p, v, depth, strict);
      case List(_) => r := RedactList(p, v, depth, strict);
      case _ => return Success((v, 0));
    }
  }

  method RedactList(p: Policy, v: Json, depth: nat, strict: bool) returns (r: Result<(Json, nat), CaptureError>)
    requires v.List? && depth <= CAPTURE_JSON_DEPTH
    ensures r == Redaction(p, v, depth, strict)
    decreases v, 2
  {
    var items: seq<Json>, count := [], 0;
    for i := 0 to |v.items|
      invariant |items| == i && count == SpansInFirst(p.alphabet, v, i)
      invariant forall k :: 0 <= k < i ==> items[k] == RedactTree(p.alphabet, v.items[k])
      invariant ProblemBefore(p, v, i, depth, strict) == None
    {
      var item := RedactCaptureValue(p, v.items[i], depth + 1, strict);
      if item.Failure? {
        FirstProblemStays(p, v, i + 1, |v.items|, depth, strict);
        return Failure(item.error);
      }
      items := items + [item.value.0];
      count := count + item.value.1;
    }
    assert List(items).items == RedactTree(p.alphabet, v).items;
    return Success((List(items), count));
  }

  method RedactObject(p: Policy, v: Json, depth: nat, strict: bool) returns (r: Result<(Json, nat), CaptureError>)
    requires v.Object? && depth <= CAPTURE_JSON_DEPTH
    ensures r == Redaction(p, v, depth, strict)
    decreases v, 2
  {
    var state := ([], {}, 0);
    for i := 0 to |v.fields|
      invariant FieldsDone(p.alphabet, v, i, state)
      invariant ProblemBefore(p, v, i, depth, strict) == None
    {
      var next := RedactNextField(p, v, i, depth, strict, state);
      if next.Failure? {
        return Failure(next.error);
      }
      state := next.value;
    }
    AllFieldsDone(p.alphabet, v, state);
    return Success((Object(state.0), state.2));
  }

  /** One turn of the loop over the fields: its name must be new, and its value must be accepted. */
  method RedactNextField(p: Policy, v: Json, i: nat, depth: nat, strict: bool, state: (seq<Field>, set<string>, nat))
    returns (r: Result<(seq<Field>, set<string>, nat), CaptureError>)
    requires v.Object? && i < |v.fields| && FieldsDone(p.alphabet, v, i, state)
    requires ProblemBefore(p, v, i, depth, strict) == None
    ensures r.Success? ==> FieldsDone(p.alphabet, v, i + 1, r.value) && ProblemBefore(p, v, i + 1, depth, strict) == None
    ensures r.Failure? ==> ProblemBefore(p, v, |v.fields|, depth, strict) == Some(r.error)
    decreases v, 1
  {
    var name := Redact(p.alphabet, v.fields[i].name);
    var item := RedactOneField(p, v, i, name, state.1, depth, strict);
    assert ProblemBefore(p, v, i + 1, depth, strict) == ChildProblem(p, v, i, depth, strict);
    if item.Failure? {
      FirstProblemStays(p, v, i + 1, |v.fields|, depth, strict);
      return Failure(item.error);
    }
    OneMoreField(p.alphabet, v, i, state);
    return Success((state.0 + [Field(name, item.value.0)], state.1 + {name},
                    state.2 + Spans(p.alphabet, v.fields[i].name) + item.value.1));
  }

  /** The state of the loop over the fields of an object after `i` of them: fields, names and count. */
  ghost predicate FieldsDone(a: Alphabet, v: Json, i: nat, state: (seq<Field>, set<string>, nat))
    requires v.Object? && i <= |v.fields|
  {
    && |state.0| == i && state.2 == SpansInFirst(a, v, i) && state.1 == NamesOf(a, v.fields[..i])
    && (forall k :: 0 <= k < i ==> state.0[k] == RedactField(a, v.fields[k]))
  }

  lemma OneMoreField(a: Alphabet, v: Json, i: nat, state: (seq<Field>, set<string>, nat))
    requires v.Object? && i < |v.fields| && FieldsDone(a, v, i, state)
    ensures FieldsDone(a, v, i + 1, (state.0 + [RedactField(a, v.fields[i])], state.1 + {Redact(a, v.fields[i].name)},
                                     state.2 + Spans(a, v.fields[i].name) + SpansIn(a, v.fields[i].value)))
  {
    assert v.fields[..i + 1] == v.fields[..i] + [v.fields[i]];
  }

  lemma AllFieldsDone(a: Alphabet, v: Json, state: (seq<Field>, set<string>, nat))
    requires v.Object? && FieldsDone(a, v, |v.fields|, state)
    ensures Object(state.0) == RedactTree(a, v) && state.2 == SpansIn(a, v)
  {
    assert Object(state.0).fields == RedactTree(a, v).fields;
  }

  /** One field of an object: its name must be new, and its value must be accepted. */
  method RedactOneField(p: Policy, v: Json, i: nat, name: string, names: set<string>, depth: nat, strict: bool)
    returns (r: Result<(Json, nat), CaptureError>)
    requires v.Object? && i < |v.fields|
    requires name == Redact(p.alphabet, v.fields[i].name) && names == NamesOf(p.alphabet, v.fields[..i])
    ensures r.Failure? <==> ChildProblem(p, v, i, depth, strict).Some?
    ensures r.Failure? ==> Some(r.error) == ChildProblem(p, v, i, depth, strict)
    ensures r.Success? ==> r.value == (RedactTree(p.alphabet, v.fields[i].value), SpansIn(p.alphabet, v.fields[i].value))
    decreases v, 0
  {
    if name in names {
      return Failure(AmbiguousRecord);
    }
    if strict && p.announcesEncoding(v.fields[i].name) {
      return Failure(EncodedField);
    }
    r := RedactCaptureValue(p, v.fields[i].value, depth + 1, strict);
  }

  function RedactField(a: Alphabet, f: Field): Field {
    Field(Redact(a, f.name), RedactTree(a, f.value))
  }

  // ---------------------------------------------------------------- what redaction guarantees

  /** Wherever a string stands, as a value or as a name, at any depth, it is clean afterwards. */
  lemma {:induction false} RedactedTreeIsClean(a: Alphabet, v: Json)
    requires a.Regular()
    ensures CleanTree(a, RedactTree(a, v))
  {
    match v
    case Text(s) => RedactionIsComplete(a, s);
    case List(items) =>
      forall i | 0 <= i < |items| ensures CleanTree(a, RedactTree(a, items[i])) {
        RedactedTreeIsClean(a, items[i]);
      }
    case Object(fields) =>
      forall i | 0 <= i < |fields|
        ensures Clean(a, Redact(a, fields[i].name)) && CleanTree(a, RedactTree(a, fields[i].value))
      {
        RedactionIsComplete(a, fields[i].name);
        RedactedTreeIsClean(a, fields[i].value);
      }
    case _ =>
  }

  lemma {:induction false} NoSpansInFirst(a: Alphabet, v: Json, n: nat)
    requires n <= Size(v)
    ensures SpansInFirst(a, v, n) == 0 <==>
            forall i :: 0 <= i < n ==>
              if v.List? then SpansIn(a, v.items[i]) == 0
              else Spans(a, v.fields[i].name) == 0 && SpansIn(a, v.fields[i].value) == 0
  {
    if n > 0 {
      NoSpansInFirst(a, v, n - 1);
    }
  }

  /** The count is zero exactly for clean trees, and those stay as they are. */
  lemma {:induction false} CleanTreeIsUntouched(a: Alphabet, v: Json)
    ensures CleanTree(a, v) <==> SpansIn(a, v) == 0
    ensures CleanTree(a, v) ==> RedactTree(a, v) == v
  {
    match v
    case Text(s) => CleanIsUntouched(a, s);
    case List(items) =>
      forall i | 0 <= i < |items|
        ensures CleanTree(a, items[i]) <==> SpansIn(a, items[i]) == 0
        ensures CleanTree(a, items[i]) ==> RedactTree(a, items[i]) == items[i]
      {
        CleanTreeIsUntouched(a, items[i]);
      }
      NoSpansInFirst(a, v, |items|);
      if CleanTree(a, v) {
        assert RedactTree(a, v).items == items;
      }
    case Object(fields) =>
      forall i | 0 <= i < |fields|
        ensures Clean(a, fields[i].name) && CleanTree(a, fields[i].value) <==>
                Spans(a, fields[i].name) == 0 && SpansIn(a, fields[i].value) == 0
        ensures Clean(a, fields[i].name) && CleanTree(a, fields[i].value) ==>
                  Redact(a, fields[i].name) == fields[i].name && RedactTree(a, fields[i].value) == fields[i].value
      {
        CleanIsUntouched(a, fields[i].name);
        CleanTreeIsUntouched(a, fields[i].value);
      }
      NoSpansInFirst(a, v, |fields|);
      if CleanTree(a, v) {
        assert RedactTree(a, v).fields == fields;
      }
    case _ =>
  }

  lemma SecondWalkChangesNothing(a: Alphabet, v: Json)
    requires a.Regular()
    ensures RedactTree(a, RedactTree(a, v)) == RedactTree(a, v) && SpansIn(a, RedactTree(a, v)) == 0
  {
    RedactedTreeIsClean(a, v);
    CleanTreeIsUntouched(a, RedactTree(a, v));
  }

  // ---------------------------------------------------------------- line by line

  /** How a line is decoded to a record, if it is one, and how a redacted record is written. */
  datatype Codec = Codec(decode: string -> Option<Json>, encode: Json -> string)

  predicate IsBreak(c: char) {
    c == '\r' || c == '\n'
  }

  predicate IsBlank(line: string) {
    forall c :: c in line ==> c in " \t\n\r\U{000b}\U{000c}"
  }

  /** The length of the first line with its line break. */
  function LineLength(text: string): (n: nat)
    requires text != ""
    ensures 0 < n <= |text|
  {
    if text[0] == '\n' then 1
    else if text[0] == '\r' then if |text| > 1 && text[1] == '\n' then 2 else 1
    else if |text| == 1 then 1
    else 1 + LineLength(text[1..])
  }

  function LinesOf(text: string): seq<string> {
    if text == "" then [] else [text[..LineLength(text)]] + LinesOf(text[LineLength(text)..])
  }

  function Concat(lines: seq<string>): string {
    if lines == [] then "" else lines[0] + Concat(lines[1..])
  }

  lemma {:induction false} LinesAreAll(text: string)
    ensures Concat(LinesOf(text)) == text
  {
    if text != "" {
      LinesAreAll(text[LineLength(text)..]);
      assert LinesOf(text)[1..] == LinesOf(text[LineLength(text)..]);
    }
  }

  /** The line break at the end of a line. */
  function Ending(line: string): string {
    if line != "" && IsBreak(line[|line| - 1]) then Ending(line[..|line| - 1]) + [line[|line| - 1]] else ""
  }

  function Mark(line: string): string {
    if line != "" && line[0] == '\U{feff}' then "\U{feff}" else ""
  }

  /** Only records with private spans are written anew. */
  function RedactedLine(p: Policy, codec: Codec, line: string): string {
    if IsBlank(line) || codec.decode(line) == None || SpansIn(p.alphabet, codec.decode(line).value) == 0 then line
    else Mark(line) + codec.encode(RedactTree(p.alphabet, codec.decode(line).value)) + Ending(line)
  }

  function SpansOfLine(p: Policy, codec: Codec, line: string): nat {
    if IsBlank(line) || codec.decode(line) == None then 0 else SpansIn(p.alphabet, codec.decode(line).value)
  }

  /** What is wrong with a line, if anything. */
  function LineProblem(p: Policy, codec: Codec, line: string, strict: bool): Option<CaptureError> {
    if IsBlank(line) then None
    else if codec.decode(line) == None then Some(InvalidRecord)
    else if !codec.decode(line).value.Object? then Some(UnsupportedRecord)
    else Problem(p, codec.decode(line).value, 0, strict)
  }

  function FirstLineProblem(p: Policy, codec: Codec, lines: seq<string>, strict: bool): Option<CaptureError> {
    if lines == [] then None
    else
      var before := FirstLineProblem(p, codec, lines[..|lines| - 1], strict);
      if before.Some? then before else LineProblem(p, codec, lines[|lines| - 1], strict)
  }

  lemma {:induction false} FirstLineProblemStays(p: Policy, codec: Codec, lines: seq<string>, i: nat, strict: bool)
    requires i <= |lines| && FirstLineProblem(p, codec, lines[..i], strict).Some?
    ensures FirstLineProblem(p, codec, lines, strict) == FirstLineProblem(p, codec, lines[..i], strict)
    decreases |lines|
  {
    if i < |lines| {
      assert lines[..|lines| - 1][..i] == lines[..i];
      FirstLineProblemStays(p, codec, lines[..|lines| - 1], i, strict);
    } else {
      assert lines[..i] == lines;
    }
  }

  /** A capture is accepted exactly when every line is blank or an acceptable record. */
  lemma {:induction false} LinesAcceptable(p: Policy, codec: Codec, lines: seq<string>, strict: bool)
    ensures FirstLineProblem(p, codec, lines, strict) == None <==>
            forall line :: line in lines && !IsBlank(line) ==>
              codec.decode(line).Some? && codec.decode(line).value.Object? && Acceptable(p, codec.decode(line).value, 0, strict)
  {
    if lines != [] {
      var last := lines[|lines| - 1];
      LinesAcceptable(p, codec, lines[..|lines| - 1], strict);
      assert lines == lines[..|lines| - 1] + [last];
      if !IsBlank(last) && codec.decode(last).Some? {
        ProblemIsExact(p, codec.decode(last).value, 0, strict);
      }
    }
  }

  function RedactedLines(p: Policy, codec: Codec, lines: seq<string>): seq<string> {
    seq(|lines|, i requires 0 <= i < |lines| => RedactedLine(p, codec, lines[i]))
  }

  function SpansOfLines(p: Policy, codec: Codec, lines: seq<string>): nat {
    if lines == [] then 0 else SpansOfLines(p, codec, lines[..|lines| - 1]) + SpansOfLine(p, codec, lines[|lines| - 1])
  }

  method RedactLine(p: Policy, codec: Codec, line: string, strict: bool) returns (r: Result<(string, nat), CaptureError>)
    ensures r.Failure? <==> LineProblem(p, codec, line, strict).Some?
    ensures r.Failure? ==> Some(r.error) == LineProblem(p, codec, line, strict)
    ensures r.Success? ==> r.value == (RedactedLine(p, codec, line), SpansOfLine(p, codec, line))
  {
    if IsBlank(line) {
      return Success((line, 0));
    }
    var record := codec.decode(line);
    if record == None {
      return Failure(InvalidRecord);
    }
    if !record.value.Object? {
      return Failure(UnsupportedRecord);
    }
    var redacted := RedactCaptureValue(p, record.value, 0, strict);
    if redacted.Failure? {
      return Failure(redacted.error);
    }
    var (value, removed) := redacted.value;
    return Success((if removed > 0 then Mark(line) + codec.encode(value) + Ending(line) else line, removed));
  }

  method RedactCaptureJsonl(p: Policy, codec: Codec, text: string, strict: bool) returns (r: Result<(string, nat), CaptureError>)
    ensures r.Failure? <==> FirstLineProblem(p, codec, LinesOf(text), strict).Some?
    ensures r.Failure? ==> Some(r.error) == FirstLineProblem(p, codec, LinesOf(text), strict)
    ensures r.Success? ==> r.value == (Concat(RedactedLines(p, codec, LinesOf(text))), SpansOfLines(p, codec, LinesOf(text)))
  {
    var all := LinesOf(text);
    var lines: seq<string>, count := [], 0;
    for i := 0 to |all|
      invariant lines == RedactedLines(p, codec, all[..i]) && count == SpansOfLines(p, codec, all[..i])
      invariant FirstLineProblem(p, codec, all[..i], strict) == None
    {
      var line := RedactLine(p, codec, all[i], strict);
      assert all[..i + 1][..i] == all[..i];
      if line.Failure? {
        FirstLineProblemStays(p, codec, all, i + 1, strict);
        return Failure(line.error);
      }
      lines := lines + [line.value.0];
      count := count + line.value.1;
    }
    assert all[..|all|] == all;
    return Success((Concat(lines), count));
  }

  lemma {:induction false} NoSpansInLines(p: Policy, codec: Codec, lines: seq<string>, i: nat)
    requires SpansOfLines(p, codec, lines) == 0 && i < |lines|
    ensures SpansOfLine(p, codec, lines[i]) == 0
  {
    if i < |lines| - 1 {
      NoSpansInLines(p, codec, lines[..|lines| - 1], i);
    }
  }

  /** A capture in which nothing is private is returned character for character, line breaks and all. */
  lemma PublicCaptureIsUntouched(p: Policy, codec: Codec, text: string)
    requires SpansOfLines(p, codec, LinesOf(text)) == 0
    ensures Concat(RedactedLines(p, codec, LinesOf(text))) == text
  {
    var lines := LinesOf(text);
    forall i | 0 <= i < |lines| ensures RedactedLine(p, codec, lines[i]) == lines[i] {
      NoSpansInLines(p, codec, lines, i);
    }
    assert RedactedLines(p, codec, lines) == lines;
    LinesAreAll(text);
  }
}
