/** What redaction does to a decoded value, place by place (_redact_capture_value in
    harness_mem/capture_policy.py). */
module PrivateTrees {
  import opened Wrappers
  import opened Payloads
  import opened PrivateText
  import opened PrivateRedaction

  /** A place in a value: which child, which child of that, and so on. */
  type Place = seq<nat>

  function At(v: Json, place: Place): Option<Json>
    decreases |place|
  {
    if place == [] then Some(v)
    else if v.List? && place[0] < |v.items| then At(v.items[place[0]], place[1..])
    else if v.Object? && place[0] < |v.fields| then At(v.fields[place[0]].value, place[1..])
    else None
  }

  /** `w` stands where `v` stood: a text is redacted, a list or object has as many children as before, with
      the field names redacted, and everything else is the same. */
  predicate IsRedacted(a: Alphabet, v: Json, w: Json) {
    match v
    case Text(s) => w == Text(Redact(a, s))
    case List(items) => w.List? && |w.items| == |items|
    case Object(fields) =>
      w.Object? && |w.fields| == |fields| && forall i :: 0 <= i < |fields| ==> w.fields[i].name == Redact(a, fields[i].name)
    case _ => w == v
  }

  /** No place appears or disappears, and at each stands what stood there, redacted. */
  lemma {:induction false} RedactedPlaceByPlace(a: Alphabet, v: Json, place: Place)
    ensures At(RedactTree(a, v), place).Some? <==> At(v, place).Some?
    ensures At(v, place).Some? ==> IsRedacted(a, At(v, place).value, At(RedactTree(a, v), place).value)
    decreases |place|
  {
    if place != [] {
      if v.List? && place[0] < |v.items| {
        RedactedPlaceByPlace(a, v.items[place[0]], place[1..]);
      } else if v.Object? && place[0] < |v.fields| {
        RedactedPlaceByPlace(a, v.fields[place[0]].value, place[1..]);
      }
    }
  }

  // ---------------------------------------------------------------- the count

  lemma {:induction false} FirstSpansOnly(a: Alphabet, v: Json, w: Json, n: nat)
    requires n <= Size(v) && n <= Size(w)
    requires (v.List? && w.List? && v.items[..n] == w.items[..n]) || (v.Object? && w.Object? && v.fields[..n] == w.fields[..n])
    ensures SpansInFirst(a, v, n) == SpansInFirst(a, w, n)
  {
    if n > 0 {
      if v.List? {
        assert v.items[..n][..n - 1] == v.items[..n - 1] && w.items[..n][..n - 1] == w.items[..n - 1];
        assert v.items[..n][n - 1] == v.items[n - 1] && w.items[..n][n - 1] == w.items[n - 1];
      } else {
        assert v.fields[..n][..n - 1] == v.fields[..n - 1] && w.fields[..n][..n - 1] == w.fields[..n - 1];
        assert v.fields[..n][n - 1] == v.fields[n - 1] && w.fields[..n][n - 1] == w.fields[n - 1];
      }
      FirstSpansOnly(a, v, w, n - 1);
    }
  }

  /** Every text and every field name counts with its spans, once. */
  lemma SpansAddUp(a: Alphabet, items: seq<Json>, item: Json, fields: seq<Field>, field: Field, s: string)
    ensures SpansIn(a, Text(s)) == Spans(a, s) && SpansIn(a, List([])) == 0 && SpansIn(a, Object([])) == 0
    ensures SpansIn(a, List(items + [item])) == SpansIn(a, List(items)) + SpansIn(a, item)
    ensures SpansIn(a, Object(fields + [field])) ==
            SpansIn(a, Object(fields)) + Spans(a, field.name) + SpansIn(a, field.value)
  {
    assert (items + [item])[..|items|] == items[..|items|];
    FirstSpansOnly(a, List(items), List(items + [item]), |items|);
    assert (fields + [field])[..|fields|] == fields[..|fields|];
    FirstSpansOnly(a, Object(fields), Object(fields + [field]), |fields|);
  }

  // ---------------------------------------------------------------- what is accepted

  /** No two names of an object may be redacted to the same, and none may announce encoded content where
      that is refused. */
  predicate NamesAreFine(p: Policy, v: Json, strict: bool) {
    v.Object? ==>
      && (forall i, j :: 0 <= i < j < |v.fields| ==> Redact(p.alphabet, v.fields[i].name) != Redact(p.alphabet, v.fields[j].name))
      && (strict ==> forall i :: 0 <= i < |v.fields| ==> !p.announcesEncoding(v.fields[i].name))
  }

  predicate FineAt(p: Policy, v: Json, place: Place, above: nat, strict: bool) {
    At(v, place).Some? ==> above + |place| <= 64 && NamesAreFine(p, At(v, place).value, strict)
  }

  /** A value is accepted if no place in it is deeper than 64, and the names are fine at every place. */
  lemma {:induction false} AcceptableExactly(p: Policy, v: Json, depth: nat, strict: bool)
    ensures Acceptable(p, v, depth, strict) <==> forall place: Place :: FineAt(p, v, place, depth, strict)
    decreases v
  {
    if Acceptable(p, v, depth, strict) {
      forall place: Place ensures FineAt(p, v, place, depth, strict) {
        AcceptableIsFine(p, v, depth, strict, place);
      }
    } else if forall place: Place :: FineAt(p, v, place, depth, strict) {
      assert FineAt(p, v, [], depth, strict);
      forall i: nat | i < Size(v)
        ensures Acceptable(p, if v.List? then v.items[i] else v.fields[i].value, depth + 1, strict)
      {
        var child := if v.List? then v.items[i] else v.fields[i].value;
        var deeper := depth + 1;
        forall place: Place ensures FineAt(p, child, place, deeper, strict) {
          assert ([i] + place)[1..] == place;
          assert FineAt(p, v, [i] + place, depth, strict);
        }
        AcceptableExactly(p, child, depth + 1, strict);
      }
      ChildrenAcceptable(p, v, depth, strict);
    }
  }

  lemma ChildrenAcceptable(p: Policy, v: Json, depth: nat, strict: bool)
    requires FineAt(p, v, [], depth, strict)
    requires forall i: nat :: i < Size(v) ==> Acceptable(p, if v.List? then v.items[i] else v.fields[i].value, depth + 1, strict)
    ensures Acceptable(p, v, depth, strict)
  {
  }

  lemma {:induction false} AcceptableIsFine(p: Policy, v: Json, depth: nat, strict: bool, place: Place)
    requires Acceptable(p, v, depth, strict)
    ensures FineAt(p, v, place, depth, strict)
    decreases |place|
  {
    if place != [] {
      if v.List? && place[0] < |v.items| {
        AcceptableIsFine(p, v.items[place[0]], depth + 1, strict, place[1..]);
      } else if v.Object? && place[0] < |v.fields| {
        AcceptableIsFine(p, v.fields[place[0]].value, depth + 1, strict, place[1..]);
      }
    }
  }

  // ---------------------------------------------------------------- what is reported

  /** The problem stands at this place: it is too deep, two of its names are redacted to the same, or one of
      them announces encoded content. */
  predicate ProblemAt(p: Policy, v: Json, place: Place, above: nat, strict: bool, error: CaptureError) {
    At(v, place).Some? &&
    var w := At(v, place).value;
    match error
    case NestingTooDeep => above + |place| > 64
    case AmbiguousRecord =>
      w.Object? && exists i, j :: 0 <= i < j < |w.fields| && Redact(p.alphabet, w.fields[i].name) == Redact(p.alphabet, w.fields[j].name)
    case EncodedField => strict && w.Object? && exists i :: 0 <= i < |w.fields| && p.announcesEncoding(w.fields[i].name)
    case _ => false
  }

  lemma {:induction false} FirstProblemChild(p: Policy, v: Json, n: nat, depth: nat, strict: bool) returns (i: nat)
    requires n <= Size(v) && ProblemBefore(p, v, n, depth, strict).Some?
    ensures i < n && ChildProblem(p, v, i, depth, strict) == ProblemBefore(p, v, n, depth, strict)
  {
    if ProblemBefore(p, v, n - 1, depth, strict).Some? {
      i := FirstProblemChild(p, v, n - 1, depth, strict);
    } else {
      i := n - 1;
    }
  }

  lemma SameNameBefore(a: Alphabet, fields: seq<Field>, i: nat)
    requires i < |fields| && Redact(a, fields[i].name) in NamesOf(a, fields[..i])
    ensures exists k :: 0 <= k < i && Redact(a, fields[k].name) == Redact(a, fields[i].name)
  {
    var f :| f in fields[..i] && Redact(a, f.name) == Redact(a, fields[i].name);
    var k :| 0 <= k < i && fields[..i][k] == f;
    assert fields[k] == f;
  }

  /** Whatever is reported is the case somewhere. */
  lemma {:induction false} ProblemIsSomewhere(p: Policy, v: Json, depth: nat, strict: bool) returns (place: Place)
    requires Problem(p, v, depth, strict).Some?
    ensures ProblemAt(p, v, place, depth, strict, Problem(p, v, depth, strict).value)
    decreases v
  {
    place := [];
    if depth <= CAPTURE_JSON_DEPTH {
      var i := FirstProblemChild(p, v, Size(v), depth, strict);
      var child := if v.List? then v.items[i] else v.fields[i].value;
      if v.Object? && Redact(p.alphabet, v.fields[i].name) in NamesOf(p.alphabet, v.fields[..i]) {
        SameNameBefore(p.alphabet, v.fields, i);
      } else if Problem(p, child, depth + 1, strict) == Problem(p, v, depth, strict)
                && !(v.Object? && strict && p.announcesEncoding(v.fields[i].name)) {
        var rest := ProblemIsSomewhere(p, child, depth + 1, strict);
        place := [i] + rest;
        assert place[1..] == rest;
      }
    }
  }
}
