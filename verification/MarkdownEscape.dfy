/** The escape used in rendered knowledge (_escape_markdown in harness_mem/knowledge_renderer.py):
    four replacements in a row amount to escaping each special character once, and can be undone. */
module MarkdownEscape {
  function Replace(s: string, c: char, with: string): string {
    if s == "" then "" else (if s[0] == c then with else [s[0]]) + Replace(s[1..], c, with)
  }

  function EscapeMarkdown(s: string): string {
    Replace(Replace(Replace(Replace(s, '\\', "\\\\"), '*', "\\*"), '[', "\\["), ']', "\\]")
  }

  predicate Special(c: char) {
    c == '\\' || c == '*' || c == '[' || c == ']'
  }

  function EscapeEach(s: string): string {
    if s == "" then "" else (if Special(s[0]) then ['\\', s[0]] else [s[0]]) + EscapeEach(s[1..])
  }

  lemma {:induction false} ReplaceJoins(a: string, b: string, c: char, with: string)
    ensures Replace(a + b, c, with) == Replace(a, c, with) + Replace(b, c, with)
  {
    if a == "" {
      assert a + b == b;
    } else {
      ReplaceJoins(a[1..], b, c, with);
      assert (a + b)[1..] == a[1..] + b;
    }
  }

  lemma ReplaceShort(c: char, with: string)
    ensures forall x :: Replace([x], c, with) == if x == c then with else [x]
    ensures forall x, y :: Replace([x, y], c, with) == (if x == c then with else [x]) + (if y == c then with else [y])
  {
    forall x ensures Replace([x], c, with) == if x == c then with else [x] {
      assert [x][1..] == "" && with + "" == with;
    }
    forall x, y ensures Replace([x, y], c, with) == (if x == c then with else [x]) + (if y == c then with else [y]) {
      ReplaceJoins([x], [y], c, with);
      assert [x] + [y] == [x, y];
    }
  }

  /** Replacing the backslash first keeps the later replacements from escaping it again. */
  lemma EscapeOne(c: char)
    ensures EscapeMarkdown([c]) == if Special(c) then ['\\', c] else [c]
  {
    ReplaceShort('\\', "\\\\");
    ReplaceShort('*', "\\*");
    ReplaceShort('[', "\\[");
    ReplaceShort(']', "\\]");
  }

  lemma EscapeJoins(a: string, b: string)
    ensures EscapeMarkdown(a + b) == EscapeMarkdown(a) + EscapeMarkdown(b)
  {
    var a1, b1 := Replace(a, '\\', "\\\\"), Replace(b, '\\', "\\\\");
    var a2, b2 := Replace(a1, '*', "\\*"), Replace(b1, '*', "\\*");
    var a3, b3 := Replace(a2, '[', "\\["), Replace(b2, '[', "\\[");
    ReplaceJoins(a, b, '\\', "\\\\");
    ReplaceJoins(a1, b1, '*', "\\*");
    ReplaceJoins(a2, b2, '[', "\\[");
    ReplaceJoins(a3, b3, ']', "\\]");
  }

  lemma {:induction false} EscapeIsOnePass(s: string)
    ensures EscapeMarkdown(s) == EscapeEach(s)
  {
    if s != "" {
      assert s == [s[0]] + s[1..];
      EscapeJoins([s[0]], s[1..]);
      EscapeOne(s[0]);
      EscapeIsOnePass(s[1..]);
    }
  }

  /** Reads escaped text up to a star that is not escaped; the second part is what is left. */
  function ReadEscaped(s: string): (string, string) {
    if s == "" || s[0] == '*' then ("", s)
    else if s[0] == '\\' && |s| >= 2 then
      var (text, rest) := ReadEscaped(s[2..]);
      ([s[1]] + text, rest)
    else
      var (text, rest) := ReadEscaped(s[1..]);
      ([s[0]] + text, rest)
  }

  /** Unescaping inverts escaping on every string, whatever starred text follows. */
  lemma {:induction false} ReadsBack(s: string, rest: string)
    requires rest == "" || rest[0] == '*'
    ensures ReadEscaped(EscapeMarkdown(s) + rest) == (s, rest)
  {
    EscapeIsOnePass(s);
    if s == "" {
      assert "" + rest == rest;
    } else {
      EscapeIsOnePass(s[1..]);
      ReadsBack(s[1..], rest);
      var text := EscapeEach(s) + rest;
      if Special(s[0]) {
        assert text[0] == '\\' && text[1] == s[0] && text[2..] == EscapeEach(s[1..]) + rest;
      } else {
        assert text[0] == s[0] && text[1..] == EscapeEach(s[1..]) + rest;
      }
      assert s == [s[0]] + s[1..];
    }
  }

  lemma {:induction false} EscapeAddsNoNewline(s: string)
    ensures '\n' in EscapeMarkdown(s) <==> '\n' in s
  {
    EscapeIsOnePass(s);
    if s != "" {
      EscapeIsOnePass(s[1..]);
      EscapeAddsNoNewline(s[1..]);
      assert s == [s[0]] + s[1..];
    }
  }
}
