/** Which lines of an operator's file are the headers of a section, spelled out (internal/config/mirror_save.go). */
module TableLaws {
  import opened Wrappers
  import opened TableLines
  import opened TableRewrite
  import Text

  // ----- trimming

  /** White space, by code point: tab to carriage return, blank, and the blanks of Unicode. */
  lemma WhiteIs(c: char)
    ensures Text.IsSpace(c) <==>
            || 9 <= c as int <= 13 || c as int in {32, 133, 160, 5760} || 8192 <= c as int <= 8202
            || c as int in {8232, 8233, 8239, 8287, 12288}
  {
  }

  ghost predicate White(s: string) { forall i | 0 <= i < |s| :: Text.IsSpace(s[i]) }

  /** No white space at either end. */
  ghost predicate Trim(s: string) { s != "" ==> !Text.IsSpace(s[0]) && !Text.IsSpace(s[|s| - 1]) }

  lemma {:induction false} TrimLeftStops(s: string)
    ensures White(s) ==> Text.TrimLeft(s) == ""
    ensures s != "" && !Text.IsSpace(s[0]) ==> Text.TrimLeft(s) == s
  {
    if s != "" && Text.IsSpace(s[0]) { TrimLeftStops(s[1..]); }
  }

  lemma {:induction false} TrimRightSkips(s: string, b: string)
    requires White(b)
    ensures Text.TrimRight(s + b) == Text.TrimRight(s)
  {
    if b == "" {
      assert s + b == s;
    } else {
      TrimRightSkips(s, b[..|b| - 1]);
      assert (s + b)[..|s + b| - 1] == s + b[..|b| - 1];
    }
  }

  /** White space around goes, and nothing else. */
  lemma TrimSpaceIs(a: string, s: string, b: string)
    requires White(a) && White(b) && Trim(s)
    ensures Text.TrimSpace(a + s + b) == s
  {
    assert a + s + b == a + (s + b);
    TrimLeftSkips(a, s + b);
    if s == "" {
      assert s + b == b;
      TrimLeftStops(b);
    } else {
      TrimLeftStops(s + b);
      TrimRightSkips(s, b);
    }
  }

  lemma TrimmedIs(a: string, s: string, b: string)
    requires White(a) && White(b) && Trim(s) && !Terminated(a + s + b)
    ensures TrimmedLine(a + s + b) == s && TrimmedLine(a + s + b + "\n") == s
  {
    var line := a + s + b;
    TrimSpaceIs(a, s, b);
    assert (line + "\n")[..|line + "\n"| - 1] == line && (line + "\n")[|line|] == '\n';
  }

  // ----- names

  /** a is b in any mixture of small and capital letters; the Kelvin sign passes for a k, the long s for an s. */
  ghost predicate SameLetters(a: string, b: string) {
    |a| == |b| && forall i | 0 <= i < |a| :: SameLetter(a[i], b[i])
  }

  predicate SameLetter(c: char, d: char) {
    || c == d || ('A' <= c <= 'Z' && c as int + 32 == d as int)
    || (c == '\U{212A}' && d == 'k') || (c == '\U{017F}' && d == 's')
  }

  /** Against a name of small letters that is what counts as equal. */
  lemma EqualFoldIs(a: string, b: string)
    requires forall i | 0 <= i < |b| :: 'a' <= b[i] <= 'z'
    ensures EqualFold(a, b) <==> SameLetters(a, b)
  {
    if |a| == |b| {
      forall i | 0 <= i < |a| ensures FoldChar(a[i]) == FoldChar(b[i]) <==> SameLetter(a[i], b[i]) {}
    }
  }

  // ----- headers

  function Opened(list: bool): string { if list then "[[" else "[" }

  function Closed(list: bool): string { if list then "]]" else "]" }

  /** The header, bare: its name in single or double brackets. */
  function Bracketed(list: bool, inner: string): string { Opened(list) + inner + Closed(list) }

  lemma {:induction false} BeforeIs(s: string, rest: string)
    requires '#' !in s
    ensures Text.Before(s + "#" + rest, {'#'}) == s
  {
    if s == "" {
      assert s + "#" + rest == "#" + rest;
    } else {
      assert (s + "#" + rest)[1..] == s[1..] + "#" + rest;
      BeforeIs(s[1..], rest);
    }
  }

  lemma BareHeader(list: bool, inner: string)
    requires '#' !in inner && (!list && inner != "" ==> inner[0] != '[')
    ensures HeaderName(Bracketed(list, inner)) == Some(Text.TrimSpace(inner))
    ensures Trim(Bracketed(list, inner)) && '#' !in Bracketed(list, inner)
    ensures Text.HasPrefix(Bracketed(list, inner), "[[") == list
  {
    var line := Bracketed(list, inner);
    assert !Text.IsSpace('[') && !Text.IsSpace(']');
    assert line[0] == '[' && line[|line| - 1] == ']';
    if list {
      assert line[..2] == "[[" && line[|line| - 2..] == "]]" && line[2..|line| - 2] == inner;
    } else {
      assert line[1..|line| - 1] == inner;
      assert |line| >= 2 && line[1] != '[';
    }
  }

  /** A comment behind a header is no part of it. */
  lemma CommentIsNoPart(line: string, gap: string, comment: string)
    requires Trim(line) && '#' !in line && White(gap)
    ensures HeaderName(line + gap + "#" + comment) == HeaderName(line)
  {
    assert forall i | 0 <= i < |gap| :: gap[i] != '#';
    BeforeIs(line + gap, comment);
    assert "" + line + gap == line + gap;
    TrimSpaceIs("", line, gap);
    assert (line + gap + "#" + comment)[|line + gap|] == '#';
  }

  /** What does not stand in brackets is no header. */
  lemma NoHeader(line: string)
    requires '#' !in line && (|line| < 2 || line[0] != '[' || line[|line| - 1] != ']')
    ensures HeaderName(line) == None
  {
  }

  /** A line holds a header alone, or with a comment behind it. */
  ghost predicate HeaderLine(list: bool, inner: string, gap: string, comment: Option<string>, s: string) {
    && '#' !in inner && White(gap) && (!list && inner != "" ==> inner[0] != '[')
    && s == Bracketed(list, inner) + match comment case None => "" case Some(c) => gap + "#" + c
  }

  lemma HeaderLineIs(list: bool, inner: string, gap: string, comment: Option<string>, s: string)
    requires HeaderLine(list, inner, gap, comment, s)
    ensures HeaderName(s) == Some(Text.TrimSpace(inner)) && Text.HasPrefix(s, "[[") == list
  {
    var line := Bracketed(list, inner);
    BareHeader(list, inner);
    match comment
    case None => assert line + "" == line;
    case Some(c) =>
      assert s == line + gap + "#" + c;
      CommentIsNoPart(line, gap, c);
      assert s[..|line|] == line && |line| >= 2 && s[..2] == line[..2];
  }

  /** A line with white space around, and a newline or none at its end, is a header of the section exactly when its
      brackets are the section's, single or double, and what they hold is its name, in any mixture of letters. */
  lemma NamedExactly(t: Target, a: string, s: string, b: string, list: bool, inner: string, name: string, gap: string,
                     comment: Option<string>)
    requires HeaderLine(list, inner, gap, comment, s) && White(a) && White(b) && Trim(s) && !Terminated(a + s + b)
    requires name == Text.TrimSpace(inner) && forall i | 0 <= i < |t.name| :: 'a' <= t.name[i] <= 'z'
    ensures Names(t, a + s + b) <==> list == t.list && SameLetters(name, t.name)
    ensures Names(t, a + s + b + "\n") <==> list == t.list && SameLetters(name, t.name)
    ensures IsHeader(a + s + b) && IsHeader(a + s + b + "\n")
  {
    HeaderLineIs(list, inner, gap, comment, s);
    TrimmedIs(a, s, b);
    EqualFoldIs(name, t.name);
  }

  // ----- where the blocks go

  lemma {:induction false} PastTheSection(k: Scan, s: seq<string>, rest: seq<string>)
    requires (forall l | l in s :: !k.header(l)) && (rest != [] ==> k.header(rest[0]))
    ensures FromHeader(k, s + rest) == rest
  {
    if s == [] {
      assert s + rest == rest;
    } else {
      assert (s + rest)[1..] == s[1..] + rest;
      PastTheSection(k, s[1..], rest);
    }
  }

  /** One section, its header and the lines up to the next header, is taken out; the lines before it stay. */
  lemma {:induction false} SectionGoes(k: Scan, a: seq<string>, head: string, s: seq<string>, rest: seq<string>)
    requires (forall l | l in a :: !k.named(l)) && k.named(head)
    requires (forall l | l in s :: !k.header(l)) && (rest != [] ==> k.header(rest[0]))
    ensures Others(k, a + [head] + s + rest) == a + Others(k, rest)
  {
    var ls := a + [head] + s + rest;
    if a == [] {
      assert ls[0] == head && ls[1..] == s + rest;
      PastTheSection(k, s, rest);
    } else {
      assert ls[0] == a[0] && ls[1..] == a[1..] + [head] + s + rest;
      SectionGoes(k, a[1..], head, s, rest);
    }
  }

  /** The blocks take the place of the first section; those behind it go. */
  lemma BlocksTakeItsPlace(k: Scan, a: seq<string>, head: string, s: seq<string>, rest: seq<string>,
                           blocks: seq<string>)
    requires (forall l | l in a :: !k.named(l)) && k.named(head)
    requires (forall l | l in s :: !k.header(l)) && (rest != [] ==> k.header(rest[0]))
    ensures RewrittenLines(k, a + [head] + s + rest, blocks) == a + blocks + Others(k, rest)
  {
    var ls := a + [head] + s + rest;
    assert ls[|a|] == head;
    forall j | 0 <= j < |a| ensures !k.named(ls[j]) { assert ls[j] == a[j] && a[j] in a; }
    FirstNamedIs(k, ls, |a|);
    assert ls[..|a|] == a && ls[|a| + 1..] == s + rest;
    PastTheSection(k, s, rest);
    ReplacedParts(k, ls, blocks);
  }

  /** A file without the section gets the blocks at its end, behind an empty line if its last one is not blank. */
  lemma BlocksGoToTheEnd(t: Target, ls: seq<string>, blocks: seq<string>)
    requires (forall l | l in ls :: !Names(t, l)) && blocks != []
    ensures RewrittenLines(ScanFor(t), ls, blocks)
            == if ls == [] || White(ls[|ls| - 1]) then ls + blocks else ls + ["\n"] + blocks
  {
    if ls != [] { BlankIsSpaces(ls[|ls| - 1]); }
    assert ls + [] == ls;
  }

  /** Without blocks the sections are only taken out. */
  lemma NothingToPlace(k: Scan, ls: seq<string>)
    ensures RewrittenLines(k, ls, []) == Others(k, ls)
  {
    if HasTable(k, ls) {
      FirstNamedExists(k, ls);
      ReplacedParts(k, ls, []);
      assert [] + Behind(k, ls) == Behind(k, ls);
    } else {
      WithoutTable(k, ls, [], false);
    }
  }
}
