/** A TOML file as its lines, and which of them are section headers (internal/config/mirror_save.go). */
module TableLines {
  import opened Wrappers
  import Text

  /** The end of the first line of s: just past its newline, or the end of s. */
  function LineEnd(s: string): (n: nat)
    ensures n <= |s| && (s != "" ==> 0 < n)
    ensures forall i | 0 <= i < n - 1 :: s[i] != '\n'
    ensures n < |s| ==> 0 < n && s[n - 1] == '\n'
  {
    if s == "" then 0 else if s[0] == '\n' then 1 else 1 + LineEnd(s[1..])
  }

  /** `splitLines`: every line with its newline; no empty last line. */
  function Lines(s: string): seq<string> {
    if s == "" then [] else [s[..LineEnd(s)]] + Lines(s[LineEnd(s)..])
  }

  /** `strings.Join(lines, "")`. */
  function Join(ls: seq<string>): string {
    if ls == [] then "" else ls[0] + Join(ls[1..])
  }

  predicate Terminated(l: string) { l != "" && l[|l| - 1] == '\n' }

  /** A non-empty piece of text whose only newline, if any, is at its end. */
  predicate IsLine(l: string) { l != "" && forall i | 0 <= i < |l| - 1 :: l[i] != '\n' }

  /** Lines such that only the last may lack its newline. */
  predicate Proper(ls: seq<string>) {
    && (forall i | 0 <= i < |ls| :: IsLine(ls[i]))
    && (forall i | 0 <= i < |ls| - 1 :: Terminated(ls[i]))
  }

  lemma {:induction false} LinesAreProper(s: string)
    ensures Proper(Lines(s)) && Join(Lines(s)) == s
  {
    if s != "" {
      LinesAreProper(s[LineEnd(s)..]);
      assert s == s[..LineEnd(s)] + s[LineEnd(s)..];
      assert Lines(s)[1..] == Lines(s[LineEnd(s)..]);
      if LineEnd(s) == |s| { assert Lines(s[LineEnd(s)..]) == []; }
    }
  }

  lemma LineEndOf(l: string, rest: string)
    requires IsLine(l) && (Terminated(l) || rest == "")
    ensures LineEnd(l + rest) == |l|
  {
    var n := LineEnd(l + rest);
    if Terminated(l) { assert (l + rest)[|l| - 1] == '\n'; }
    assert forall i | 0 <= i < |l| :: (l + rest)[i] == l[i];
  }

  lemma {:induction false} LinesOfJoin(ls: seq<string>)
    requires Proper(ls)
    ensures Lines(Join(ls)) == ls
  {
    if ls != [] {
      LinesOfJoin(ls[1..]);
      var rest := Join(ls[1..]);
      assert |ls| > 1 ==> Terminated(ls[0]);
      LineEndOf(ls[0], rest);
      assert (ls[0] + rest)[..|ls[0]|] == ls[0] && (ls[0] + rest)[|ls[0]|..] == rest;
    }
  }

  lemma {:induction false} JoinConcat(a: seq<string>, b: seq<string>)
    ensures Join(a + b) == Join(a) + Join(b)
  {
    if a == [] {
      assert a + b == b;
    } else {
      assert (a + b)[1..] == a[1..] + b;
      JoinConcat(a[1..], b);
      assert (a[0] + Join(a[1..])) + Join(b) == a[0] + (Join(a[1..]) + Join(b));
    }
  }

  // ----- headers

  function TrimmedLine(line: string): string {
    Text.TrimSpace(if Terminated(line) then line[..|line| - 1] else line)
  }

  /** `tableHeaderName` of an already trimmed line: a trailing comment is not part of the header. */
  function HeaderName(trimmed: string): Option<string> {
    var line := if '#' in trimmed then Text.TrimSpace(Text.Before(trimmed, {'#'})) else trimmed;
    if Text.HasPrefix(line, "[[") && Text.HasSuffix(line, "]]") && |line| >= 4 then
      Some(Text.TrimSpace(line[2..|line| - 2]))
    else if Text.HasPrefix(line, "[") && Text.HasSuffix(line, "]") && |line| >= 2 then
      Some(Text.TrimSpace(line[1..|line| - 1]))
    else None
  }

  predicate IsHeader(line: string) { HeaderName(TrimmedLine(line)).Some? }

  predicate IsArrayHeader(line: string) { Text.HasPrefix(TrimmedLine(line), "[[") }

  /** One letter as `strings.EqualFold` compares it with the letters of an ASCII name. */
  function FoldChar(c: char): char {
    if 'A' <= c <= 'Z' then c - 'A' + 'a' else if c == '\U{212A}' then 'k' else if c == '\U{017F}' then 's' else c
  }

  predicate EqualFold(a: string, b: string) {
    |a| == |b| && forall i | 0 <= i < |a| :: FoldChar(a[i]) == FoldChar(b[i])
  }

  /** The sections a save is about: a table, or an array of tables. */
  datatype Target = Target(name: string, list: bool)

  predicate Names(t: Target, line: string) {
    IsHeader(line) && EqualFold(HeaderName(TrimmedLine(line)).value, t.name) && IsArrayHeader(line) == t.list
  }

  /** `strings.TrimSpace(line) == ""`. */
  predicate Blank(line: string) { Text.TrimSpace(line) == "" }

  lemma {:induction false} TrimLeftBlank(s: string)
    ensures Text.TrimLeft(s) == "" <==> forall i | 0 <= i < |s| :: Text.IsSpace(s[i])
  {
    if s != "" && Text.IsSpace(s[0]) {
      TrimLeftBlank(s[1..]);
      assert forall i | 1 <= i < |s| :: s[i] == s[1..][i - 1];
    }
  }

  lemma {:induction false} TrimRightKeeps(s: string)
    ensures s != "" && !Text.IsSpace(s[0]) ==> Text.TrimRight(s) != ""
    ensures |Text.TrimRight(s)| <= |s|
  {
    if s != "" && Text.IsSpace(s[|s| - 1]) { TrimRightKeeps(s[..|s| - 1]); }
  }

  lemma {:induction false} TrimLeftFront(s: string)
    ensures Text.TrimLeft(s) != "" ==> !Text.IsSpace(Text.TrimLeft(s)[0])
  {
    if s != "" && Text.IsSpace(s[0]) { TrimLeftFront(s[1..]); }
  }

  /** A blank line is all white space. */
  lemma BlankIsSpaces(s: string)
    ensures Blank(s) <==> forall i | 0 <= i < |s| :: Text.IsSpace(s[i])
  {
    TrimLeftBlank(s);
    TrimLeftFront(s);
    TrimRightKeeps(Text.TrimLeft(s));
  }

  lemma {:induction false} TrimLeftSkips(x: string, s: string)
    requires forall i | 0 <= i < |x| :: Text.IsSpace(x[i])
    ensures Text.TrimLeft(x + s) == Text.TrimLeft(s)
  {
    if x == "" {
      assert x + s == s;
    } else {
      TrimLeftSkips(x[1..], s);
      assert (x + s)[1..] == x[1..] + s;
    }
  }

  /** White space in front of a line does not change which header it is. */
  lemma LeadingSpace(t: Target, x: string, line: string)
    requires Blank(x) && line != ""
    ensures IsHeader(x + line) == IsHeader(line) && Names(t, x + line) == Names(t, line)
  {
    BlankIsSpaces(x);
    var bare := if Terminated(line) then line[..|line| - 1] else line;
    assert (x + line)[|x + line| - 1] == line[|line| - 1];
    assert (if Terminated(x + line) then (x + line)[..|x + line| - 1] else x + line) == x + bare;
    TrimLeftSkips(x, bare);
    assert TrimmedLine(x + line) == TrimmedLine(line);
  }

  /** A missing newline at the end does not change which header a line is. */
  lemma TrailingNewline(t: Target, x: string)
    requires x != "" && !Terminated(x)
    ensures IsHeader(x + "\n") == IsHeader(x) && Names(t, x + "\n") == Names(t, x)
  {
    assert (x + "\n")[..|x + "\n"| - 1] == x;
    assert TrimmedLine(x + "\n") == TrimmedLine(x);
  }
}
