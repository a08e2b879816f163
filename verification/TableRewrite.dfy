/** Replacing one kind of section in an operator's file (internal/config/mirror_save.go, `rewriteTable`).

  The line-level part knows only which lines are headers and which of them name the section.
*/
module TableRewrite {
  import opened Wrappers
  import opened TableLines
  import Text

  datatype Scan = Scan(header: string -> bool, named: string -> bool, blank: string -> bool)

  ghost predicate Sensible(k: Scan) { forall l :: k.named(l) ==> k.header(l) }

  function ScanFor(t: Target): Scan { Scan(IsHeader, l => Names(t, l), Blank) }

  /** `hasTable`, on lines. */
  predicate HasTable(k: Scan, ls: seq<string>) { exists i :: 0 <= i < |ls| && k.named(ls[i]) }

  /** What is left of the lines from the next header on. */
  function FromHeader(k: Scan, ls: seq<string>): (r: seq<string>)
    ensures |r| <= |ls|
  {
    if ls == [] || k.header(ls[0]) then ls else FromHeader(k, ls[1..])
  }

  lemma {:induction false} FromHeaderIsSuffix(k: Scan, ls: seq<string>)
    ensures var r := FromHeader(k, ls); r == ls[|ls| - |r|..] && (r != [] ==> k.header(r[0]))
  {
    if ls != [] && !k.header(ls[0]) {
      FromHeaderIsSuffix(k, ls[1..]);
      var r := FromHeader(k, ls[1..]);
      assert ls[1..][|ls[1..]| - |r|..] == ls[|ls| - |r|..];
    }
  }

  /** Every line outside the named sections, in order. */
  function Others(k: Scan, ls: seq<string>): seq<string>
    decreases |ls|
  {
    if ls == [] then []
    else if k.named(ls[0]) then Others(k, FromHeader(k, ls[1..]))
    else [ls[0]] + Others(k, ls[1..])
  }

  /** The lines with the named sections replaced: all of them by `blocks` in the place of the first. */
  function Replaced(k: Scan, ls: seq<string>, blocks: seq<string>, placed: bool): seq<string>
    decreases |ls|
  {
    if ls == [] then []
    else if k.named(ls[0]) then
      (if placed then [] else blocks) + Replaced(k, FromHeader(k, ls[1..]), blocks, true)
    else [ls[0]] + Replaced(k, ls[1..], blocks, placed)
  }

  /** A file without the section gets it at its end, after an empty line unless its last line is blank. */
  function Separator(k: Scan, ls: seq<string>): seq<string> {
    if ls != [] && !k.blank(ls[|ls| - 1]) then ["\n"] else []
  }

  function RewrittenLines(k: Scan, ls: seq<string>, blocks: seq<string>): seq<string> {
    if HasTable(k, ls) || blocks == [] then Replaced(k, ls, blocks, false) else ls + Separator(k, ls) + blocks
  }

  function Rewritten(k: Scan, body: string, blocks: seq<string>): string {
    Join(RewrittenLines(k, Lines(body), blocks))
  }

  // ----- the code

  /** The inner loop: past everything up to the next header. */
  method SkipSection(k: Scan, lines: seq<string>, start: nat) returns (i: nat)
    requires start <= |lines|
    ensures start <= i <= |lines| && lines[i..] == FromHeader(k, lines[start..])
  {
    i := start;
    while i < |lines| && !k.header(lines[i])
      invariant start <= i <= |lines|
      invariant FromHeader(k, lines[start..]) == FromHeader(k, lines[i..])
    {
      assert lines[i..][1..] == lines[i + 1..];
      i := i + 1;
    }
  }

  /** `rewriteTable`. */
  method RewriteTable(t: Target, body: string, blocks: seq<string>) returns (text: string)
    ensures text == Rewritten(ScanFor(t), body, blocks)
  {
    var out := ReplaceSections(ScanFor(t), Lines(body), blocks);
    text := Join(out);
  }

  method ReplaceSections(k: Scan, lines: seq<string>, blocks: seq<string>) returns (out: seq<string>)
    ensures out == RewrittenLines(k, lines, blocks)
  {
    var placed;
    out, placed := ReplaceLoop(k, lines, blocks);
    if !placed && |blocks| > 0 {
      WithoutTable(k, lines, blocks, false);
      if |out| > 0 && !k.blank(out[|out| - 1]) {
        out := out + ["\n"];
      }
      out := out + blocks;
    }
  }

  /** The outer loop. */
  method ReplaceLoop(k: Scan, lines: seq<string>, blocks: seq<string>) returns (out: seq<string>, placed: bool)
    ensures out == Replaced(k, lines, blocks, false) && placed == HasTable(k, lines)
  {
    out, placed := [], false;
    var i := 0;
    while i < |lines|
      invariant 0 <= i <= |lines| && Midway(k, lines, blocks, i, out, placed)
    {
      i, out, placed := ReplaceOne(k, lines, blocks, i, out, placed);
    }
  }

  /** What is written so far, and what the rest will add, make up the whole. */
  ghost predicate Midway(k: Scan, lines: seq<string>, blocks: seq<string>, i: nat, out: seq<string>, placed: bool)
    requires i <= |lines|
  {
    && out + Replaced(k, lines[i..], blocks, placed) == Replaced(k, lines, blocks, false)
    && (if placed then HasTable(k, lines) else forall j | 0 <= j < i :: !k.named(lines[j]))
  }

  /** The body of the outer loop. */
  method ReplaceOne(k: Scan, lines: seq<string>, blocks: seq<string>, i: nat, out: seq<string>, placed: bool)
    returns (i': nat, out': seq<string>, placed': bool)
    requires i < |lines| && Midway(k, lines, blocks, i, out, placed)
    ensures i < i' <= |lines| && Midway(k, lines, blocks, i', out', placed')
  {
    assert lines[i..][0] == lines[i] && lines[i..][1..] == lines[i + 1..];
    out', placed' := out, placed;
    if k.named(lines[i]) {
      i' := SkipSection(k, lines, i + 1);
      if !placed {
        Concat3(out, blocks, Replaced(k, lines[i'..], blocks, true));
        out' := out + blocks;
        placed' := true;
      }
    } else {
      Concat3(out, [lines[i]], Replaced(k, lines[i + 1..], blocks, placed));
      out' := out + [lines[i]];
      i' := i + 1;
    }
  }

  lemma Concat3<T>(a: seq<T>, b: seq<T>, c: seq<T>)
    ensures a + b + c == a + (b + c)
  {
  }

  // ----- what a rewrite leaves alone

  /** What a save writes: nothing, or whole lines, the first a header of the section and every header one of it. */
  ghost predicate Good(k: Scan, blocks: seq<string>) {
    && (forall i | 0 <= i < |blocks| :: IsLine(blocks[i]) && Terminated(blocks[i]))
    && (forall i | 0 <= i < |blocks| && k.header(blocks[i]) :: k.named(blocks[i]))
    && (blocks != [] ==> k.named(blocks[0]))
  }

  /** Lines that can follow a section without becoming part of it. */
  ghost predicate Follows(k: Scan, ls: seq<string>) { !HasTable(k, ls) && (ls != [] ==> k.header(ls[0])) }

  lemma {:induction false} WithoutTable(k: Scan, ls: seq<string>, blocks: seq<string>, placed: bool)
    requires !HasTable(k, ls)
    ensures Replaced(k, ls, blocks, placed) == ls && Others(k, ls) == ls
  {
    if ls != [] {
      assert !k.named(ls[0]);
      forall i | 0 <= i < |ls| - 1 ensures !k.named(ls[1..][i]) { assert ls[1..][i] == ls[i + 1]; }
      WithoutTable(k, ls[1..], blocks, placed);
    }
  }

  lemma PrependKeeps(k: Scan, l: string, ls: seq<string>)
    requires !k.named(l) && !HasTable(k, ls)
    ensures !HasTable(k, [l] + ls)
  {
    assert forall i | 0 < i < |[l] + ls| :: ([l] + ls)[i] == ls[i - 1];
  }

  lemma {:induction false} OthersHaveNoTable(k: Scan, ls: seq<string>)
    ensures !HasTable(k, Others(k, ls))
    ensures Sensible(k) && (ls != [] ==> k.header(ls[0])) ==> Follows(k, Others(k, ls))
    decreases |ls|
  {
    if ls != [] {
      if k.named(ls[0]) {
        FromHeaderIsSuffix(k, ls[1..]);
        OthersHaveNoTable(k, FromHeader(k, ls[1..]));
      } else {
        OthersHaveNoTable(k, ls[1..]);
        PrependKeeps(k, ls[0], Others(k, ls[1..]));
      }
    }
  }

  /** Once the blocks are placed the rest is just the other lines. */
  lemma {:induction false} ReplacedIsOthers(k: Scan, ls: seq<string>, blocks: seq<string>)
    ensures Replaced(k, ls, blocks, true) == Others(k, ls)
    decreases |ls|
  {
    if ls != [] {
      ReplacedIsOthers(k, if k.named(ls[0]) then FromHeader(k, ls[1..]) else ls[1..], blocks);
    }
  }

  /** The first line that names the section, |ls| if there is none. */
  function FirstNamed(k: Scan, ls: seq<string>): (i: nat)
    ensures i <= |ls|
  {
    if ls == [] || k.named(ls[0]) then 0 else 1 + FirstNamed(k, ls[1..])
  }

  lemma {:induction false} FirstNamedIs(k: Scan, ls: seq<string>, i: nat)
    requires i <= |ls| && (i < |ls| ==> k.named(ls[i])) && forall j | 0 <= j < i :: !k.named(ls[j])
    ensures FirstNamed(k, ls) == i
  {
    if i > 0 {
      forall j | 0 <= j < i - 1 ensures !k.named(ls[1..][j]) { assert ls[1..][j] == ls[j + 1]; }
      FirstNamedIs(k, ls[1..], i - 1);
    }
  }

  lemma {:induction false} FirstNamedExists(k: Scan, ls: seq<string>)
    requires HasTable(k, ls)
    ensures var i := FirstNamed(k, ls); i < |ls| && k.named(ls[i]) && !HasTable(k, ls[..i])
  {
    if !k.named(ls[0]) {
      var j :| 0 <= j < |ls| && k.named(ls[j]);
      assert ls[1..][j - 1] == ls[j];
      FirstNamedExists(k, ls[1..]);
      var i := FirstNamed(k, ls[1..]);
      PrependKeeps(k, ls[0], ls[1..][..i]);
      assert ls[..i + 1] == [ls[0]] + ls[1..][..i];
    }
  }

  /** The other lines after the first section. */
  function Behind(k: Scan, ls: seq<string>): seq<string>
    requires FirstNamed(k, ls) < |ls|
  {
    Others(k, FromHeader(k, ls[FirstNamed(k, ls) + 1..]))
  }

  /** Where a section exists: the lines before it, the blocks, and the other lines behind it. */
  lemma {:induction false} ReplacedParts(k: Scan, ls: seq<string>, blocks: seq<string>)
    requires FirstNamed(k, ls) < |ls|
    ensures Replaced(k, ls, blocks, false) == ls[..FirstNamed(k, ls)] + (blocks + Behind(k, ls))
    ensures Others(k, ls) == ls[..FirstNamed(k, ls)] + Behind(k, ls)
  {
    var i := FirstNamed(k, ls);
    if k.named(ls[0]) {
      ReplacedIsOthers(k, FromHeader(k, ls[1..]), blocks);
    } else {
      ReplacedParts(k, ls[1..], blocks);
      assert ls[1..][i..] == ls[i + 1..];
      assert ls[..i] == [ls[0]] + ls[1..][..i - 1];
      assert Behind(k, ls) == Behind(k, ls[1..]);
      Concat3([ls[0]], ls[1..][..i - 1], blocks + Behind(k, ls));
      Concat3([ls[0]], ls[1..][..i - 1], Behind(k, ls));
    }
  }

  /** The lines of a section are skipped up to what follows it. */
  lemma {:induction false} SkipBlocks(k: Scan, bs: seq<string>, c: seq<string>)
    requires Follows(k, c) && forall i | 0 <= i < |bs| && k.header(bs[i]) :: k.named(bs[i])
    ensures Others(k, FromHeader(k, bs + c)) == c
  {
    if bs == [] {
      assert bs + c == c;
      WithoutTable(k, c, [], false);
    } else {
      assert (bs + c)[1..] == bs[1..] + c;
      SkipBlocks(k, bs[1..], c);
    }
  }

  /** Lines of a section, first one first, with others around it. */
  ghost predicate Section(k: Scan, bs: seq<string>) {
    bs != [] && k.named(bs[0]) && forall i | 0 <= i < |bs| && k.header(bs[i]) :: k.named(bs[i])
  }

  /** Rewriting a text that holds the section once, in one run of lines. */
  lemma RewriteSection(k: Scan, a: seq<string>, bs: seq<string>, c: seq<string>, blocks: seq<string>)
    requires !HasTable(k, a) && Section(k, bs) && Follows(k, c)
    ensures RewrittenLines(k, a + (bs + c), blocks) == a + (blocks + c)
    ensures Others(k, a + (bs + c)) == a + c && HasTable(k, a + (bs + c))
  {
    var ls := a + (bs + c);
    assert ls[|a|] == bs[0];
    forall j | 0 <= j < |a| ensures !k.named(ls[j]) { assert ls[j] == a[j]; }
    FirstNamedIs(k, ls, |a|);
    assert ls[..|a|] == a && ls[|a| + 1..] == bs[1..] + c;
    SkipBlocks(k, bs[1..], c);
    ReplacedParts(k, ls, blocks);
  }

  ghost predicate AllEnded(ls: seq<string>) { forall i | 0 <= i < |ls| :: Terminated(ls[i]) }

  /** The other lines are lines as good as the ones they were taken from. */
  lemma {:induction false} OthersStayProper(k: Scan, ls: seq<string>)
    requires Proper(ls)
    ensures Proper(Others(k, ls)) && (AllEnded(ls) ==> AllEnded(Others(k, ls)))
    decreases |ls|
  {
    if ls != [] {
      if k.named(ls[0]) {
        FromHeaderIsSuffix(k, ls[1..]);
        OthersStayProper(k, FromHeader(k, ls[1..]));
      } else {
        OthersStayProper(k, ls[1..]);
        var rest := Others(k, ls[1..]);
        assert rest != [] ==> |ls| > 1;
      }
    }
  }

  /** The lines before a section. */
  lemma FrontParts(k: Scan, ls: seq<string>, i: nat)
    requires Proper(ls) && HasTable(k, ls) && i == FirstNamed(k, ls) < |ls|
    ensures !HasTable(k, ls[..i]) && AllEnded(ls[..i]) && Proper(ls[..i])
  {
    FirstNamedExists(k, ls);
  }

  /** The lines left of those behind its header. */
  lemma RestParts(k: Scan, rest: seq<string>)
    requires Sensible(k) && Proper(rest)
    ensures var c := Others(k, FromHeader(k, rest));
            Follows(k, c) && Proper(c) && (AllEnded(rest) ==> AllEnded(c))
  {
    var from := FromHeader(k, rest);
    FromHeaderIsSuffix(k, rest);
    OthersHaveNoTable(k, from);
    OthersStayProper(k, from);
  }

  /** The parts of the result, when the file has the section already. */
  lemma PresentParts(k: Scan, ls: seq<string>, blocks: seq<string>) returns (a: seq<string>, c: seq<string>)
    requires Sensible(k) && Proper(ls) && HasTable(k, ls)
    ensures RewrittenLines(k, ls, blocks) == a + (blocks + c) && Others(k, ls) == a + c
    ensures !HasTable(k, a) && Follows(k, c) && AllEnded(a) && Proper(a) && Proper(c)
    ensures AllEnded(ls) ==> AllEnded(c)
  {
    FirstNamedExists(k, ls);
    var i := FirstNamed(k, ls);
    a, c := ls[..i], Behind(k, ls);
    ReplacedParts(k, ls, blocks);
    FrontParts(k, ls, i);
    RestParts(k, ls[i + 1..]);
  }

  lemma ProperJoin(a: seq<string>, b: seq<string>)
    requires Proper(a) && AllEnded(a) && Proper(b)
    ensures Proper(a + b) && (AllEnded(b) ==> AllEnded(a + b))
  {
  }

  // ----- the promises, on whole texts

  /** The last line has its newline. */
  predicate WellEnded(body: string) { body == "" || Terminated(body) }

  /** White space after the last newline. */
  predicate BlankTail(k: Scan, body: string) {
    var ls := Lines(body);
    ls != [] && !Terminated(ls[|ls| - 1]) && k.blank(ls[|ls| - 1])
  }

  lemma {:induction false} LastLine(body: string)
    requires body != ""
    ensures Lines(body) != [] && (Terminated(Lines(body)[|Lines(body)| - 1]) <==> Terminated(body))
  {
    var n := LineEnd(body);
    if n < |body| {
      LastLine(body[n..]);
      TailTerminated(body, n);
      LastOfCons(body[..n], Lines(body[n..]));
    } else {
      assert body[..n] == body && Lines(body[n..]) == [];
    }
  }

  lemma TailTerminated(body: string, n: nat)
    requires n < |body|
    ensures Terminated(body[n..]) <==> Terminated(body)
  {
    assert body[n..][|body| - n - 1] == body[|body| - 1];
  }

  lemma LastOfCons(head: string, rest: seq<string>)
    requires rest != []
    ensures ([head] + rest)[|[head] + rest| - 1] == rest[|rest| - 1]
  {
  }

  lemma EndedLines(body: string)
    ensures Proper(Lines(body)) && (WellEnded(body) <==> AllEnded(Lines(body)))
  {
    LinesAreProper(body);
    if body != "" { LastLine(body); }
  }

  /** What a rewrite promises. */
  ghost predicate Keeps(k: Scan, body: string, blocks: seq<string>) {
    var ls, text := Lines(body), Rewritten(k, body, blocks);
    && (Others(k, Lines(text)) == Others(k, ls)
        || (Others(k, Lines(text)) == Others(k, ls) + ["\n"] && blocks != [] && !HasTable(k, ls)))
    && (HasTable(k, Lines(text)) <==> blocks != [])
    && Rewritten(k, text, blocks) == text
    && (WellEnded(body) ==> WellEnded(text))
  }

  lemma PresentKeeps(k: Scan, body: string, blocks: seq<string>)
    requires Sensible(k) && Good(k, blocks) && HasTable(k, Lines(body)) && blocks != []
    ensures Keeps(k, body, blocks)
  {
    EndedLines(body);
    var a, c := PresentParts(k, Lines(body), blocks);
    ProperJoin(blocks, c);
    ProperJoin(a, blocks + c);
    LinesOfJoin(a + (blocks + c));
    RewriteSection(k, a, blocks, c, blocks);
    EndedLines(Rewritten(k, body, blocks));
  }

  lemma RemovalKeeps(k: Scan, body: string)
    requires Sensible(k)
    ensures Keeps(k, body, [])
  {
    EndedLines(body);
    var ls := Lines(body);
    if HasTable(k, ls) {
      var a, c := PresentParts(k, ls, []);
      assert [] + c == c;
      ProperJoin(a, c);
      LinesOfJoin(a + c);
      NoTableInBoth(k, a, c);
      WithoutTable(k, a + c, [], false);
      EndedLines(Rewritten(k, body, []));
    } else {
      WithoutTable(k, ls, [], false);
      LinesAreProper(body);
    }
  }

  lemma NoTableInBoth(k: Scan, a: seq<string>, c: seq<string>)
    requires !HasTable(k, a) && !HasTable(k, c)
    ensures !HasTable(k, a + c)
  {
    assert forall i | 0 <= i < |a + c| :: (a + c)[i] == if i < |a| then a[i] else c[i - |a|];
  }

  /** A section appended to a file that ends its last line. */
  lemma AppendKeeps(k: Scan, body: string, blocks: seq<string>)
    requires Good(k, blocks) && !HasTable(k, Lines(body)) && blocks != [] && WellEnded(body) && !k.named("\n")
    ensures Keeps(k, body, blocks)
  {
    EndedLines(body);
    var ls := Lines(body);
    WithoutTable(k, ls, blocks, false);
    var a := ls + Separator(k, ls);
    NoTableInBoth(k, ls, Separator(k, ls));
    ProperJoin(ls, Separator(k, ls));
    ProperJoin(a, blocks);
    LinesOfJoin(a + blocks);
    assert a + blocks == a + (blocks + []);
    RewriteSection(k, a, blocks, [], blocks);
    assert a + [] == a;
    EndedLines(Rewritten(k, body, blocks));
  }

  // ----- files whose last line lacks its newline

  /** Gluing x in front of the first of some lines leaves the same text. */
  lemma Glue(pre: seq<string>, x: string, first: string, rest: seq<string>)
    ensures Join(pre + [x] + ([first] + rest)) == Join(pre + ([x + first] + rest))
            == Join(pre) + x + Join([first] + rest)
  {
    JoinConcat(pre + [x], [first] + rest);
    JoinConcat(pre, [x]);
    JoinConcat(pre, [x + first] + rest);
    assert [x][1..] == [] && ([x + first] + rest)[1..] == rest && ([first] + rest)[1..] == rest;
    assert Join([x + first] + rest) == x + Join([first] + rest) by {
      assert (x + first) + Join(rest) == x + (first + Join(rest));
    }
  }

  /** The lines before an unended last one, and that one. */
  lemma UnendedParts(body: string) returns (pre: seq<string>, x: string)
    requires !WellEnded(body)
    ensures Lines(body) == pre + [x] && Proper(pre) && AllEnded(pre) && IsLine(x) && !Terminated(x)
  {
    LinesAreProper(body);
    LastLine(body);
    pre, x := FrontAndLast(Lines(body));
  }

  lemma FrontAndLast(ls: seq<string>) returns (pre: seq<string>, x: string)
    requires Proper(ls) && ls != []
    ensures ls == pre + [x] && Proper(pre) && AllEnded(pre) && IsLine(x) && x == ls[|ls| - 1]
  {
    pre, x := ls[..|ls| - 1], ls[|ls| - 1];
  }

  /** A last line with something on it but no newline: the separator becomes its newline, and the result is stable. */
  lemma UnendedLineIsStable(k: Scan, body: string, pre: seq<string>, x: string, blocks: seq<string>)
    requires Good(k, blocks) && !HasTable(k, Lines(body)) && blocks != [] && !k.blank(x) && !k.named(x + "\n")
    requires Lines(body) == pre + [x] && Proper(pre) && AllEnded(pre) && IsLine(x) && !Terminated(x)
    ensures Rewritten(k, Rewritten(k, body, blocks), blocks) == Rewritten(k, body, blocks)
  {
    var a := pre + [x + "\n"];
    UnendedText(k, body, pre, x, blocks);
    NoTableBefore(k, pre, x);
    NoTableInBoth(k, pre, [x + "\n"]);
    ProperJoin(pre, [x + "\n"]);
    AppendedIsStable(k, a, blocks);
  }

  lemma NoTableBefore(k: Scan, pre: seq<string>, x: string)
    requires !HasTable(k, pre + [x])
    ensures !HasTable(k, pre) && !k.named(x)
  {
    var ls := pre + [x];
    assert ls[|pre|] == x && forall i | 0 <= i < |pre| :: ls[i] == pre[i];
  }

  lemma UnendedText(k: Scan, body: string, pre: seq<string>, x: string, blocks: seq<string>)
    requires !HasTable(k, Lines(body)) && blocks != [] && !k.blank(x) && Lines(body) == pre + [x]
    ensures Rewritten(k, body, blocks) == Join(pre + [x + "\n"] + blocks)
  {
    var ls := Lines(body);
    assert ls[|ls| - 1] == x;
    assert RewrittenLines(k, ls, blocks) == pre + [x] + (["\n"] + blocks);
    Glue(pre, x, "\n", blocks);
    assert pre + ([x + "\n"] + blocks) == pre + [x + "\n"] + blocks;
  }

  /** A section at the end of ended lines is replaced by itself. */
  lemma AppendedIsStable(k: Scan, a: seq<string>, blocks: seq<string>)
    requires Good(k, blocks) && blocks != [] && !HasTable(k, a) && Proper(a) && AllEnded(a)
    ensures Rewritten(k, Join(a + blocks), blocks) == Join(a + blocks)
  {
    ProperJoin(a, blocks);
    LinesOfJoin(a + blocks);
    assert a + blocks == a + (blocks + []);
    RewriteSection(k, a, blocks, [], blocks);
  }

  /** White space after the last newline ends up in front of the new header, and a second rewrite takes it away. */
  lemma BlankTailIsNotStable(k: Scan, body: string, pre: seq<string>, x: string, blocks: seq<string>)
    requires Good(k, blocks) && !HasTable(k, Lines(body)) && blocks != [] && k.blank(x) && k.named(x + blocks[0])
    requires Lines(body) == pre + [x] && Proper(pre) && AllEnded(pre) && IsLine(x) && !Terminated(x)
    ensures Rewritten(k, body, blocks) == Join(pre) + x + Join(blocks)
    ensures Rewritten(k, Rewritten(k, body, blocks), blocks) == Join(pre) + Join(blocks)
    ensures |Rewritten(k, Rewritten(k, body, blocks), blocks)| < |Rewritten(k, body, blocks)|
  {
    var head, rest := blocks[0], blocks[1..];
    var glued := [x + head] + rest;
    BlankTailText(k, body, pre, x, blocks);
    NoTableBefore(k, pre, x);
    GluedIsProper(k, pre, x, blocks);
    LinesOfJoin(pre + glued);
    SectionGivesWay(k, pre, glued, blocks);
    JoinConcat(pre, blocks);
    assert x != "" && [head] + rest == blocks;
    Glue(pre, x, head, rest);
  }

  lemma BlankTailText(k: Scan, body: string, pre: seq<string>, x: string, blocks: seq<string>)
    requires !HasTable(k, Lines(body)) && blocks != [] && k.blank(x) && Lines(body) == pre + [x]
    ensures Rewritten(k, body, blocks) == Join(pre + ([x + blocks[0]] + blocks[1..]))
  {
    var ls := Lines(body);
    assert ls[|ls| - 1] == x;
    assert RewrittenLines(k, ls, blocks) == pre + [x] + ([blocks[0]] + blocks[1..]);
    Glue(pre, x, blocks[0], blocks[1..]);
  }

  lemma GluedIsProper(k: Scan, pre: seq<string>, x: string, blocks: seq<string>)
    requires Good(k, blocks) && blocks != [] && k.named(x + blocks[0])
    requires Proper(pre) && AllEnded(pre) && IsLine(x) && !Terminated(x)
    ensures Proper(pre + ([x + blocks[0]] + blocks[1..])) && Section(k, [x + blocks[0]] + blocks[1..])
  {
    GluedLine(x, blocks[0]);
    ProperJoin(pre, [x + blocks[0]] + blocks[1..]);
  }

  lemma SectionGivesWay(k: Scan, pre: seq<string>, bs: seq<string>, blocks: seq<string>)
    requires !HasTable(k, pre) && Section(k, bs)
    ensures RewrittenLines(k, pre + bs, blocks) == pre + blocks
  {
    assert pre + bs == pre + (bs + []) && pre + (blocks + []) == pre + blocks;
    RewriteSection(k, pre, bs, [], blocks);
  }

  lemma GluedLine(x: string, head: string)
    requires IsLine(x) && !Terminated(x) && IsLine(head) && Terminated(head)
    ensures IsLine(x + head) && Terminated(x + head)
  {
    assert forall i | 0 <= i < |x + head| :: (x + head)[i] == if i < |x| then x[i] else head[i - |x|];
  }

  // ----- the promises for tables and arrays of tables

  /** In a file that ends its last line, a rewrite keeps every line outside the named sections, in order, adding at most
      one empty line; the section is there afterwards exactly when there was something to write; a second rewrite with
      the same blocks changes nothing; and the last line is ended again. */
  lemma RewriteKeepsTheRest(t: Target, body: string, blocks: seq<string>)
    requires Good(ScanFor(t), blocks) && WellEnded(body)
    ensures Keeps(ScanFor(t), body, blocks)
  {
    if blocks == [] {
      RemovalKeeps(ScanFor(t), body);
    } else if HasTable(ScanFor(t), Lines(body)) {
      PresentKeeps(ScanFor(t), body, blocks);
    } else {
      EmptyLineIsNoHeader(t);
      AppendKeeps(ScanFor(t), body, blocks);
    }
  }

  lemma EmptyLineIsNoHeader(t: Target)
    ensures !Names(t, "\n")
  {
    assert TrimmedLine("\n") == "";
  }

  /** A rewrite is idempotent on every file except one kind: a file without the section whose last newline is followed
      by white space alone. */
  lemma IdempotentExactly(t: Target, body: string, blocks: seq<string>)
    requires Good(ScanFor(t), blocks)
    ensures var k := ScanFor(t);
            Rewritten(k, Rewritten(k, body, blocks), blocks) == Rewritten(k, body, blocks) <==>
            HasTable(k, Lines(body)) || blocks == [] || !BlankTail(k, body)
  {
    var k := ScanFor(t);
    if blocks == [] {
      RemovalKeeps(k, body);
    } else if HasTable(k, Lines(body)) {
      PresentKeeps(k, body, blocks);
    } else if WellEnded(body) {
      RewriteKeepsTheRest(t, body, blocks);
      EndedLines(body);
    } else {
      var pre, x := UnendedParts(body);
      assert Lines(body)[|pre|] == x;
      if k.blank(x) {
        LeadingSpace(t, x, blocks[0]);
        BlankTailIsNotStable(k, body, pre, x, blocks);
      } else {
        TrailingNewline(t, x);
        UnendedLineIsStable(k, body, pre, x, blocks);
      }
    }
  }

  lemma MirrorHeader()
    ensures Names(Target("mirror", false), "[mirror]\n")
  {
    MirrorTrimmed();
    MirrorIsNamed();
  }

  lemma MirrorIsNamed()
    ensures HeaderName("[mirror]") == Some("mirror") && !Text.HasPrefix("[mirror]", "[[")
  {
    assert "[mirror]"[1..7] == "mirror" && "[mirror]"[1] == 'm' && "[mirror]"[7..] == "]";
    MirrorIsBare();
  }

  lemma MirrorIsBare()
    ensures Text.TrimSpace("mirror") == "mirror"
  {
    assert !Text.IsSpace('m') && !Text.IsSpace('r');
  }

  lemma MirrorTrimmed()
    ensures TrimmedLine("[mirror]\n") == "[mirror]"
  {
    assert "[mirror]\n"[..8] == "[mirror]";
    assert !Text.IsSpace('[') && !Text.IsSpace(']');
  }

  lemma TwoSpaces()
    ensures Lines("  ") == ["  "] && Blank("  ") && !IsHeader("  ")
  {
    BlankIsSpaces("  ");
    LineEndOf("  ", "");
    assert "  " + "" == "  " && "  "[..2] == "  " && Lines("  "[2..]) == [];
    assert TrimmedLine("  ") == "";
  }

  lemma MirrorIsGood()
    ensures Good(ScanFor(Target("mirror", false)), ["[mirror]\n"])
  {
    MirrorHeader();
    MirrorLine();
    OneLineIsGood(ScanFor(Target("mirror", false)), "[mirror]\n");
  }

  lemma MirrorLine()
    ensures IsLine("[mirror]\n") && Terminated("[mirror]\n")
  {
  }

  lemma OneLineIsGood(k: Scan, line: string)
    requires Sensible(k) && k.named(line) && IsLine(line) && Terminated(line)
    ensures Good(k, [line])
  {
  }

  /** A file of one blank line without an end: the first rewrite puts it before the header, the second takes it away. */
  lemma BlankLineComesAndGoes(k: Scan, x: string, head: string)
    requires Good(k, [head]) && Lines(x) == [x] && !HasTable(k, [x]) && k.blank(x) && k.named(x + head)
    requires IsLine(x) && !Terminated(x)
    ensures Rewritten(k, x, [head]) == x + head && Rewritten(k, x + head, [head]) == head
  {
    assert [x] == [] + [x];
    BlankTailIsNotStable(k, x, [], x, [head]);
    assert Join([head]) == head && "" + x + head == x + head && "" + head == head;
  }

  lemma TwoSpacesAreABlankLine(k: Scan)
    requires k == ScanFor(Target("mirror", false))
    ensures Lines("  ") == ["  "] && !HasTable(k, ["  "]) && k.blank("  ") && k.named("  " + "[mirror]\n")
    ensures IsLine("  ") && !Terminated("  ")
  {
    TwoSpaces();
    MirrorIsGood();
    LeadingSpace(Target("mirror", false), "  ", "[mirror]\n");
  }

  /** So two spaces become two spaces and a header, and at the next rewrite the header alone. */
  lemma TwoSpacesAreNotStable()
    ensures var k, blocks := ScanFor(Target("mirror", false)), ["[mirror]\n"];
            && Good(k, blocks) && Rewritten(k, "  ", blocks) == "  " + "[mirror]\n"
            && Rewritten(k, Rewritten(k, "  ", blocks), blocks) == "[mirror]\n" != Rewritten(k, "  ", blocks)
  {
    var k := ScanFor(Target("mirror", false));
    MirrorIsGood();
    TwoSpacesAreABlankLine(k);
    BlankLineComesAndGoes(k, "  ", "[mirror]\n");
    assert |"  " + "[mirror]\n"| > |"[mirror]\n"|;
  }
}
