/** What splitting text into words and writing a context come to, character by character (internal/audiomap/stt.go). */
module ContextLaws {
  import opened Passage
  import opened Context
  import Locator
  import Text

  // ----- words

  lemma {:induction false} NoWordsRead(l: Letters, s: string, cur: string)
    requires forall i | 0 <= i < |s| :: !l.word(s[i])
    ensures s != "" ==> Same(Run(l, s, cur), Flush(cur), "")
    ensures Same(Run(l, s, ""), [], "")
  {
    if s != "" { NoWordsRead(l, s[..|s| - 1], cur); }
  }

  /** f is the word w with each of its characters normalised. */
  predicate FoldedTo(l: Letters, w: string, f: string) {
    |f| == |w| && forall i | 0 <= i < |w| :: f[i] == l.fold(w[i])
  }

  lemma {:induction false} WordRead(l: Letters, w: string, f: string)
    requires (forall i | 0 <= i < |w| :: l.word(w[i])) && FoldedTo(l, w, f)
    ensures Same(Run(l, w, ""), [], f)
  {
    if w != "" {
      WordRead(l, w[..|w| - 1], f[..|w| - 1]);
      assert f == f[..|w| - 1] + [f[|w| - 1]];
    }
  }

  lemma GapFirst(l: Letters, c: char, more: string, cur: string)
    requires !l.word(c)
    ensures Same(Run(l, [c] + more, cur), Flush(cur) + Run(l, more, "").done, Run(l, more, "").cur)
  {
    RunOne(l, c, cur);
    RunConcat(l, [c], more, cur);
  }

  /** Behind a word a character that is none of a word closes it, and changes nothing of what follows. */
  lemma WordCloses(l: Letters, f: string, rest: string)
    requires f != "" && rest != "" && !l.word(rest[0])
    ensures Same(Run(l, rest, f), [f] + Run(l, rest, "").done, Run(l, rest, "").cur)
  {
    GapFirst(l, rest[0], rest[1..], f);
    GapFirst(l, rest[0], rest[1..], "");
    assert [rest[0]] + rest[1..] == rest;
  }

  lemma GapAndWordRead(l: Letters, gap: string, w: string, f: string)
    requires forall i | 0 <= i < |gap| :: !l.word(gap[i])
    requires (forall i | 0 <= i < |w| :: l.word(w[i])) && FoldedTo(l, w, f)
    ensures Same(Run(l, gap + w, ""), [], f)
  {
    NoWordsRead(l, gap, "");
    WordRead(l, w, f);
    RunConcat(l, gap, w, "");
  }

  lemma TokensFrom(l: Letters, front: string, f: string, rest: string)
    requires Same(Run(l, front, ""), [], f) && f != "" && (rest != "" ==> !l.word(rest[0]))
    ensures Tokens(l, front + rest) == [f] + Tokens(l, rest)
  {
    RunConcat(l, front, rest, "");
    if rest == "" {
      assert front + rest == front;
    } else {
      WordCloses(l, f, rest);
    }
  }

  /** Text without a word character has no words; a run of word characters between others is one word, normalised. */
  lemma TokensAre(l: Letters, gap: string, w: string, f: string, rest: string)
    requires forall i | 0 <= i < |gap| :: !l.word(gap[i])
    requires w != "" && (forall i | 0 <= i < |w| :: l.word(w[i])) && FoldedTo(l, w, f)
    requires rest != "" ==> !l.word(rest[0])
    ensures Tokens(l, gap) == []
    ensures Tokens(l, gap + w + rest) == [f] + Tokens(l, rest)
  {
    NoWordsRead(l, gap, "");
    GapAndWordRead(l, gap, w, f);
    TokensFrom(l, gap + w, f, rest);
  }

  // ----- the text of a context

  lemma {:induction false} PlainStays(s: string, more: string, inSpace: bool)
    requires s != "" && forall i | 0 <= i < |s| :: !Text.IsSpace(s[i])
    ensures Collapse(s + more, inSpace) == s + Collapse(more, false)
  {
    if |s| == 1 {
      assert (s + more)[1..] == more;
    } else {
      PlainStays(s[1..], more, false);
      assert (s + more)[1..] == s[1..] + more && s == [s[0]] + s[1..];
    }
  }

  ghost predicate Blanks(s: string) { forall i | 0 <= i < |s| :: Text.IsSpace(s[i]) }

  lemma OneBlankLess(blanks: string, more: string)
    requires Blanks(blanks) && blanks != ""
    ensures Blanks(blanks[1..]) && (blanks + more)[1..] == blanks[1..] + more
    ensures Text.IsSpace((blanks + more)[0])
  {
  }

  lemma {:induction false} BlanksGo(blanks: string, more: string)
    requires Blanks(blanks) && (more != "" ==> !Text.IsSpace(more[0]))
    ensures Collapse(blanks + more, true) == Collapse(more, false)
  {
    if blanks == "" {
      assert blanks + more == more;
    } else {
      OneBlankLess(blanks, more);
      BlanksGo(blanks[1..], more);
    }
  }

  /** A run of white space is written as one blank... */
  lemma BlanksAreOne(blanks: string, more: string)
    requires blanks != "" && Blanks(blanks) && (more != "" ==> !Text.IsSpace(more[0]))
    ensures Collapse(blanks + more, false) == " " + Collapse(more, false)
  {
    OneBlankLess(blanks, more);
    BlanksGo(blanks[1..], more);
  }

  /** ...and whatever is none as it stands. */
  lemma PlainIsKept(plain: string, more: string)
    requires forall i | 0 <= i < |plain| :: !Text.IsSpace(plain[i])
    ensures Collapse(plain, false) == plain && Collapse(plain + more, false) == plain + Collapse(more, false)
  {
    if plain == "" {
      assert plain + more == more;
    } else {
      PlainStays(plain, "", false);
      PlainStays(plain, more, false);
      assert plain + "" == plain;
    }
  }

  lemma CutIs(runes: string, lo: nat, hi: nat)
    requires lo <= hi <= |runes|
    ensures SliceRunes(runes, lo, hi) == Collapse(runes[lo..hi], false)
  {
  }

  /** A context runs from the first word asked for, but over fifteen words at most, to the last; up to six words stand
      before it and up to six behind it. */
  lemma BoundsAre(n: nat, first: nat, last: nat)
    requires first <= last < n
    ensures var b := ContextBounds(n, first, last);
            && b.end == last && b.start == (if last > first + 14 then last - 14 else first)
            && (b.start >= 6 ==> b.preStart + 6 == b.start) && (b.start < 6 ==> b.preStart == 0)
            && (last + 6 < n ==> b.postEnd == last + 6) && (last + 6 >= n ==> b.postEnd + 1 == n)
  {
  }

  /** Its three parts are the text from word to word. */
  lemma ContextIs(words: seq<DocWord>, runes: string, first: nat, last: nat, b: Bounds, c: Locator.Snippet)
    requires first <= last < |words| && runes != ""
    requires b == ContextBounds(|words|, first, last) && c == BuildContext(words, runes, first, last)
    requires words[b.preStart].startRune <= words[b.start].startRune <= words[b.end].endRune
    requires words[b.end].endRune <= words[b.postEnd].endRune <= |runes|
    ensures c.before == Collapse(runes[words[b.preStart].startRune..words[b.start].startRune], false)
    ensures c.highlight == Collapse(runes[words[b.start].startRune..words[b.end].endRune], false)
    ensures c.after == Collapse(runes[words[b.end].endRune..words[b.postEnd].endRune], false)
  {
    ContextParts(words, runes, first, last);
    CutIs(runes, words[b.preStart].startRune, words[b.start].startRune);
    CutIs(runes, words[b.start].startRune, words[b.end].endRune);
    CutIs(runes, words[b.end].endRune, words[b.postEnd].endRune);
  }

  /** A place asked for outside the document, or ending before it starts, is brought inside. */
  lemma OddPlacesAre(n: nat, first: int, last: int)
    requires first < n && n > 0
    ensures first < 0 ==> ContextBounds(n, first, last) == ContextBounds(n, 0, last)
    ensures 0 <= first && last < first ==> ContextBounds(n, first, last) == ContextBounds(n, first, first)
    ensures last >= n ==> ContextBounds(n, first, last) == ContextBounds(n, first, n - 1)
  {
  }
}
