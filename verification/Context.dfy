/** Words of a document, and the text around a place in it (internal/audiomap/stt.go, `extractXHTMLWords`,
  `tokenizeWords`, `buildWordContext`): what is written as a locator's text is found again in the same document.
*/
module Context {
  import AudioMap
  import opened Passage
  import opened PassageMatch
  import Locator
  import Text

  /** Which characters make up words, and how they are normalised. No white space is part of a word. */
  datatype Letters = Letters(word: char -> bool, fold: char -> char)

  ghost predicate Sane(l: Letters) { forall c :: l.word(c) ==> !Text.IsSpace(c) }

  // ----- splitting text into words

  /** The words completed so far, and the word begun. */
  datatype Reading = Reading(done: seq<string>, cur: string)

  /** Reading s with `cur` already begun. */
  function Run(l: Letters, s: string, cur: string): Reading {
    if s == "" then Reading([], cur)
    else
      var r, last := Run(l, s[..|s| - 1], cur), s[|s| - 1];
      if l.word(last) then Reading(r.done, r.cur + [l.fold(last)]) else Reading(r.done + Flush(r.cur), "")
  }

  /** The same words, read piecemeal or in one go. */
  ghost predicate Same(r: Reading, done: seq<string>, cur: string) { r.done == done && r.cur == cur }

  function Flush(cur: string): seq<string> { if cur == "" then [] else [cur] }

  /** `tokenizeWords`. */
  function Tokens(l: Letters, s: string): seq<string> { Run(l, s, "").done + Flush(Run(l, s, "").cur) }

  method Tokenize(l: Letters, s: string) returns (words: seq<string>)
    ensures words == Tokens(l, s)
  {
    words := [];
    var cur := "";
    for i := 0 to |s|
      invariant Same(Run(l, s[..i], ""), words, cur)
    {
      assert s[..i + 1][..i] == s[..i];
      if l.word(s[i]) {
        cur := cur + [l.fold(s[i])];
      } else {
        if |cur| > 0 {
          words := words + [cur];
        }
        cur := "";
      }
    }
    assert s[..|s|] == s;
    if |cur| > 0 {
      words := words + [cur];
    }
  }

  lemma {:induction false} RunConcat(l: Letters, s: string, t: string, cur: string)
    ensures var r := Run(l, s, cur);
            var r' := Run(l, t, r.cur);
            Same(Run(l, s + t, cur), r.done + r'.done, r'.cur)
  {
    if t == "" {
      assert s + t == s;
    } else {
      assert (s + t)[..|s + t| - 1] == s + t[..|t| - 1];
      RunConcat(l, s, t[..|t| - 1], cur);
    }
  }

  /** `sliceRunes` writes one blank for each run of white space. */
  function Collapse(s: string, inSpace: bool): string {
    if s == "" then ""
    else if Text.IsSpace(s[0]) then (if inSpace then "" else " ") + Collapse(s[1..], true)
    else [s[0]] + Collapse(s[1..], false)
  }

  lemma RunOne(l: Letters, c: char, cur: string)
    ensures l.word(c) ==> Same(Run(l, [c], cur), [], cur + [l.fold(c)])
    ensures !l.word(c) ==> Same(Run(l, [c], cur), Flush(cur), "")
  {
    assert [c][..0] == "";
  }

  /** Collapsing white space changes no word. */
  lemma {:induction false} RunCollapse(l: Letters, s: string, inSpace: bool, cur: string)
    requires Sane(l) && (inSpace ==> cur == "")
    ensures Run(l, Collapse(s, inSpace), cur) == Run(l, s, cur)
  {
    if s != "" {
      var c, rest := s[0], s[1..];
      assert s == [c] + rest;
      RunConcat(l, [c], rest, cur);
      RunOne(l, c, cur);
      if Text.IsSpace(c) {
        RunCollapse(l, rest, true, "");
        assert Text.IsSpace(' ');
        if inSpace {
          assert Collapse(s, inSpace) == Collapse(rest, true);
        } else {
          RunOne(l, ' ', cur);
          RunConcat(l, [' '], Collapse(rest, true), cur);
          assert Collapse(s, inSpace) == [' '] + Collapse(rest, true);
        }
      } else {
        RunCollapse(l, rest, false, Run(l, [c], cur).cur);
        RunConcat(l, [c], Collapse(rest, false), cur);
      }
    }
  }

  lemma {:induction false} TrimLeftTokens(l: Letters, s: string)
    requires Sane(l)
    ensures Run(l, Text.TrimLeft(s), "") == Run(l, s, "")
  {
    if s != "" && Text.IsSpace(s[0]) {
      TrimLeftTokens(l, s[1..]);
      assert s == [s[0]] + s[1..];
      RunOne(l, s[0], "");
      RunConcat(l, [s[0]], s[1..], "");
    }
  }

  lemma {:induction false} TrimRightTokens(l: Letters, s: string)
    requires Sane(l)
    ensures Tokens(l, Text.TrimRight(s)) == Tokens(l, s)
  {
    if s != "" && Text.IsSpace(s[|s| - 1]) { TrimRightTokens(l, s[..|s| - 1]); }
  }

  /** Trimming changes no word either. */
  lemma TrimTokens(l: Letters, s: string)
    requires Sane(l)
    ensures Tokens(l, Text.TrimSpace(s)) == Tokens(l, s)
  {
    TrimLeftTokens(l, s);
    TrimRightTokens(l, Text.TrimLeft(s));
  }

  // ----- reading a stretch of a longer text

  /** Reading the characters from lo to hi, with `cur` already begun. */
  function Scan(l: Letters, runes: string, lo: nat, hi: nat, cur: string): Reading
    requires lo <= hi <= |runes|
    decreases hi - lo
  {
    if lo == hi then Reading([], cur)
    else
      var r, last := Scan(l, runes, lo, hi - 1, cur), runes[hi - 1];
      if l.word(last) then Reading(r.done, r.cur + [l.fold(last)]) else Reading(r.done + Flush(r.cur), "")
  }

  lemma SliceEnds(runes: string, lo: nat, hi: nat)
    requires lo < hi <= |runes|
    ensures var s := runes[lo..hi]; s[..|s| - 1] == runes[lo..hi - 1] && s[|s| - 1] == runes[hi - 1]
  {
  }

  lemma {:induction false} ScanIsRun(l: Letters, runes: string, lo: nat, hi: nat, cur: string)
    requires lo <= hi <= |runes|
    ensures Scan(l, runes, lo, hi, cur) == Run(l, runes[lo..hi], cur)
    decreases hi - lo
  {
    if lo < hi {
      ScanIsRun(l, runes, lo, hi - 1, cur);
      SliceEnds(runes, lo, hi);
    }
  }

  lemma {:induction false} ScanSplits(l: Letters, runes: string, lo: nat, mid: nat, hi: nat, cur: string)
    requires lo <= mid <= hi <= |runes|
    ensures var r := Scan(l, runes, lo, mid, cur);
            var r' := Scan(l, runes, mid, hi, r.cur);
            Same(Scan(l, runes, lo, hi, cur), r.done + r'.done, r'.cur)
    decreases hi
  {
    if mid < hi { ScanSplits(l, runes, lo, mid, hi - 1, cur); }
  }

  ghost predicate AllWord(l: Letters, runes: string, lo: nat, hi: nat)
    requires hi <= |runes|
  {
    forall i | lo <= i < hi :: l.word(runes[i])
  }

  ghost predicate NoWord(l: Letters, runes: string, lo: nat, hi: nat)
    requires hi <= |runes|
  {
    forall i | lo <= i < hi :: !l.word(runes[i])
  }

  /** The characters from lo to hi, normalised. */
  function Folded(l: Letters, runes: string, lo: nat, hi: nat): string
    requires lo <= hi <= |runes|
    decreases hi - lo
  {
    if lo == hi then "" else Folded(l, runes, lo, hi - 1) + [l.fold(runes[hi - 1])]
  }

  lemma {:induction false} ScanWord(l: Letters, runes: string, lo: nat, hi: nat)
    requires lo <= hi <= |runes| && AllWord(l, runes, lo, hi)
    ensures Same(Scan(l, runes, lo, hi, ""), [], Folded(l, runes, lo, hi))
    decreases hi - lo
  {
    if lo < hi { ScanWord(l, runes, lo, hi - 1); }
  }

  lemma {:induction false} ScanGap(l: Letters, runes: string, lo: nat, hi: nat, cur: string)
    requires lo < hi <= |runes| && NoWord(l, runes, lo, hi)
    ensures Same(Scan(l, runes, lo, hi, cur), Flush(cur), "")
    decreases hi - lo
  {
    if lo < hi - 1 { ScanGap(l, runes, lo, hi - 1, cur); }
  }

  // ----- the words of a document

  /** The end of the last of the first n words. */
  function EndOf(words: seq<DocWord>, n: nat): nat
    requires n <= |words|
  {
    if n == 0 then 0 else words[n - 1].endRune
  }

  /** The word stands where it says, with no word character between `from` and it. */
  ghost predicate StandsAt(l: Letters, runes: string, from: nat, w: DocWord) {
    && from <= w.startRune < w.endRune <= |runes|
    && NoWord(l, runes, from, w.startRune) && AllWord(l, runes, w.startRune, w.endRune)
    && w.norm == Folded(l, runes, w.startRune, w.endRune)
  }

  ghost predicate WordAt(l: Letters, runes: string, words: seq<DocWord>, i: nat)
    requires i < |words|
  {
    StandsAt(l, runes, EndOf(words, i), words[i])
  }

  ghost predicate WordsOf(l: Letters, runes: string, words: seq<DocWord>) {
    forall i | 0 <= i < |words| :: WordAt(l, runes, words, i)
  }

  /** After the words up to `from`: a word begun at `start` and still open, or none. */
  ghost predicate Open(l: Letters, runes: string, from: nat, start: nat, cur: string) {
    && from <= |runes|
    && (if cur == "" then NoWord(l, runes, from, |runes|)
        else from <= start < |runes| && NoWord(l, runes, from, start)
             && AllWord(l, runes, start, |runes|) && cur == Folded(l, runes, start, |runes|))
  }

  lemma {:induction false} FoldedMore(l: Letters, runes: string, more: string, lo: nat, hi: nat)
    requires lo <= hi <= |runes|
    ensures Folded(l, runes + more, lo, hi) == Folded(l, runes, lo, hi)
    decreases hi - lo
  {
    if lo < hi { FoldedMore(l, runes, more, lo, hi - 1); }
  }

  lemma StandsStill(l: Letters, runes: string, more: string, from: nat, w: DocWord)
    requires StandsAt(l, runes, from, w)
    ensures StandsAt(l, runes + more, from, w)
  {
    FoldedMore(l, runes, more, w.startRune, w.endRune);
  }

  lemma MoreRunes(l: Letters, runes: string, words: seq<DocWord>, more: string)
    requires WordsOf(l, runes, words)
    ensures WordsOf(l, runes + more, words)
  {
    forall i | 0 <= i < |words| ensures WordAt(l, runes + more, words, i) {
      assert WordAt(l, runes, words, i);
      StandsStill(l, runes, more, EndOf(words, i), words[i]);
    }
  }

  lemma MoreWords(l: Letters, runes: string, words: seq<DocWord>, w: DocWord)
    requires WordsOf(l, runes, words) && StandsAt(l, runes, EndOf(words, |words|), w)
    ensures WordsOf(l, runes, words + [w])
  {
    var more := words + [w];
    forall i | 0 <= i < |more| ensures WordAt(l, runes, more, i) {
      assert EndOf(more, i) == EndOf(words, i);
      if i < |words| { assert WordAt(l, runes, words, i); }
    }
  }

  /** A word in progress grows by one character, or a new one begins. */
  lemma OpenGrows(l: Letters, runes: string, from: nat, start: nat, cur: string, r: char)
    requires Open(l, runes, from, start, cur) && l.word(r)
    ensures Open(l, runes + [r], from, if cur == "" then |runes| else start, cur + [l.fold(r)])
  {
    var more := runes + [r];
    if cur == "" {
      assert Folded(l, more, |runes|, |runes|) == "";
    } else {
      FoldedMore(l, runes, [r], start, |runes|);
    }
  }

  /** A word in progress ends. */
  lemma OpenEnds(l: Letters, runes: string, from: nat, start: nat, cur: string, r: char)
    requires Open(l, runes, from, start, cur) && !l.word(r)
    ensures cur == "" ==> Open(l, runes + [r], from, start, "")
    ensures cur != "" ==> StandsAt(l, runes + [r], from, DocWord(cur, start, |runes|))
                          && Open(l, runes + [r], |runes|, start, "")
  {
    if cur != "" { FoldedMore(l, runes, [r], start, |runes|); }
  }

  /** One more character of visible text. */
  method ReadRune(l: Letters, ghost runes: string, total: nat, words: seq<DocWord>, start: nat, cur: string, r: char)
    returns (words': seq<DocWord>, start': nat, cur': string)
    requires total == |runes| + 1 && WordsOf(l, runes, words) && Open(l, runes, EndOf(words, |words|), start, cur)
    ensures WordsOf(l, runes + [r], words') && Open(l, runes + [r], EndOf(words', |words'|), start', cur')
    ensures l.word(r) ==> Norms(words') == Norms(words) && cur' == cur + [l.fold(r)]
    ensures !l.word(r) ==> Norms(words') == Norms(words) + Flush(cur) && cur' == ""
  {
    MoreRunes(l, runes, words, [r]);
    words', start', cur' := words, start, cur;
    if l.word(r) {
      OpenGrows(l, runes, EndOf(words, |words|), start, cur, r);
      if cur == "" {
        start' := total - 1;
      }
      cur' := cur + [l.fold(r)];
    } else {
      OpenEnds(l, runes, EndOf(words, |words|), start, cur, r);
      if cur != "" {
        MoreWords(l, runes + [r], words, DocWord(cur, start, total - 1));
        words', cur' := words + [DocWord(cur, start, total - 1)], "";
      }
    }
  }

  /** One stretch of text between two tags: a word never runs on beyond it. */
  method ExtractText(l: Letters, text: string, words: seq<DocWord>, runes: string)
    returns (words': seq<DocWord>, runes': string)
    requires WordsOf(l, runes, words) && Open(l, runes, EndOf(words, |words|), 0, "")
    ensures WordsOf(l, runes', words') && Open(l, runes', EndOf(words', |words'|), 0, "") && runes' == runes + text
    ensures Norms(words') == Norms(words) + Tokens(l, text)
  {
    words', runes' := words, runes;
    var cur := "";
    var start: nat := 0;
    for i := 0 to |text|
      invariant runes' == runes + text[..i]
      invariant Norms(words') == Norms(words) + Run(l, text[..i], "").done && cur == Run(l, text[..i], "").cur
      invariant WordsOf(l, runes', words') && Open(l, runes', EndOf(words', |words'|), start, cur)
    {
      assert text[..i + 1][..i] == text[..i];
      words', start, cur := ReadRune(l, runes', |runes'| + 1, words', start, cur, text[i]);
      runes' := runes' + [text[i]];
    }
    assert text[..|text|] == text;
    if cur != "" {
      MoreWords(l, runes', words', DocWord(cur, start, |runes'|));
      words' := words' + [DocWord(cur, start, |runes'|)];
    }
  }

  function AllText(texts: seq<string>): string {
    if texts == [] then "" else AllText(texts[..|texts| - 1]) + texts[|texts| - 1]
  }

  /** The words of each stretch of text, one stretch after the other. */
  function AllTokens(l: Letters, texts: seq<string>): seq<string> {
    if texts == [] then [] else AllTokens(l, texts[..|texts| - 1]) + Tokens(l, texts[|texts| - 1])
  }

  /** `extractXHTMLWords`, from the visible text on: one piece for each stretch between tags. */
  method Extract(l: Letters, texts: seq<string>) returns (words: seq<DocWord>, runes: string)
    ensures WordsOf(l, runes, words) && NoWord(l, runes, EndOf(words, |words|), |runes|)
    ensures runes == AllText(texts) && Norms(words) == AllTokens(l, texts)
  {
    words, runes := [], "";
    for t := 0 to |texts|
      invariant runes == AllText(texts[..t]) && Norms(words) == AllTokens(l, texts[..t])
      invariant WordsOf(l, runes, words) && Open(l, runes, EndOf(words, |words|), 0, "")
    {
      assert texts[..t + 1][..t] == texts[..t];
      words, runes := ExtractText(l, texts[t], words, runes);
    }
    assert texts[..|texts|] == texts;
  }

  // ----- the text around a place

  /** Words a to b are all parted by something that is not a word: no two were glued together by a tag. */
  ghost predicate Parted(words: seq<DocWord>, a: nat, b: nat)
    requires b < |words|
  {
    forall i | a < i <= b :: GapBefore(words, i)
  }

  predicate GapBefore(words: seq<DocWord>, i: nat)
    requires i < |words|
  {
    EndOf(words, i) < words[i].startRune
  }

  function NormsFrom(words: seq<DocWord>, a: nat, b: nat): seq<string>
    requires a <= b <= |words|
    decreases b - a
  {
    if a == b then [] else NormsFrom(words, a, b - 1) + [words[b - 1].norm]
  }

  lemma {:induction false} NormsFromAt(words: seq<DocWord>, a: nat, b: nat, k: nat)
    requires a <= b <= |words|
    ensures |NormsFrom(words, a, b)| == b - a
    ensures k < b - a ==> NormsFrom(words, a, b)[k] == words[a + k].norm
    decreases b - a
  {
    if a < b { NormsFromAt(words, a, b - 1, k); }
  }

  lemma NormsFromIs(words: seq<DocWord>, a: nat, b: nat)
    requires a <= b <= |words|
    ensures NormsFrom(words, a, b) == Norms(words)[a..b]
  {
    NormsFromAt(words, a, b, 0);
    var norms := Norms(words);
    forall k | 0 <= k < b - a ensures NormsFrom(words, a, b)[k] == norms[a..b][k] { NormsFromAt(words, a, b, k); }
  }

  lemma OneWord(l: Letters, runes: string, from: nat, w: DocWord)
    requires StandsAt(l, runes, from, w)
    ensures Same(Scan(l, runes, w.startRune, w.endRune, ""), [], w.norm) && w.norm != ""
  {
    ScanWord(l, runes, w.startRune, w.endRune);
  }

  /** From the end of one word, over the gap, to the end of the next. */
  lemma GapAndWord(l: Letters, runes: string, from: nat, w: DocWord, cur: string)
    requires StandsAt(l, runes, from, w) && from < w.startRune && cur != ""
    ensures Same(Scan(l, runes, from, w.endRune, cur), [cur], w.norm)
  {
    ScanGap(l, runes, from, w.startRune, cur);
    OneWord(l, runes, from, w);
    ScanSplits(l, runes, from, w.startRune, w.endRune, cur);
  }

  lemma {:induction false} StartsIncrease(l: Letters, runes: string, words: seq<DocWord>, a: nat, b: nat)
    requires WordsOf(l, runes, words) && a <= b < |words|
    ensures words[a].startRune <= words[b].startRune < words[b].endRune <= |runes|
    ensures words[a].endRune <= words[b].endRune
    decreases b
  {
    assert WordAt(l, runes, words, b);
    if a < b {
      StartsIncrease(l, runes, words, a, b - 1);
    }
  }

  /** Words a to b as a reader without tags sees them: those without anything between them make one word. */
  function Joined(words: seq<DocWord>, a: nat, b: nat): (r: seq<string>)
    requires a <= b < |words|
    ensures 0 < |r| <= b - a + 1
    decreases b - a
  {
    if a == b then [words[b].norm]
    else
      var r := Joined(words, a, b - 1);
      if GapBefore(words, b) then r + [words[b].norm] else r[..|r| - 1] + [r[|r| - 1] + words[b].norm]
  }

  lemma PartedStep(words: seq<DocWord>, a: nat, b: nat)
    requires a < b < |words|
    ensures Parted(words, a, b) <==> Parted(words, a, b - 1) && GapBefore(words, b)
  {
  }

  lemma {:induction false} JoinedCount(words: seq<DocWord>, a: nat, b: nat)
    requires a <= b < |words|
    ensures |Joined(words, a, b)| == b - a + 1 <==> Parted(words, a, b)
    decreases b - a
  {
    if a < b {
      JoinedCount(words, a, b - 1);
      PartedStep(words, a, b);
    }
  }

  lemma {:induction false} JoinedIsAll(words: seq<DocWord>, a: nat, b: nat)
    requires a <= b < |words| && Parted(words, a, b)
    ensures Joined(words, a, b) == NormsFrom(words, a, b + 1)
    decreases b - a
  {
    if a < b {
      PartedStep(words, a, b);
      JoinedIsAll(words, a, b - 1);
    } else {
      assert NormsFrom(words, a, a) == [];
    }
  }

  /** They are all there exactly when no two were glued together. */
  lemma JoinedIsAllExactly(words: seq<DocWord>, a: nat, b: nat)
    requires a <= b < |words|
    ensures Joined(words, a, b) == NormsFrom(words, a, b + 1) <==> Parted(words, a, b)
  {
    JoinedCount(words, a, b);
    NormsFromAt(words, a, b + 1, 0);
    if Parted(words, a, b) { JoinedIsAll(words, a, b); }
  }

  /** What has been read when the last of the words is still open. */
  ghost predicate ReadAs(r: Reading, ws: seq<string>)
    requires ws != []
  {
    Same(r, ws[..|ws| - 1], ws[|ws| - 1]) && r.cur != ""
  }

  /** From the end of one word straight into the next. */
  lemma {:induction false} GluedWord(l: Letters, runes: string, lo: nat, hi: nat, cur: string)
    requires lo <= hi <= |runes| && AllWord(l, runes, lo, hi)
    ensures Same(Scan(l, runes, lo, hi, cur), [], cur + Folded(l, runes, lo, hi))
    decreases hi - lo
  {
    if lo < hi { GluedWord(l, runes, lo, hi - 1, cur); }
  }

  lemma NextJoined(l: Letters, runes: string, p: nat, from: nat, w: DocWord, ws: seq<string>)
    requires p <= from && StandsAt(l, runes, from, w) && ws != [] && ReadAs(Scan(l, runes, p, from, ""), ws)
    ensures var more := if from < w.startRune then ws + [w.norm] else ws[..|ws| - 1] + [ws[|ws| - 1] + w.norm];
            ReadAs(Scan(l, runes, p, w.endRune, ""), more)
  {
    var cur := ws[|ws| - 1];
    ScanSplits(l, runes, p, from, w.endRune, "");
    if from < w.startRune {
      GapAndWord(l, runes, from, w, cur);
      OneWord(l, runes, from, w);
      assert ws[..|ws| - 1] + [cur] == ws;
    } else {
      GluedWord(l, runes, from, w.endRune, cur);
    }
  }

  /** Reading the text from word a to the end of word b gives those words, joined where they were glued together. */
  lemma {:induction false} SpanTokens(l: Letters, runes: string, words: seq<DocWord>, a: nat, b: nat)
    requires WordsOf(l, runes, words) && a <= b < |words|
    ensures words[a].startRune <= words[b].endRune <= |runes|
    ensures ReadAs(Scan(l, runes, words[a].startRune, words[b].endRune, ""), Joined(words, a, b))
    decreases b - a
  {
    StartsIncrease(l, runes, words, a, b);
    assert WordAt(l, runes, words, b);
    if a < b {
      SpanTokens(l, runes, words, a, b - 1);
      NextJoined(l, runes, words[a].startRune, EndOf(words, b), words[b], Joined(words, a, b - 1));
    } else {
      OneWord(l, runes, EndOf(words, b), words[b]);
    }
  }

  /** The word indices a context runs over: at most fifteen words and at most six more on either side. */
  datatype Bounds = Bounds(preStart: nat, start: nat, end: nat, postEnd: nat)

  /** The place asked for, kept within the document, at most fifteen words of it, and up to six words on either side. */
  function ContextBounds(n: nat, startIdx: int, endIdx: int): (b: Bounds)
    requires n > 0 && startIdx < n
    ensures b.preStart <= b.start <= b.end <= b.postEnd < n
    ensures b.end - b.start <= 14 && b.start - b.preStart <= 6 && b.postEnd - b.end <= 6
    ensures 0 <= startIdx <= endIdx < n ==> b.end == endIdx && startIdx <= b.start
    ensures b.preStart == 0 || b.start - b.preStart == 6
    ensures b.postEnd == n - 1 || b.postEnd - b.end == 6
  {
    var s := if startIdx < 0 then 0 else startIdx;
    var e0 := if endIdx < s then s else endIdx;
    var e := if e0 >= n then n - 1 else e0;
    var s' := if e - s > 14 then e - 14 else s;
    Bounds(if s' - 6 < 0 then 0 else s' - 6, s', e, if e + 6 >= n then n - 1 else e + 6)
  }

  function SliceRunes(runes: string, lo: nat, hi: nat): string {
    var h := if hi > |runes| then |runes| else hi;
    if lo >= h then "" else Collapse(runes[lo..h], false)
  }

  /** `buildWordContext`; its callers never start beyond the last word. */
  function BuildContext(words: seq<DocWord>, runes: string, startIdx: int, endIdx: int): Locator.Snippet
    requires words != [] ==> startIdx < |words|
  {
    if words == [] || runes == "" then Locator.Snippet("", "", "")
    else
      var b := ContextBounds(|words|, startIdx, endIdx);
      var hiStart, hiEnd := words[b.start].startRune, words[b.end].endRune;
      Locator.Snippet(
        if b.preStart < b.start then SliceRunes(runes, words[b.preStart].startRune, hiStart) else "",
        SliceRunes(runes, hiStart, hiEnd),
        if b.end < b.postEnd then SliceRunes(runes, hiEnd, words[b.postEnd].endRune) else "")
  }

  lemma SliceRuns(l: Letters, runes: string, lo: nat, hi: nat, cur: string)
    requires Sane(l) && lo <= hi <= |runes|
    ensures Run(l, SliceRunes(runes, lo, hi), cur) == Scan(l, runes, lo, hi, cur)
  {
    RunCollapse(l, runes[lo..hi], false, cur);
    ScanIsRun(l, runes, lo, hi, cur);
  }

  /** Two collapsed slices, one after the other, read like the stretch they were cut from. */
  lemma TwoSlices(l: Letters, runes: string, x: string, p: nat, q: nat, r: nat)
    requires Sane(l) && p <= q <= r <= |runes| && Run(l, x, "") == Scan(l, runes, p, q, "")
    ensures Run(l, x + SliceRunes(runes, q, r), "") == Scan(l, runes, p, r, "")
  {
    var c := Scan(l, runes, p, q, "").cur;
    SliceRuns(l, runes, q, r, c);
    RunConcat(l, x, SliceRunes(runes, q, r), "");
    ScanSplits(l, runes, p, q, r, "");
  }

  /** The three parts of a context in the terms of the stretch they were cut from. */
  lemma ContextParts(words: seq<DocWord>, runes: string, startIdx: int, endIdx: int)
    requires words != [] && startIdx < |words| && runes != ""
    ensures var b := ContextBounds(|words|, startIdx, endIdx);
            var c := BuildContext(words, runes, startIdx, endIdx);
            && c.before == SliceRunes(runes, words[b.preStart].startRune, words[b.start].startRune)
            && c.highlight == SliceRunes(runes, words[b.start].startRune, words[b.end].endRune)
            && c.after == SliceRunes(runes, words[b.end].endRune, words[b.postEnd].endRune)
  {
  }

  /** The three parts of a context, one after the other, read like the stretch they were cut from. */
  lemma ContextReads(l: Letters, runes: string, p: nat, q: nat, r: nat, s: nat, c: Locator.Snippet)
    requires Sane(l) && p <= q <= r <= s <= |runes|
    requires c.before == SliceRunes(runes, p, q) && c.highlight == SliceRunes(runes, q, r)
             && c.after == SliceRunes(runes, r, s)
    ensures Run(l, c.before + c.highlight + c.after, "") == Scan(l, runes, p, s, "")
  {
    SliceRuns(l, runes, p, q, "");
    TwoSlices(l, runes, c.before, p, q, r);
    TwoSlices(l, runes, c.before + c.highlight, p, r, s);
  }

  /** Its words, blanks around it or not. */
  lemma ContextTokens(l: Letters, runes: string, words: seq<DocWord>, a: nat, b: nat, text: string)
    requires Sane(l) && WordsOf(l, runes, words) && a <= b < |words|
    requires words[a].startRune <= words[b].endRune <= |runes|
    requires Run(l, text, "") == Scan(l, runes, words[a].startRune, words[b].endRune, "")
    ensures Tokens(l, Text.TrimSpace(text)) == Joined(words, a, b)
  {
    SpanTokens(l, runes, words, a, b);
    TrimTokens(l, text);
    var ws := Joined(words, a, b);
    assert ws == ws[..|ws| - 1] + [ws[|ws| - 1]];
  }

  /** The words a context reads back as. */
  function ReadBack(l: Letters, c: Locator.Snippet): seq<string> {
    Tokens(l, Text.TrimSpace(c.before + c.highlight + c.after))
  }

  /** The text written around a place, split into words again, is the words around that place, joined where a tag had
      glued them together; it is those very words exactly when no two were. */
  lemma ContextReadsBack(l: Letters, runes: string, words: seq<DocWord>, startIdx: int, endIdx: int, b: Bounds,
                         c: Locator.Snippet)
    requires Sane(l) && WordsOf(l, runes, words) && words != [] && startIdx < |words|
    requires b == ContextBounds(|words|, startIdx, endIdx)
    requires c == BuildContext(words, runes, startIdx, endIdx)
    ensures ReadBack(l, c) == Joined(words, b.preStart, b.postEnd)
    ensures ReadBack(l, c) == NormsFrom(words, b.preStart, b.postEnd + 1) <==> Parted(words, b.preStart, b.postEnd)
  {
    JoinedIsAllExactly(words, b.preStart, b.postEnd);
    StartsIncrease(l, runes, words, b.preStart, b.start);
    StartsIncrease(l, runes, words, b.start, b.end);
    StartsIncrease(l, runes, words, b.end, b.postEnd);
    ContextParts(words, runes, startIdx, endIdx);
    ContextReads(l, runes, words[b.preStart].startRune, words[b.start].startRune, words[b.end].endRune,
                 words[b.postEnd].endRune, c);
    ContextTokens(l, runes, words, b.preStart, b.postEnd, c.before + c.highlight + c.after);
  }

  lemma StretchOccurs(words: seq<DocWord>, a: nat, b: nat)
    requires a <= b < |words|
    ensures OccursAt(Norms(words), NormsFrom(words, a, b + 1), a) && |NormsFrom(words, a, b + 1)| == b + 1 - a
  {
    NormsFromIs(words, a, b + 1);
    NormsFromAt(words, a, b + 1, 0);
  }

  /** The words of the first two parts are those up to the highlight's last. */
  lemma PrefixTokens(l: Letters, runes: string, words: seq<DocWord>, startIdx: int, endIdx: int, b: Bounds,
                     c: Locator.Snippet)
    requires Sane(l) && WordsOf(l, runes, words) && words != [] && startIdx < |words|
    requires b == ContextBounds(|words|, startIdx, endIdx) && Parted(words, b.preStart, b.postEnd)
    requires c == BuildContext(words, runes, startIdx, endIdx)
    ensures Tokens(l, c.before + c.highlight) == NormsFrom(words, b.preStart, b.end + 1)
  {
    StartsIncrease(l, runes, words, b.preStart, b.start);
    StartsIncrease(l, runes, words, b.start, b.end);
    ContextParts(words, runes, startIdx, endIdx);
    var p, q, r := words[b.preStart].startRune, words[b.start].startRune, words[b.end].endRune;
    SliceRuns(l, runes, p, q, "");
    TwoSlices(l, runes, c.before, p, q, r);
    SpanTokens(l, runes, words, b.preStart, b.end);
    JoinedIsAllExactly(words, b.preStart, b.end);
    var ws := Joined(words, b.preStart, b.end);
    assert ws == ws[..|ws| - 1] + [ws[|ws| - 1]];
  }

  /** The answer counts the passage's words from the first of them that stands at or after `first`. */
  ghost predicate PointsAt(words: seq<DocWord>, total: nat, query: seq<string>, prefixWords: nat, k: nat, r: Answer,
                           first: nat)
    requires total > 0 && 0 < prefixWords && k + prefixWords <= |words|
  {
    && first <= k && NextOf(Norms(words), query, first) <= k
    && r.fraction == Fraction(words, total, NextOf(Norms(words), query, first) + prefixWords - 1)
  }

  /** The passage at k was found with full confidence, in the first window with the full score, the one at `first`. */
  ghost predicate FoundFrom(words: seq<DocWord>, total: nat, query: seq<string>, prefixWords: nat, k: nat, r: Answer,
                            first: nat)
    requires total > 0 && 0 < prefixWords && k + prefixWords <= |words|
  {
    && r.ok && r.confidence == 1.0 && FirstFull(Norms(words), query, first)
    && PointsAt(words, total, query, prefixWords, k, r, first)
  }

  ghost predicate FoundAt(words: seq<DocWord>, total: nat, query: seq<string>, prefixWords: nat, k: nat, r: Answer)
    requires total > 0 && 0 < prefixWords && k + prefixWords <= |words|
  {
    exists first: nat :: FoundFrom(words, total, query, prefixWords, k, r, first)
  }

  ghost predicate Findable(words: seq<DocWord>, total: nat, query: seq<string>, prefixWords: nat, k: nat) {
    Searchable(words, total, query) && OccursAt(Norms(words), query, k) && 0 < prefixWords <= |query|
  }

  lemma TargetOf(doc: seq<string>, query: seq<string>, scores: seq<WinScore>, prefixWords: nat, k: nat)
    requires AllScored(doc, query, scores) && |query| > 1 && OccursAt(doc, query, k) && 0 < prefixWords <= |query|
    ensures var first := BestIndex(scores);
            && 0 <= first < |scores| && FirstFull(doc, query, first) && first <= k
            && NextOf(doc, query, first) <= k
            && Target(scores[first], prefixWords) == NextOf(doc, query, first) + prefixWords - 1
  {
    PassageIsReported(doc, query, scores, k);
    var first := BestIndex(scores);
    assert Scored(doc, query, first, scores[first]);
    FullWindowTarget(doc, query, first, scores[first], prefixWords);
    assert doc[k] == doc[k..k + |query|][0];
    NextIsClear(doc, query, first, k);
  }

  lemma FirstFullIsOne(doc: seq<string>, query: seq<string>, a: nat, b: nat)
    requires FirstFull(doc, query, a) && FirstFull(doc, query, b)
    ensures a == b
  {
  }

  lemma TargetPointsAt(words: seq<DocWord>, total: nat, query: seq<string>, prefixWords: nat, k: nat, r: Answer,
                       first: nat, target: nat)
    requires total > 0 && 0 < prefixWords && k + prefixWords <= |words| && target < |words| && first <= k
    requires r.fraction == Fraction(words, total, target) && NextOf(Norms(words), query, first) <= k
    requires target == NextOf(Norms(words), query, first) + prefixWords - 1
    ensures PointsAt(words, total, query, prefixWords, k, r, first)
  {
  }

  lemma LocatedPointsAt(words: seq<DocWord>, total: nat, query: seq<string>, prefixWords: nat, k: nat, r: Answer,
                        scores: seq<WinScore>)
    requires Findable(words, total, query, prefixWords, k) && Located(words, total, query, prefixWords, r, scores)
    requires r.ok
    ensures var first := BestIndex(scores);
            && first >= 0 && FirstFull(Norms(words), query, first)
            && PointsAt(words, total, query, prefixWords, k, r, first)
  {
    TargetOf(Norms(words), query, scores, prefixWords, k);
    var first := BestIndex(scores);
    TargetPointsAt(words, total, query, prefixWords, k, r, first, Target(scores[first], prefixWords));
  }

  lemma LocatedAt(words: seq<DocWord>, total: nat, query: seq<string>, prefixWords: nat, k: nat, r: Answer,
                  scores: seq<WinScore>)
    requires Findable(words, total, query, prefixWords, k) && Located(words, total, query, prefixWords, r, scores)
    requires r.ok && r.confidence == 1.0
    ensures FoundAt(words, total, query, prefixWords, k, r)
  {
    LocatedPointsAt(words, total, query, prefixWords, k, r, scores);
    assert FoundFrom(words, total, query, prefixWords, k, r, BestIndex(scores));
  }

  lemma FoundInThatWindow(words: seq<DocWord>, total: nat, query: seq<string>, prefixWords: nat, k: nat, r: Answer,
                          first: nat)
    requires total > 0 && 0 < prefixWords && k + prefixWords <= |words|
    requires FoundAt(words, total, query, prefixWords, k, r) && FirstFull(Norms(words), query, first)
    ensures r.ok && r.confidence == 1.0 && PointsAt(words, total, query, prefixWords, k, r, first)
  {
    var f: nat :| FoundFrom(words, total, query, prefixWords, k, r, f);
    FirstFullIsOne(Norms(words), query, f, first);
  }

  method MatchOnce(words: seq<DocWord>, total: nat, query: seq<string>, prefixWords: nat, ghost k: nat)
    returns (r: Answer)
    ensures Findable(words, total, query, prefixWords, k) ==> FoundAt(words, total, query, prefixWords, k, r)
    ensures !Searchable(words, total, query) ==> r == NO_ANSWER
  {
    ghost var scores;
    r, scores := MatchLocatorText(words, total, query, prefixWords);
    if Findable(words, total, query, prefixWords, k) {
      assert Occurs(Norms(words), query);
      LocatedAt(words, total, query, prefixWords, k, r, scores);
    }
  }

  /** What is read back from a written context can be found where it was written. */
  lemma ContextIsFindable(l: Letters, words: seq<DocWord>, runes: string, startIdx: int, endIdx: int, b: Bounds,
                          c: Locator.Snippet)
    requires Sane(l) && WordsOf(l, runes, words) && words != [] && startIdx < |words|
    requires b == ContextBounds(|words|, startIdx, endIdx) && Parted(words, b.preStart, b.postEnd)
    requires c == BuildContext(words, runes, startIdx, endIdx) && b.postEnd - b.preStart >= 3
    ensures var query := ReadBack(l, c);
            var prefixWords := |Tokens(l, c.before + c.highlight)|;
            && query == NormsFrom(words, b.preStart, b.postEnd + 1) && prefixWords == b.end + 1 - b.preStart
            && Findable(words, |runes|, query, prefixWords, b.preStart)
  {
    ContextReadsBack(l, runes, words, startIdx, endIdx, b, c);
    PrefixTokens(l, runes, words, startIdx, endIdx, b, c);
    StartsIncrease(l, runes, words, 0, 0);
    StretchOccurs(words, b.preStart, b.postEnd);
    StretchOccurs(words, b.preStart, b.end);
  }

  lemma EndsIncrease(l: Letters, runes: string, words: seq<DocWord>, a: nat, b: nat)
    requires WordsOf(l, runes, words) && a < b < |words|
    ensures 0 < words[a].endRune < words[b].endRune <= |runes|
  {
    StartsIncrease(l, runes, words, a, b - 1);
    assert WordAt(l, runes, words, a) && WordAt(l, runes, words, b);
  }

  lemma QuotientsIncrease(x: nat, y: nat, n: nat)
    requires 0 < x < y <= n
    ensures 0.0 < x as real / n as real < y as real / n as real <= 1.0
  {
    RatioBounds(x, n);
    RatioBounds(y, n);
    AudioMap.QuotientIncreases(x as real, y as real, n as real);
    var q := x as real / n as real;
    assert q * n as real == x as real > 0.0;
    assert q == 0.0 ==> q * n as real == 0.0;
  }

  /** Different words are different places. */
  lemma FractionsIncrease(l: Letters, runes: string, words: seq<DocWord>, a: nat, b: nat)
    requires WordsOf(l, runes, words) && a < b < |words| && |runes| > 0
    ensures Fraction(words, |runes|, a) < Fraction(words, |runes|, b)
  {
    EndsIncrease(l, runes, words, a, b);
    QuotientsIncrease(words[a].endRune, words[b].endRune, |runes|);
  }

  lemma OneFraction(l: Letters, runes: string, words: seq<DocWord>, a: nat, b: nat)
    requires WordsOf(l, runes, words) && a <= b < |words| && |runes| > 0
    ensures Fraction(words, |runes|, a) == Fraction(words, |runes|, b) <==> a == b
  {
    if a < b { FractionsIncrease(l, runes, words, a, b); }
  }

  lemma NextAtPassage(doc: seq<string>, query: seq<string>, first: nat, k: nat)
    requires OccursAt(doc, query, k) && query != [] && first <= k
    ensures NextOf(doc, query, first) <= k && (NextOf(doc, query, first) == k <==> Clear(doc, query, first, k))
  {
    assert doc[k] == doc[k..k + |query|][0];
    NextIsClear(doc, query, first, k);
  }

  /** The answer points at the passage's word number `prefixWords` exactly when no word of the passage stands between
      `first` and the passage. */
  lemma PointsThereExactly(l: Letters, runes: string, words: seq<DocWord>, query: seq<string>, prefixWords: nat, k: nat,
                           r: Answer, first: nat)
    requires WordsOf(l, runes, words) && |runes| > 0 && 0 < prefixWords && k + prefixWords <= |words|
    requires OccursAt(Norms(words), query, k) && query != []
    requires PointsAt(words, |runes|, query, prefixWords, k, r, first)
    ensures r.fraction == Fraction(words, |runes|, k + prefixWords - 1) <==> Clear(Norms(words), query, first, k)
  {
    NextAtPassage(Norms(words), query, first, k);
    var j := NextOf(Norms(words), query, first);
    OneFraction(l, runes, words, j + prefixWords - 1, k + prefixWords - 1);
  }

  /** So the text a locator carries, when it has at least four words and no two of them were glued together, is found
      again in its document. Text that reads back as fewer is not looked for. */
  method FindContextAgain(l: Letters, words: seq<DocWord>, runes: string, startIdx: int, endIdx: int)
    returns (r: Answer)
    requires Sane(l) && WordsOf(l, runes, words) && words != [] && startIdx < |words|
    ensures var b := ContextBounds(|words|, startIdx, endIdx);
            Parted(words, b.preStart, b.postEnd) && b.postEnd - b.preStart >= 3 ==>
              && |runes| > 0
              && FoundAt(words, |runes|, NormsFrom(words, b.preStart, b.postEnd + 1), b.end + 1 - b.preStart,
                         b.preStart, r)
    ensures |ReadBack(l, BuildContext(words, runes, startIdx, endIdx))| < MIN_QUERY ==> r == NO_ANSWER
  {
    var c := BuildContext(words, runes, startIdx, endIdx);
    ghost var b := ContextBounds(|words|, startIdx, endIdx);
    var query := Tokenize(l, Text.TrimSpace(c.before + c.highlight + c.after));
    var prefix := Tokenize(l, c.before + c.highlight);
    if Parted(words, b.preStart, b.postEnd) && b.postEnd - b.preStart >= 3 {
      ContextIsFindable(l, words, runes, startIdx, endIdx, b, c);
    }
    r := MatchOnce(words, |runes|, query, |prefix|, b.preStart);
  }

  // ----- where the answer is another

  const LETTERS := Letters((c: char) => 'a' <= c <= 'z', (c: char) => c)

  const GLUED_TEXT := "abcd"

  const GLUED := [DocWord("a", 0, 1), DocWord("b", 1, 2), DocWord("c", 2, 3), DocWord("d", 3, 4)]

  lemma GluedReadsAsOne()
    ensures Joined(GLUED, 0, 3) == ["abcd"]
  {
    assert "a" + "b" == "ab" && "ab" + "c" == "abc" && "abc" + "d" == "abcd";
    assert Joined(GLUED, 0, 0) == ["a"];
    assert Joined(GLUED, 0, 1) == ["a"][..0] + ["a" + "b"] == ["ab"];
    assert Joined(GLUED, 0, 2) == ["ab"][..0] + ["ab" + "c"] == ["abc"];
    assert Joined(GLUED, 0, 3) == ["abc"][..0] + ["abc" + "d"];
  }

  /** Four letters, each between tags of its own: the context is "abcd", and it is not found. */
  method GluedWordsAreNotFound() returns (r: Answer)
    ensures WordsOf(LETTERS, GLUED_TEXT, GLUED) && r == NO_ANSWER
  {
    forall i | 0 <= i < |GLUED| ensures WordAt(LETTERS, GLUED_TEXT, GLUED, i) {}
    ContextReadsBack(LETTERS, GLUED_TEXT, GLUED, 0, 3, ContextBounds(4, 0, 3),
                     BuildContext(GLUED, GLUED_TEXT, 0, 3));
    GluedReadsAsOne();
    r := FindContextAgain(LETTERS, GLUED, GLUED_TEXT, 0, 3);
  }

  const TWICE_TEXT := "a a b c d e f g"

  const TWICE := [DocWord("a", 0, 1), DocWord("a", 2, 3), DocWord("b", 4, 5), DocWord("c", 6, 7), DocWord("d", 8, 9),
                  DocWord("e", 10, 11), DocWord("f", 12, 13), DocWord("g", 14, 15)]

  lemma TwiceStandsAt(i: nat)
    requires i < |TWICE|
    ensures WordAt(LETTERS, TWICE_TEXT, TWICE, i)
  {
  }

  lemma TwiceIsADocument()
    ensures WordsOf(LETTERS, TWICE_TEXT, TWICE) && Parted(TWICE, 1, 7) && Sane(LETTERS)
  {
    forall i | 0 <= i < |TWICE| ensures WordAt(LETTERS, TWICE_TEXT, TWICE, i) { TwiceStandsAt(i); }
  }

  /** The passage is the last seven of the eight words; the window that begins a word earlier holds it too. */
  lemma TwiceIsFullAtZero()
    ensures FirstFull(Norms(TWICE), NormsFrom(TWICE, 1, 8), 0) && NextOf(Norms(TWICE), NormsFrom(TWICE, 1, 8), 0) == 0
  {
    var doc, query := Norms(TWICE), NormsFrom(TWICE, 1, 8);
    NormsFromIs(TWICE, 1, 8);
    assert query[0] == "a" && doc[0] == "a" && "a" in query;
    assert Window(doc, 7, 0) == doc;
    SuffixScoresOne(doc, query, 1);
  }

  /** Where the document begins with a full window and a word of the passage, the answer counts from there. */
  lemma CountedFromTheStart(words: seq<DocWord>, total: nat, query: seq<string>, prefixWords: nat, k: nat, r: Answer)
    requires total > 0 && 0 < prefixWords && k + prefixWords <= |words|
    requires FirstFull(Norms(words), query, 0) && NextOf(Norms(words), query, 0) == 0
    requires FoundAt(words, total, query, prefixWords, k, r)
    ensures r.ok && r.confidence == 1.0 && r.fraction == Fraction(words, total, prefixWords - 1)
  {
    FoundInThatWindow(words, total, query, prefixWords, k, r, 0);
    CountedFromZero(words, total, query, prefixWords, k, r);
  }

  lemma CountedFromZero(words: seq<DocWord>, total: nat, query: seq<string>, prefixWords: nat, k: nat, r: Answer)
    requires total > 0 && 0 < prefixWords && k + prefixWords <= |words|
    requires PointsAt(words, total, query, prefixWords, k, r, 0) && NextOf(Norms(words), query, 0) == 0
    ensures r.fraction == Fraction(words, total, prefixWords - 1)
  {
  }

  lemma TheEarlyAnswer(r: Answer)
    requires FoundAt(TWICE, 15, NormsFrom(TWICE, 1, 8), 7, 1, r)
    ensures r.ok && r.confidence == 1.0 && r.fraction == Fraction(TWICE, 15, 6)
  {
    TwiceIsFullAtZero();
    CountedFromTheStart(TWICE, 15, NormsFrom(TWICE, 1, 8), 7, 1, r);
  }

  /** A document that says its first word twice: the text around its last word is found, and the answer points a word
      too early. */
  method TheAnswerComesEarly() returns (r: Answer)
    ensures r.ok && r.confidence == 1.0 && ContextBounds(8, 7, 7).end == 7
    ensures r.fraction == Fraction(TWICE, 15, 6) < Fraction(TWICE, 15, 7)
  {
    TwiceIsADocument();
    ghost var b := ContextBounds(|TWICE|, 7, 7);
    assert b == Bounds(1, 7, 7, 7) && |TWICE_TEXT| == 15;
    r := FindContextAgain(LETTERS, TWICE, TWICE_TEXT, 7, 7);
    TheEarlyAnswer(r);
    FractionsIncrease(LETTERS, TWICE_TEXT, TWICE, 6, 7);
  }
}
