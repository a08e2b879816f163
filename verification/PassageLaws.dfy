/** What a passage match answers, in the words of document and query themselves (internal/audiomap/stt.go). */
module PassageLaws {
  import opened Passage
  import opened PassageMatch

  // ----- pairs of words

  /** Two pairs of words, which hold no blanks, are one bigram only if they are the same words. */
  lemma PairsAreTold(a: string, b: string, c: string, d: string)
    requires ' ' !in a && ' ' !in b && ' ' !in c && ' ' !in d
    ensures Bigram(a, b) == Bigram(c, d) <==> a == c && b == d
  {
    if Bigram(a, b) == Bigram(c, d) {
      BlankFirst(Bigram(a, b), a, b);
      BlankFirst(Bigram(a, b), c, d);
      assert |a| == |c|;
    }
  }

  lemma BlankFirst(u: string, a: string, b: string)
    requires ' ' !in a && u == a + " " + b
    ensures |a| < |u| && u[|a|] == ' ' && u[..|a|] == a && u[|a| + 1..] == b
    ensures forall i | 0 <= i < |a| :: u[i] != ' '
  {
    forall i | 0 <= i < |a| ensures u[i] != ' ' { assert u[i] == a[i]; }
  }

  // ----- scores

  /** Of 20 parts of a score 13 are the share of the query's n words found and 7 that of its n - 1 bigrams. */
  ghost predicate Weighed(score: real, hits: int, bigramHits: int, n: int) {
    20.0 * score * (n as real * (n - 1) as real)
    == 13.0 * hits as real * (n - 1) as real + 7.0 * bigramHits as real * n as real
  }

  lemma Shares(h: real, g: real, n: real, m: real, q: real, r: real)
    requires q * n == h && r * m == g
    ensures 20.0 * (0.65 * q + 0.35 * r) * (n * m) == 13.0 * h * m + 7.0 * g * n
  {
    assert q * (n * m) == h * m;
    assert r * (n * m) == g * n;
    var c := n * m;
    assert 20.0 * (0.65 * q + 0.35 * r) * c == 13.0 * (q * c) + 7.0 * (r * c);
  }

  lemma ScoreOfIs(hits: int, bigramHits: int, n: int)
    requires n > 1
    ensures Weighed(ScoreOf(hits, bigramHits, n), hits, bigramHits, n)
  {
    var q, r := hits as real / n as real, bigramHits as real / (n - 1) as real;
    Shares(hits as real, bigramHits as real, n as real, (n - 1) as real, q, r);
  }

  /** Words and bigrams are found as often as window and query both have them. */
  lemma ScoreIs(window: seq<string>, query: seq<string>)
    requires |query| > 1
    ensures Weighed(Score(window, query), |multiset(window) * multiset(query)|,
                    |multiset(Bigrams(window)) * multiset(Bigrams(query))|, |query|)
  {
    ScoreOfIs(Common(window, query), Common(Bigrams(window), Bigrams(query)), |query|);
  }

  /** A window is a third longer than the query, but ends with the document. */
  lemma WindowIs(doc: seq<string>, n: nat, s: nat, end: nat)
    requires s <= |doc|
    requires s + n + n / 3 <= |doc| ==> end == s + n + n / 3
    requires s + n + n / 3 > |doc| ==> end == |doc|
    ensures Window(doc, n, s) == doc[s..end]
  {
  }

  // ----- hits

  /** The first hit is the first of the query's words. */
  lemma {:induction false} FirstHitIs(window: seq<string>, query: seq<string>, i: nat)
    requires i < |window| && window[i] in query && forall j | 0 <= j < i :: window[j] !in query
    ensures FirstHit(window, query) == i
  {
    assert NoneOf(window[..i], query);
    FirstOfItsWords(window[..i], window[i], window[i + 1..], query);
    assert window == window[..i] + [window[i]] + window[i + 1..];
  }

  /** Word number j of the window has come as often before as it stands in the query. */
  ghost predicate Spent(window: seq<string>, query: seq<string>, j: nat)
    requires j < |window|
  {
    multiset(window[..j])[window[j]] >= multiset(query)[window[j]]
  }

  lemma SpentBefore(window: seq<string>, query: seq<string>, j: nat)
    requires j < |window| - 1
    ensures Spent(window[..|window| - 1], query, j) == Spent(window, query, j)
  {
    assert window[..|window| - 1][..j] == window[..j];
  }

  /** The last hit is the last word that is not spent. */
  lemma {:induction false} LastHitIs(window: seq<string>, query: seq<string>, i: nat)
    requires i < |window| && !Spent(window, query, i) && forall j | i < j < |window| :: Spent(window, query, j)
    ensures LastHit(window, query) == i
  {
    var n := |window| - 1;
    assert Hit(window[..n], window[n], query) == !Spent(window, query, n);
    if i < n {
      forall j | i <= j < n ensures Spent(window[..n], query, j) == Spent(window, query, j) {
        SpentBefore(window, query, j);
      }
      LastHitIs(window[..n], query, i);
    }
  }

  // ----- the runner-up

  /** The best score among the windows whose hits lie all before or all behind those of the best; 0 if there is none. */
  lemma {:induction false} RunnerUpIs(scores: seq<WinScore>, best: WinScore)
    ensures RunnerUp(scores, best) >= 0.0
    ensures forall s | s in scores && (s.lastHit < best.firstHit || best.lastHit < s.firstHit) ::
              s.score <= RunnerUp(scores, best)
    ensures RunnerUp(scores, best) == 0.0
            || exists s :: s in scores && (s.lastHit < best.firstHit || best.lastHit < s.firstHit)
                           && s.score == RunnerUp(scores, best)
  {
    if scores != [] {
      var n := |scores| - 1;
      RunnerUpIs(scores[..n], best);
      forall s | s in scores ensures s in scores[..n] || s == scores[n] {}
      assert scores[n] in scores && forall s | s in scores[..n] :: s in scores;
    }
  }

  // ----- the place answered

  /** A locator's prefix is counted from the first hit; one that runs past the hits ends on the last. */
  lemma TargetIs(w: WinScore, prefixWords: nat)
    ensures w.lastHit - w.firstHit + 1 < prefixWords ==> Target(w, prefixWords) == w.lastHit
    ensures 0 < prefixWords <= w.lastHit - w.firstHit + 1 ==> Target(w, prefixWords) + 1 == w.firstHit + prefixWords
    ensures prefixWords == 0 ==> Target(w, prefixWords) == w.lastHit
  {
  }

  /** The stretch holds the query's words, as often as it has them, and its bigrams. */
  ghost predicate Holds(stretch: seq<string>, query: seq<string>) {
    multiset(query) <= multiset(stretch) && multiset(Bigrams(query)) <= multiset(Bigrams(stretch))
  }

  /** So does the stretch from s on that is a third longer than the query, or ends with the document. */
  ghost predicate HoldsAll(doc: seq<string>, query: seq<string>, s: nat) {
    var long := s + |query| + |query| / 3;
    s + |query| <= |doc| && Holds(if long <= |doc| then doc[s..long] else doc[s..], query)
  }

  /** The passage stands at k; no stretch that begins before b holds all, the one at b does, and none of the passage's
      words stands from b up to k. */
  ghost predicate ClearPassage(doc: seq<string>, query: seq<string>, b: nat, k: nat) {
    && b <= k && k + |query| <= |doc| && doc[k..k + |query|] == query
    && HoldsAll(doc, query, b) && (forall s | 0 <= s < b :: !HoldsAll(doc, query, s))
    && (forall i | b <= i < k :: doc[i] !in query)
  }

  lemma HoldsIs(stretch: seq<string>, query: seq<string>)
    requires |query| > 1
    ensures Holds(stretch, query) <==> Score(stretch, query) == 1.0
    ensures Score(stretch, query) <= 1.0
  {
    ScoreBounds(stretch, query);
  }

  lemma HoldsAllIs(doc: seq<string>, query: seq<string>, s: nat)
    requires |query| > 1 && s + |query| <= |doc|
    ensures HoldsAll(doc, query, s) <==> Score(Window(doc, |query|, s), query) == 1.0
    ensures Score(Window(doc, |query|, s), query) <= 1.0
  {
    var long := s + |query| + |query| / 3;
    var stretch := if long <= |doc| then doc[s..long] else doc[s..];
    assert Window(doc, |query|, s) == stretch;
    HoldsIs(stretch, query);
  }

  lemma ClearPassageIs(doc: seq<string>, query: seq<string>, b: nat, k: nat)
    requires |query| > 1 && ClearPassage(doc, query, b, k)
    ensures StandsClear(doc, query, b, k)
  {
    HoldsAllIs(doc, query, b);
    forall s | 0 <= s < b ensures Score(Window(doc, |query|, s), query) < 1.0 { HoldsAllIs(doc, query, s); }
  }

  lemma ThePlaceIs(doc: seq<string>, query: seq<string>, n: int, i: nat, b: nat, k: nat)
    requires |query| > 1 && LiesInPassage(doc, query, n, i) && ClearPassage(doc, query, b, k)
    ensures i == k + n
  {
    ClearPassageIs(doc, query, b, k);
  }

  lemma ThereItEnds(words: seq<DocWord>, totalRunes: nat, i: nat, place: real, j: nat)
    requires EndsAt(words, totalRunes, i, place) && i == j < |words| && words[j].endRune <= totalRunes
    ensures place * totalRunes as real == words[j].endRune as real
  {
  }

  /** What a transcript match promises of an accepted answer, for any such passage: it is the end of the passage's last
      word. */
  lemma TranscriptEndsThePassage(words: seq<DocWord>, totalRunes: nat, query: seq<string>, i: nat, place: real,
                                 b: nat, k: nat)
    requires |query| > 1 && EndsAt(words, totalRunes, i, place) && LiesInPassage(Norms(words), query, |query| - 1, i)
    requires ClearPassage(Norms(words), query, b, k) && words[k + |query| - 1].endRune <= totalRunes
    ensures place * totalRunes as real == words[k + |query| - 1].endRune as real
  {
    ThePlaceIs(Norms(words), query, |query| - 1, i, b, k);
    ThereItEnds(words, totalRunes, i, place, k + |query| - 1);
  }

  /** A locator match: the end of the passage's word the prefix counts up to. */
  lemma LocatorEndsThePrefix(words: seq<DocWord>, totalRunes: nat, query: seq<string>, prefixWords: nat, i: nat,
                             place: real, b: nat, k: nat)
    requires |query| > 1 && 0 < prefixWords <= |query|
    requires EndsAt(words, totalRunes, i, place) && LiesInPassage(Norms(words), query, prefixWords - 1, i)
    requires ClearPassage(Norms(words), query, b, k) && words[k + prefixWords - 1].endRune <= totalRunes
    ensures place * totalRunes as real == words[k + prefixWords - 1].endRune as real
  {
    ThePlaceIs(Norms(words), query, prefixWords - 1, i, b, k);
    ThereItEnds(words, totalRunes, i, place, k + prefixWords - 1);
  }
}
