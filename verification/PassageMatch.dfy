/** The two matchers over all windows of a document (internal/audiomap/stt.go, `MatchTranscriptDetailInXHTML` and
  `MatchLocatorTextInXHTML`).
*/
module PassageMatch {
  import opened Passage
  import AudioMap

  const MIN_QUERY: nat := 4
  const TRANSCRIPT_CONFIDENCE: real := 0.55
  const LOCATOR_CONFIDENCE: real := 0.65

  /** The windows of a document, one for each place the query could start. */
  ghost predicate AllScored(doc: seq<string>, query: seq<string>, scores: seq<WinScore>) {
    && query != [] && |scores| == |doc| - |query| + 1
    && forall i | 0 <= i < |scores| :: Scored(doc, query, i, scores[i])
  }

  /** The best score, 0 if there is none above it. */
  function MaxScore(scores: seq<WinScore>): real {
    if scores == [] then 0.0
    else
      var best := MaxScore(scores[..|scores| - 1]);
      if scores[|scores| - 1].score > best then scores[|scores| - 1].score else best
  }

  /** The first window with the best score, -1 if none scores above 0. */
  function BestIndex(scores: seq<WinScore>): int {
    if scores == [] then -1
    else if scores[|scores| - 1].score > MaxScore(scores[..|scores| - 1]) then |scores| - 1
    else BestIndex(scores[..|scores| - 1])
  }

  /** The matched stretches of two windows have no word in common. */
  predicate Disjoint(s: WinScore, t: WinScore) { s.lastHit < t.firstHit || s.firstHit > t.lastHit }

  /** The best score among the windows whose match does not touch the given one. */
  function RunnerUp(scores: seq<WinScore>, best: WinScore): real {
    if scores == [] then 0.0
    else
      var s, r := scores[|scores| - 1], RunnerUp(scores[..|scores| - 1], best);
      if Disjoint(s, best) && s.score > r then s.score else r
  }

  lemma {:induction false} MaxScoreIsMax(scores: seq<WinScore>)
    ensures MaxScore(scores) >= 0.0
    ensures forall s | s in scores :: s.score <= MaxScore(scores)
    ensures var b := BestIndex(scores);
            && -1 <= b < |scores|
            && (b < 0 <==> MaxScore(scores) == 0.0)
            && (b >= 0 ==> scores[b].score == MaxScore(scores)
                           && forall i | 0 <= i < b :: scores[i].score < scores[b].score)
  {
    if scores != [] {
      var n := |scores| - 1;
      MaxScoreIsMax(scores[..n]);
      forall s | s in scores ensures s.score <= MaxScore(scores) {
        assert s in scores[..n] || s == scores[n];
      }
      forall i | 0 <= i < n ensures scores[i].score <= MaxScore(scores[..n]) {
        assert scores[..n][i] in scores[..n];
      }
    }
  }

  lemma {:induction false} RunnerUpBounds(scores: seq<WinScore>, best: WinScore)
    ensures 0.0 <= RunnerUp(scores, best) <= MaxScore(scores)
  {
    if scores != [] { RunnerUpBounds(scores[..|scores| - 1], best); }
  }

  /** All scores lie between 0 and 1, and so does the best. */
  lemma ScoresInRange(doc: seq<string>, query: seq<string>, scores: seq<WinScore>)
    requires AllScored(doc, query, scores)
    ensures MaxScore(scores) <= 1.0
  {
    MaxScoreIsMax(scores);
    var b := BestIndex(scores);
    if b >= 0 { ScoreBounds(Window(doc, |query|, b), query); }
  }

  // ----- a passage that is there word for word

  lemma MultisetPrefix(s: seq<string>, n: nat)
    requires n <= |s|
    ensures multiset(s[..n]) <= multiset(s)
  {
    assert s == s[..n] + s[n..];
  }

  /** The bigrams of the first words are the first bigrams. */
  lemma BigramsOfPrefix(window: seq<string>, n: nat)
    requires 0 < n <= |window|
    ensures Bigrams(window[..n]) == Bigrams(window)[..n - 1]
  {
    forall i | 0 <= i < n - 1 ensures Bigrams(window[..n])[i] == Bigrams(window)[i] {
      BigramAt(window[..n], i);
      BigramAt(window, i);
    }
  }

  /** The query stands in the document word for word, at position k. */
  ghost predicate OccursAt(doc: seq<string>, query: seq<string>, k: nat) {
    k + |query| <= |doc| && doc[k..k + |query|] == query
  }

  ghost predicate Occurs(doc: seq<string>, query: seq<string>) { exists k: nat :: OccursAt(doc, query, k) }

  /** A query that occurs contiguously gives its window the full score. */
  lemma ContiguousScoresOne(doc: seq<string>, query: seq<string>, k: nat)
    requires |query| > 1 && OccursAt(doc, query, k)
    ensures Score(Window(doc, |query|, k), query) == 1.0
  {
    var window := Window(doc, |query|, k);
    assert window[..|query|] == query;
    MultisetPrefix(window, |query|);
    BigramsOfPrefix(window, |query|);
    MultisetPrefix(Bigrams(window), |query| - 1);
    ScoreBounds(window, query);
  }

  /** So the best score is 1 whenever the query occurs at all. */
  lemma ContiguousIsFound(doc: seq<string>, query: seq<string>, scores: seq<WinScore>)
    requires AllScored(doc, query, scores) && |query| > 1 && Occurs(doc, query)
    ensures MaxScore(scores) == 1.0
  {
    var k: nat :| OccursAt(doc, query, k);
    ContiguousScoresOne(doc, query, k);
    assert Scored(doc, query, k, scores[k]);
    ScoresInRange(doc, query, scores);
    MaxScoreIsMax(scores);
    assert scores[k] in scores;
  }

  // ----- where a passage is found

  /** The first window with the full score. */
  ghost predicate FirstFull(doc: seq<string>, query: seq<string>, s: nat) {
    && query != [] && s + |query| <= |doc| && Score(Window(doc, |query|, s), query) == 1.0
    && forall k | 0 <= k < s :: Score(Window(doc, |query|, k), query) < 1.0
  }

  lemma BestIsFirstFull(doc: seq<string>, query: seq<string>, scores: seq<WinScore>)
    requires AllScored(doc, query, scores) && MaxScore(scores) == 1.0
    ensures BestIndex(scores) >= 0 && FirstFull(doc, query, BestIndex(scores))
  {
    MaxScoreIsMax(scores);
    var b := BestIndex(scores);
    assert Scored(doc, query, b, scores[b]);
    forall k | 0 <= k < b ensures Score(Window(doc, |query|, k), query) < 1.0 {
      assert Scored(doc, query, k, scores[k]);
    }
  }

  ghost predicate NoneOf(s: seq<string>, query: seq<string>) { forall i | 0 <= i < |s| :: s[i] !in query }

  lemma NotAmong(s: seq<string>, query: seq<string>, w: string)
    requires w in query && NoneOf(s, query)
    ensures multiset(s)[w] == 0
  {
    assert w !in s;
  }

  lemma CountOfBoth(a: seq<string>, b: seq<string>, w: string)
    ensures multiset(a + b)[w] == multiset(a)[w] + multiset(b)[w]
  {
  }

  /** Where the query itself is read after words that are none of its own, each of its words is a hit. */
  lemma HitInside(pre: seq<string>, some: seq<string>, w: string, rest: seq<string>)
    requires NoneOf(pre, some + [w] + rest)
    ensures Hit(pre + some, w, some + [w] + rest)
  {
    NotAmong(pre, some + [w] + rest, w);
    CountOfBoth(pre, some, w);
    CountOfBoth(some + [w], rest, w);
    CountOfBoth(some, [w], w);
  }

  /** Once the whole query has been read, nothing is. */
  lemma NoHitAfter(pre: seq<string>, query: seq<string>, rest: seq<string>, w: string)
    ensures !Hit(pre + query + rest, w, query)
  {
    CountOfBoth(pre + query, rest, w);
    CountOfBoth(pre, query, w);
  }

  ghost predicate Hits(window: seq<string>, query: seq<string>, first: int, last: nat) {
    FirstHit(window, query) == first && LastHit(window, query) == last
  }

  lemma HitsMore(window: seq<string>, w: string, query: seq<string>, first: int, last: nat)
    requires Hits(window, query, first, last)
    ensures Hit(window, w, query) ==> Hits(window + [w], query, if first < 0 then |window| else first, |window|)
    ensures !Hit(window, w, query) ==> Hits(window + [w], query, first, last)
  {
    assert (window + [w])[..|window|] == window;
  }

  lemma {:induction false} HitsBefore(pre: seq<string>, query: seq<string>)
    requires NoneOf(pre, query)
    ensures Hits(pre, query, -1, 0)
  {
    if pre != [] {
      var n := |pre| - 1;
      HitsBefore(pre[..n], query);
      HitsMore(pre[..n], pre[n], query, -1, 0);
      assert pre == pre[..n] + [pre[n]] && multiset(query)[pre[n]] == 0;
    }
  }

  lemma {:induction false} HitsInside(pre: seq<string>, some: seq<string>, rest: seq<string>)
    requires NoneOf(pre, some + rest) && some != []
    ensures Hits(pre + some, some + rest, |pre|, |pre| + |some| - 1)
  {
    var n := |some| - 1;
    var less, w, query := some[..n], some[n], some + rest;
    assert query == less + [w] + rest == less + ([w] + rest) && pre + some == (pre + less) + [w];
    HitInside(pre, less, w, rest);
    if less == [] {
      HitsBefore(pre, query);
      assert pre + less == pre;
      HitsMore(pre + less, w, query, -1, 0);
    } else {
      HitsInside(pre, less, [w] + rest);
      HitsMore(pre + less, w, query, |pre|, |pre| + n - 1);
    }
  }

  /** So the hits run exactly over the words of the query where it is first found. */
  lemma {:induction false} HitsAfter(pre: seq<string>, query: seq<string>, rest: seq<string>)
    requires NoneOf(pre, query) && query != []
    ensures Hits(pre + query + rest, query, |pre|, |pre| + |query| - 1)
  {
    if rest == [] {
      assert query + [] == query && pre + query + rest == pre + query;
      HitsInside(pre, query, []);
    } else {
      var n := |rest| - 1;
      HitsAfter(pre, query, rest[..n]);
      NoHitAfter(pre, query, rest[..n], rest[n]);
      HitsMore(pre + query + rest[..n], rest[n], query, |pre|, |pre| + |query| - 1);
      assert pre + query + rest == (pre + query + rest[..n]) + [rest[n]];
    }
  }

  lemma SubsetIsSmaller(a: multiset<string>, b: multiset<string>)
    requires a <= b
    ensures |a| <= |b|
  {
    assert b == a + (b - a);
  }

  /** Words that are none of the query's do not help to hold it. */
  lemma HeldByTheRest(pre: seq<string>, part: seq<string>, query: seq<string>)
    requires NoneOf(pre, query) && multiset(query) <= multiset(pre + part)
    ensures |query| <= |part|
  {
    forall w | w in multiset(query) ensures multiset(query)[w] <= multiset(part)[w] {
      NotAmong(pre, query, w);
      CountOfBoth(pre, part, w);
    }
    SubsetIsSmaller(multiset(query), multiset(part));
  }

  lemma NoneBetween(doc: seq<string>, query: seq<string>, s: nat, cut: nat, k: nat)
    requires s <= cut <= k <= |doc| && forall i | s <= i < k :: doc[i] !in query
    ensures NoneOf(doc[s..cut], query)
  {
  }

  /** A stretch that holds every word of the query and begins before the passage, with no word of the query in between,
      holds the passage. */
  lemma StretchReaches(doc: seq<string>, query: seq<string>, s: nat, end: nat, k: nat)
    requires s <= end <= |doc| && s <= k <= |doc| && query != []
    requires multiset(query) <= multiset(doc[s..end])
    requires forall i | s <= i < k :: doc[i] !in query
    ensures k + |query| <= end
  {
    var cut := if end < k then end else k;
    NoneBetween(doc, query, s, cut, k);
    assert doc[s..end] == doc[s..cut] + doc[cut..end];
    HeldByTheRest(doc[s..cut], doc[cut..end], query);
  }

  /** A stretch around the passage, with no word of the query before it, reports the passage itself. */
  lemma StretchReports(doc: seq<string>, query: seq<string>, s: nat, end: nat, k: nat)
    requires s <= k && k + |query| <= end <= |doc| && query != [] && doc[k..k + |query|] == query
    requires forall i | s <= i < k :: doc[i] !in query
    ensures Hits(doc[s..end], query, k - s, k - s + |query| - 1)
  {
    NoneBetween(doc, query, s, k, k);
    assert doc[s..end] == doc[s..k] + doc[k..k + |query|] + doc[k + |query|..end];
    HitsAfter(doc[s..k], query, doc[k + |query|..end]);
  }

  /** No word of the query stands from s up to k. */
  ghost predicate Clear(doc: seq<string>, query: seq<string>, s: nat, k: nat) {
    k <= |doc| && forall i | s <= i < k :: doc[i] !in query
  }

  /** A window with the full score that begins no later than the passage, with no word of the query in between, reports
      the passage. */
  lemma FullWindowReports(doc: seq<string>, query: seq<string>, s: nat, k: nat, w: WinScore)
    requires |query| > 1 && s <= k && OccursAt(doc, query, k) && Scored(doc, query, s, w) && w.score == 1.0
    requires Clear(doc, query, s, k)
    ensures w.firstHit == k && w.lastHit == k + |query| - 1
  {
    var end := WindowEnd(doc, |query|, s);
    assert Window(doc, |query|, s) == doc[s..end];
    ScoreBounds(doc[s..end], query);
    StretchReaches(doc, query, s, end, k);
    StretchReports(doc, query, s, end, k);
  }

  /** A passage that stands at k is found in the first window with the full score, no later than k, and is reported
      there unless a word of it stands in between. */
  lemma PassageIsReported(doc: seq<string>, query: seq<string>, scores: seq<WinScore>, k: nat)
    requires AllScored(doc, query, scores) && |query| > 1 && OccursAt(doc, query, k)
    ensures var b := BestIndex(scores);
            && 0 <= b <= k && b < |scores| && FirstFull(doc, query, b)
            && (Clear(doc, query, b, k) ==> scores[b].firstHit == k && scores[b].lastHit == k + |query| - 1)
  {
    ContiguousIsFound(doc, query, scores);
    BestIsFirstFull(doc, query, scores);
    ContiguousScoresOne(doc, query, k);
    var b := BestIndex(scores);
    assert Scored(doc, query, b, scores[b]);
    if Clear(doc, query, b, k) { FullWindowReports(doc, query, b, k, scores[b]); }
  }

  // ----- which word a full window points at

  /** The first word from s on that is one of the query's, the end of the document if there is none. */
  function NextOf(doc: seq<string>, query: seq<string>, s: nat): (j: nat)
    requires s <= |doc|
    ensures s <= j <= |doc| && (j < |doc| ==> doc[j] in query)
    ensures forall i | s <= i < j :: doc[i] !in query
    decreases |doc| - s
  {
    if s == |doc| || doc[s] in query then s else NextOf(doc, query, s + 1)
  }

  /** It is the passage's first word exactly when none of its words stands before it. */
  lemma NextIsClear(doc: seq<string>, query: seq<string>, s: nat, k: nat)
    requires s <= k < |doc| && doc[k] in query
    ensures NextOf(doc, query, s) <= k && (NextOf(doc, query, s) == k <==> Clear(doc, query, s, k))
  {
  }

  /** The first of its words a window holds is its first hit. */
  lemma {:induction false} FirstOfItsWords(pre: seq<string>, w: string, rest: seq<string>, query: seq<string>)
    requires NoneOf(pre, query) && w in query
    ensures FirstHit(pre + [w] + rest, query) == |pre|
  {
    if rest == [] {
      HitsBefore(pre, query);
      NotAmong(pre, query, w);
      HitsMore(pre, w, query, -1, 0);
      assert pre + [w] + [] == pre + [w];
    } else {
      var n := |rest| - 1;
      var window := pre + [w] + rest[..n];
      FirstOfItsWords(pre, w, rest[..n], query);
      HitsMore(window, rest[n], query, |pre|, LastHit(window, query));
      assert pre + [w] + rest == window + [rest[n]];
    }
  }

  /** All the hits lie from the first to the last. */
  lemma {:induction false} HitsSpan(window: seq<string>, query: seq<string>)
    ensures FirstHit(window, query) >= 0 ==>
              Common(window, query) <= LastHit(window, query) - FirstHit(window, query) + 1
  {
    HitsInWindow(window, query);
    if window != [] {
      var n := |window| - 1;
      HitsSpan(window[..n], query);
      HitsInWindow(window[..n], query);
      assert window == window[..n] + [window[n]];
      CommonStep(window[..n], window[n], query);
    }
  }

  lemma HasAWord(doc: seq<string>, query: seq<string>, s: nat, end: nat)
    requires s <= end <= |doc| && query != [] && multiset(query) <= multiset(doc[s..end])
    ensures NextOf(doc, query, s) < end
  {
    assert query[0] in multiset(query);
    var i :| 0 <= i < |doc[s..end]| && doc[s..end][i] == query[0];
    assert doc[s + i] in query;
  }

  /** A stretch that holds a word of the query has its first hit at the first of them. */
  lemma FirstHitIsNext(doc: seq<string>, query: seq<string>, s: nat, end: nat)
    requires s <= end <= |doc| && NextOf(doc, query, s) < end
    ensures FirstHit(doc[s..end], query) == NextOf(doc, query, s) - s
  {
    var j := NextOf(doc, query, s);
    NoneBetween(doc, query, s, j, j);
    assert doc[s..end] == doc[s..j] + [doc[j]] + doc[j + 1..end];
    FirstOfItsWords(doc[s..j], doc[j], doc[j + 1..end], query);
  }

  /** A stretch that holds the whole query has hits enough for all its words. */
  lemma StretchHits(doc: seq<string>, query: seq<string>, s: nat, end: nat)
    requires s <= end <= |doc| && query != [] && multiset(query) <= multiset(doc[s..end])
    ensures NextOf(doc, query, s) < end && FirstHit(doc[s..end], query) == NextOf(doc, query, s) - s
    ensures LastHit(doc[s..end], query) - FirstHit(doc[s..end], query) >= |query| - 1
  {
    HasAWord(doc, query, s, end);
    FirstHitIsNext(doc, query, s, end);
    CommonBounds(doc[s..end], query);
    HitsSpan(doc[s..end], query);
  }

  /** So a window with the full score points as far behind the first of the query's words in it as the query's own words
      say. */
  lemma FullWindowTarget(doc: seq<string>, query: seq<string>, s: nat, w: WinScore, prefixWords: nat)
    requires |query| > 1 && s < |doc| && Scored(doc, query, s, w) && w.score == 1.0 && 0 < prefixWords <= |query|
    ensures Target(w, prefixWords) == NextOf(doc, query, s) + prefixWords - 1 < |doc|
  {
    var end := WindowEnd(doc, |query|, s);
    assert Window(doc, |query|, s) == doc[s..end];
    ScoreBounds(doc[s..end], query);
    StretchHits(doc, query, s, end);
    HitsInWindow(doc[s..end], query);
  }

  lemma {:induction false} BigramsOfSuffix(window: seq<string>, n: nat)
    requires n < |window|
    ensures Bigrams(window[n..]) == Bigrams(window)[n..]
  {
    var rest := window[..|window| - 1];
    if n < |rest| {
      BigramsOfSuffix(rest, n);
      assert window[n..][..|window| - n - 1] == rest[n..];
    }
  }

  lemma MultisetSuffix(s: seq<string>, n: nat)
    requires n <= |s|
    ensures multiset(s[n..]) <= multiset(s)
  {
    assert s == s[..n] + s[n..];
  }

  /** A window that ends with the query has the full score. */
  lemma SuffixScoresOne(window: seq<string>, query: seq<string>, n: nat)
    requires |query| > 1 && n + |query| == |window| && window[n..] == query
    ensures Score(window, query) == 1.0
  {
    MultisetSuffix(window, n);
    BigramsOfSuffix(window, n);
    MultisetSuffix(Bigrams(window), n);
    ScoreBounds(window, query);
  }

  /** The passage stands at k, and from the first full window's start up to k none of its words does. */
  ghost predicate StandsClear(doc: seq<string>, query: seq<string>, b: nat, k: nat) {
    OccursAt(doc, query, k) && FirstFull(doc, query, b) && Clear(doc, query, b, k)
  }

  lemma OneFirstFull(doc: seq<string>, query: seq<string>, s: nat, t: nat)
    requires FirstFull(doc, query, s) && FirstFull(doc, query, t)
    ensures s == t
  {
  }

  /** Then its own words are what the best window reports. */
  lemma ClearPassageIsReported(doc: seq<string>, query: seq<string>, scores: seq<WinScore>, b: nat, k: nat)
    requires AllScored(doc, query, scores) && |query| > 1 && StandsClear(doc, query, b, k)
    ensures BestIndex(scores) == b < |scores|
    ensures scores[b].firstHit == k && scores[b].lastHit == k + |query| - 1
  {
    PassageIsReported(doc, query, scores, k);
    OneFirstFull(doc, query, BestIndex(scores), b);
  }

  /** Every hit a window reports is a word of the document. */
  lemma HitsInDocument(doc: seq<string>, query: seq<string>, start: nat, w: WinScore)
    requires query != [] && start + |query| <= |doc| && Scored(doc, query, start, w)
    ensures w.firstHit <= w.lastHit < |doc|
  {
    var window := Window(doc, |query|, start);
    HitsInWindow(window, query);
    assert |window| > 0;
  }

  // ----- the matchers

  method Prepare(query: seq<string>) returns (q: Query)
    requires query != []
    ensures Prepared(q) && q.words == query
  {
    var words := CountItems(query);
    var bigrams := CountItems(Bigrams(query));
    q := Query(query, words, bigrams);
  }

  method ScoreAll(doc: seq<string>, query: seq<string>) returns (scores: seq<WinScore>)
    requires query != [] && |query| <= |doc|
    ensures AllScored(doc, query, scores)
  {
    var q := Prepare(query);
    scores := [];
    for start := 0 to |doc| - |query| + 1
      invariant |scores| == start && forall i | 0 <= i < start :: Scored(doc, query, i, scores[i])
    {
      var w := ScoreWindow(doc, q, start);
      scores := scores + [w];
    }
  }

  /** Where a passage ends in the document, and how sure the match is. */
  datatype Answer = Answer(fraction: real, confidence: real, margin: real, ok: bool)

  const NO_ANSWER: Answer := Answer(0.0, 0.0, 0.0, false)

  function Fraction(words: seq<DocWord>, totalRunes: nat, i: nat): real
    requires i < |words| && totalRunes > 0
  {
    AudioMap.Clamp01(words[i].endRune as real / totalRunes as real)
  }

  /** The place is the end of word number i: that share of the document's characters. */
  ghost predicate EndsAt(words: seq<DocWord>, totalRunes: nat, i: nat, place: real) {
    i < |words| && (words[i].endRune <= totalRunes ==> place * totalRunes as real == words[i].endRune as real)
  }

  lemma FractionEndsAt(words: seq<DocWord>, totalRunes: nat, i: nat)
    requires i < |words| && totalRunes > 0
    ensures EndsAt(words, totalRunes, i, Fraction(words, totalRunes, i))
  {
    var e, n := words[i].endRune, totalRunes;
    if e <= n { RatioBounds(e, n); }
    assert e as real / n as real * n as real == e as real;
  }

  /** Wherever the passage stands clear, word number i is its word number n. */
  ghost predicate LiesInPassage(doc: seq<string>, query: seq<string>, n: int, i: nat) {
    forall b: nat, k: nat | StandsClear(doc, query, b, k) :: i == k + n
  }

  lemma TheHitsLieInPassage(doc: seq<string>, query: seq<string>, scores: seq<WinScore>, best: nat)
    requires AllScored(doc, query, scores) && |query| > 1 && best == BestIndex(scores) < |scores|
    ensures LiesInPassage(doc, query, 0, scores[best].firstHit)
    ensures LiesInPassage(doc, query, |query| - 1, scores[best].lastHit)
  {
    forall b: nat, k: nat | StandsClear(doc, query, b, k)
      ensures scores[best].firstHit == k + 0 && scores[best].lastHit == k + (|query| - 1)
    {
      ClearPassageIsReported(doc, query, scores, b, k);
    }
  }

  lemma TheTargetLiesInPassage(doc: seq<string>, query: seq<string>, w: WinScore, prefixWords: nat)
    requires LiesInPassage(doc, query, 0, w.firstHit) && LiesInPassage(doc, query, |query| - 1, w.lastHit)
    requires 0 < prefixWords <= |query|
    ensures LiesInPassage(doc, query, prefixWords - 1, Target(w, prefixWords))
  {
  }

  predicate Searchable(words: seq<DocWord>, totalRunes: nat, query: seq<string>) {
    |query| >= MIN_QUERY && |words| >= |query| && totalRunes > 0
  }

  /** What both matchers find out before they decide: the best score, where it is first reached, and that it is 1 when
      the query occurs. */
  ghost predicate Best(doc: seq<string>, query: seq<string>, scores: seq<WinScore>, best: real, bestIdx: int) {
    && AllScored(doc, query, scores) && best == MaxScore(scores) && bestIdx == BestIndex(scores)
    && 0.0 <= best <= 1.0 && -1 <= bestIdx < |scores| && (bestIdx < 0 <==> best == 0.0)
    && (bestIdx >= 0 ==> scores[bestIdx].firstHit <= scores[bestIdx].lastHit < |doc|)
    && (Occurs(doc, query) ==> best == 1.0)
  }

  method Search(doc: seq<string>, query: seq<string>) returns (scores: seq<WinScore>, best: real, bestIdx: int)
    requires 1 < |query| <= |doc|
    ensures Best(doc, query, scores, best, bestIdx)
  {
    scores := ScoreAll(doc, query);
    best, bestIdx := FindBest(scores);
    MaxScoreIsMax(scores);
    ScoresInRange(doc, query, scores);
    if Occurs(doc, query) { ContiguousIsFound(doc, query, scores); }
    if bestIdx >= 0 { HitsInDocument(doc, query, bestIdx, scores[bestIdx]); }
  }

  /** `MatchTranscriptDetailInXHTML`, from the words of transcript and document on. */
  method MatchTranscript(words: seq<DocWord>, totalRunes: nat, query: seq<string>)
    returns (r: Answer, scores: seq<WinScore>)
    ensures |query| < 4 || |words| < |query| || totalRunes == 0 ==> r == Answer(0.0, 0.0, 0.0, false)
    ensures Searchable(words, totalRunes, query) ==>
              && Best(Norms(words), query, scores, r.confidence, BestIndex(scores))
              && (r.ok <==> 100.0 * r.confidence >= 55.0)
              && (r.ok ==> var best := scores[BestIndex(scores)];
                    && r.margin == r.confidence - RunnerUp(scores, best)
                    && r.fraction == Fraction(words, totalRunes, best.lastHit))
    ensures r.ok ==> EndsAt(words, totalRunes, scores[BestIndex(scores)].lastHit, r.fraction)
    ensures r.ok ==> LiesInPassage(Norms(words), query, |query| - 1, scores[BestIndex(scores)].lastHit)
    ensures 0.0 <= r.margin <= r.confidence <= 1.0
    ensures Searchable(words, totalRunes, query) && Occurs(Norms(words), query) ==> r.ok && r.confidence == 1.0
  {
    r, scores := NO_ANSWER, [];
    if |query| < MIN_QUERY || |words| < |query| || totalRunes <= 0 {
      return;
    }
    var best, bestIdx;
    scores, best, bestIdx := Search(Norms(words), query);
    if bestIdx < 0 || best < TRANSCRIPT_CONFIDENCE {
      return Answer(0.0, best, 0.0, false), scores;
    }
    var second := SecondBest(scores, scores[bestIdx]);
    RunnerUpBounds(scores, scores[bestIdx]);
    r := Answer(Fraction(words, totalRunes, scores[bestIdx].lastHit), best, best - second, true);
    FractionEndsAt(words, totalRunes, scores[bestIdx].lastHit);
    TheHitsLieInPassage(Norms(words), query, scores, bestIdx);
  }

  /** The running maximum of the window loop. */
  method FindBest(scores: seq<WinScore>) returns (best: real, bestIdx: int)
    ensures best == MaxScore(scores) && bestIdx == BestIndex(scores)
  {
    best, bestIdx := 0.0, -1;
    for i := 0 to |scores|
      invariant best == MaxScore(scores[..i]) && bestIdx == BestIndex(scores[..i])
    {
      assert scores[..i + 1][..i] == scores[..i];
      if scores[i].score > best {
        best, bestIdx := scores[i].score, i;
      }
    }
    assert scores[..|scores|] == scores;
  }

  /** The loop over the windows that do not touch the best one. */
  method SecondBest(scores: seq<WinScore>, best: WinScore) returns (second: real)
    ensures second == RunnerUp(scores, best)
  {
    second := 0.0;
    for i := 0 to |scores|
      invariant second == RunnerUp(scores[..i], best)
    {
      assert scores[..i + 1][..i] == scores[..i];
      if Disjoint(scores[i], best) {
        if scores[i].score > second {
          second := scores[i].score;
        }
      }
    }
    assert scores[..|scores|] == scores;
  }

  /** The word a locator match points at: the one its prefix ends on, if that lies inside the match. */
  function Target(w: WinScore, prefixWords: nat): nat {
    var idx := w.firstHit + prefixWords - 1;
    if prefixWords > 0 && w.firstHit <= idx <= w.lastHit then idx else w.lastHit
  }

  /** A locator match: accepted from its own confidence on, it answers with the target of the first best window. */
  ghost predicate Located(words: seq<DocWord>, totalRunes: nat, query: seq<string>, prefixWords: nat, r: Answer,
                          scores: seq<WinScore>)
    requires totalRunes > 0
  {
    && Best(Norms(words), query, scores, r.confidence, BestIndex(scores))
    && (r.ok <==> 100.0 * r.confidence >= 65.0)
    && (r.ok ==> r.fraction == Fraction(words, totalRunes, Target(scores[BestIndex(scores)], prefixWords)))
  }

  /** `MatchLocatorTextInXHTML`, from the words on; `prefixWords` of the query's words end at the position sought. */
  method MatchLocatorText(words: seq<DocWord>, totalRunes: nat, query: seq<string>, prefixWords: nat)
    returns (r: Answer, scores: seq<WinScore>)
    ensures |query| < 4 || |words| < |query| || totalRunes == 0 ==> r == Answer(0.0, 0.0, 0.0, false)
    ensures Searchable(words, totalRunes, query) ==> Located(words, totalRunes, query, prefixWords, r, scores)
    ensures r.ok ==> EndsAt(words, totalRunes, Target(scores[BestIndex(scores)], prefixWords), r.fraction)
    ensures r.ok && 0 < prefixWords <= |query| ==>
              LiesInPassage(Norms(words), query, prefixWords - 1, Target(scores[BestIndex(scores)], prefixWords))
    ensures Searchable(words, totalRunes, query) && Occurs(Norms(words), query) ==> r.ok && r.confidence == 1.0
  {
    r, scores := NO_ANSWER, [];
    if |query| < MIN_QUERY || |words| < |query| || totalRunes <= 0 {
      return;
    }
    var best, bestIdx;
    scores, best, bestIdx := Search(Norms(words), query);
    if best < LOCATOR_CONFIDENCE {
      return Answer(0.0, best, 0.0, false), scores;
    }
    var target := Target(scores[bestIdx], prefixWords);
    r := Answer(Fraction(words, totalRunes, target), best, 0.0, true);
    FractionEndsAt(words, totalRunes, target);
    TheHitsLieInPassage(Norms(words), query, scores, bestIdx);
    if 0 < prefixWords <= |query| { TheTargetLiesInPassage(Norms(words), query, scores[bestIdx], prefixWords); }
  }
}
