/** Finding a passage in a document by its words (internal/audiomap/stt.go). Words arrive normalised; a bigram is two
  neighbouring words with a blank between them.
*/
module Passage {

  datatype DocWord = DocWord(norm: string, startRune: nat, endRune: nat)

  function Norms(words: seq<DocWord>): (s: seq<string>)
    ensures |s| == |words| && forall i | 0 <= i < |s| :: s[i] == words[i].norm
  {
    seq(|words|, i requires 0 <= i < |words| => words[i].norm)
  }

  function Bigram(a: string, b: string): string { a + " " + b }

  function Bigrams(ws: seq<string>): (s: seq<string>)
    ensures |s| == if ws == [] then 0 else |ws| - 1
  {
    if |ws| < 2 then [] else Bigrams(ws[..|ws| - 1]) + [Bigram(ws[|ws| - 2], ws[|ws| - 1])]
  }

  lemma {:induction false} BigramAt(ws: seq<string>, i: nat)
    requires i + 1 < |ws|
    ensures Bigrams(ws)[i] == Bigram(ws[i], ws[i + 1])
  {
    if i + 2 < |ws| { BigramAt(ws[..|ws| - 1], i); }
  }

  // ----- what a score means

  /** How many of the query's items the window has, counting each at most as often as the query does. */
  ghost function Common(window: seq<string>, query: seq<string>): nat { |multiset(window) * multiset(query)| }

  /** 0.65 of the share of words found and 0.35 of the share of bigrams found. */
  function ScoreOf(hits: int, bigramHits: int, qLen: int): real
    requires qLen > 0
  {
    0.65 * (hits as real / qLen as real)
    + 0.35 * (if qLen > 1 then bigramHits as real / (qLen - 1) as real else 0.0)
  }

  ghost function Score(window: seq<string>, query: seq<string>): real
    requires query != []
  {
    ScoreOf(Common(window, query), Common(Bigrams(window), Bigrams(query)), |query|)
  }

  lemma CommonBounds(window: seq<string>, query: seq<string>)
    ensures Common(window, query) <= |query|
    ensures Common(window, query) == |query| <==> multiset(query) <= multiset(window)
  {
    var w, q := multiset(window), multiset(query);
    assert q == w * q + (q - w);
    assert |q| == |query|;
    if q <= w {
      assert w * q == q;
    } else {
      var x :| x in q && q[x] > w[x];
      assert x in q - w;
    }
  }

  lemma RatioBounds(a: int, b: int)
    requires 0 <= a <= b && b > 0
    ensures 0.0 <= a as real / b as real <= 1.0
    ensures a as real / b as real == 1.0 <==> a == b
  {
    var r := a as real / b as real;
    assert r * (b as real) == a as real;
    assert r >= 1.0 ==> r * (b as real) >= b as real;
  }

  lemma ScoreOfBounds(h: int, g: int, n: int)
    requires n > 0 && 0 <= h <= n && 0 <= g <= n - 1
    ensures 0.0 <= ScoreOf(h, g, n) <= 1.0
    ensures n > 1 ==> (ScoreOf(h, g, n) == 1.0 <==> h == n && g == n - 1)
  {
    RatioBounds(h, n);
    if n > 1 { RatioBounds(g, n - 1); }
  }

  /** A score lies between 0 and 1, and is 1 exactly when the window has every word and every bigram of the query. */
  lemma ScoreBounds(window: seq<string>, query: seq<string>)
    requires query != []
    ensures 0.0 <= Score(window, query) <= 1.0
    ensures |query| > 1 ==>
            (Score(window, query) == 1.0 <==>
             multiset(query) <= multiset(window) && multiset(Bigrams(query)) <= multiset(Bigrams(window)))
  {
    CommonBounds(window, query);
    CommonBounds(Bigrams(window), Bigrams(query));
    ScoreOfBounds(Common(window, query), Common(Bigrams(window), Bigrams(query)), |query|);
  }

  // ----- counting with a cap

  /** How often each item occurs, as the code's maps hold it. */
  ghost predicate Counts(m: map<string, nat>, items: multiset<string>) {
    (forall w :: w in m <==> w in items) && (forall w | w in m :: m[w] == items[w])
  }

  function Get(m: map<string, nat>, w: string): nat { if w in m then m[w] else 0 }

  method CountItems(items: seq<string>) returns (m: map<string, nat>)
    ensures Counts(m, multiset(items))
  {
    m := map[];
    for i := 0 to |items|
      invariant Counts(m, multiset(items[..i]))
    {
      assert items[..i + 1] == items[..i] + [items[i]];
      m := m[items[i] := Get(m, items[i]) + 1];
    }
    assert items[..|items|] == items;
  }

  /** The next item is a hit exactly when it has not yet been counted as often as the query has it. */
  ghost predicate Hit(before: seq<string>, w: string, query: seq<string>) { multiset(before)[w] < multiset(query)[w] }

  /** The capped counter after some items: each counted as in the intersection with the query. */
  ghost predicate Capped(seen: map<string, nat>, before: seq<string>, query: seq<string>) {
    forall w :: Get(seen, w) == (multiset(before) * multiset(query))[w]
  }

  lemma CommonStep(before: seq<string>, w: string, query: seq<string>)
    ensures multiset(before + [w]) * multiset(query)
            == multiset(before) * multiset(query) + if Hit(before, w, query) then multiset{w} else multiset{}
    ensures Common(before + [w], query) == Common(before, query) + if Hit(before, w, query) then 1 else 0
  {
    var b, q := multiset(before), multiset(query);
    assert multiset(before + [w]) == b + multiset{w};
    assert (b + multiset{w}) * q == b * q + if Hit(before, w, query) then multiset{w} else multiset{};
  }

  /** One capped counter step, as the code takes it for words and again for bigrams. */
  method CountCapped(counts: map<string, nat>, seen: map<string, nat>, hits: nat, ghost before: seq<string>, w: string,
                     ghost query: seq<string>)
    returns (seen': map<string, nat>, hits': nat, hit: bool)
    requires Counts(counts, multiset(query)) && Capped(seen, before, query) && hits == Common(before, query)
    ensures Capped(seen', before + [w], query) && hits' == Common(before + [w], query) && hit == Hit(before, w, query)
  {
    CommonStep(before, w, query);
    hit := w in counts && Get(seen, w) < counts[w];
    if hit {
      seen', hits' := seen[w := Get(seen, w) + 1], hits + 1;
    } else {
      seen', hits' := seen, hits;
    }
  }

  /** The offset of the last hit in a window, 0 if there is none. */
  ghost function LastHit(window: seq<string>, query: seq<string>): nat {
    if window == [] then 0
    else
      var n := |window| - 1;
      if Hit(window[..n], window[n], query) then n else LastHit(window[..n], query)
  }

  /** The offset of the first hit, -1 if there is none. */
  ghost function FirstHit(window: seq<string>, query: seq<string>): int {
    if window == [] then -1
    else
      var n := |window| - 1;
      var first := FirstHit(window[..n], query);
      if first < 0 && Hit(window[..n], window[n], query) then n else first
  }

  lemma {:induction false} HitsInWindow(window: seq<string>, query: seq<string>)
    ensures window != [] ==> LastHit(window, query) < |window|
    ensures -1 <= FirstHit(window, query) < |window|
    ensures FirstHit(window, query) >= 0 ==> FirstHit(window, query) <= LastHit(window, query)
    ensures FirstHit(window, query) < 0 <==> Common(window, query) == 0
  {
    if window != [] {
      var n := |window| - 1;
      HitsInWindow(window[..n], query);
      assert window == window[..n] + [window[n]];
      CommonStep(window[..n], window[n], query);
    }
  }

  // ----- one window

  datatype WinScore = WinScore(start: nat, firstHit: nat, lastHit: nat, score: real)

  /** The query as both matchers prepare it. */
  datatype Query = Query(words: seq<string>, wordCounts: map<string, nat>, bigramCounts: map<string, nat>)

  ghost predicate Prepared(q: Query) {
    q.words != [] && Counts(q.wordCounts, multiset(q.words)) && Counts(q.bigramCounts, multiset(Bigrams(q.words)))
  }

  /** Where the window that starts here ends. */
  function WindowEnd(doc: seq<string>, qLen: nat, start: nat): (end: nat)
    requires start <= |doc|
    ensures start <= end <= |doc|
  {
    var size := if qLen + qLen / 3 > |doc| then |doc| else qLen + qLen / 3;
    if start + size > |doc| then |doc| else start + size
  }

  ghost function Window(doc: seq<string>, qLen: nat, start: nat): seq<string>
    requires start <= |doc|
  {
    doc[start..WindowEnd(doc, qLen, start)]
  }

  /** What the scan of one window reports. */
  ghost predicate Scored(doc: seq<string>, query: seq<string>, start: nat, w: WinScore)
    requires query != [] && start < |doc|
  {
    var window := Window(doc, |query|, start);
    && w.start == start && w.score == Score(window, query)
    && w.firstHit == start + (if FirstHit(window, query) < 0 then 0 else FirstHit(window, query))
    && w.lastHit == start + LastHit(window, query)
  }

  /** The word counters of a scan that has reached offset n of the window. */
  datatype WordScan = WordScan(hits: nat, seen: map<string, nat>, first: int, last: nat)

  /** Its bigram counters. */
  datatype BigramScan = BigramScan(hits: nat, seen: map<string, nat>)

  ghost predicate WordsScanned(window: seq<string>, query: seq<string>, s: WordScan) {
    && s.hits == Common(window, query) && Capped(s.seen, window, query)
    && s.first == FirstHit(window, query) && s.last == LastHit(window, query)
  }

  ghost predicate BigramsScanned(bigrams: seq<string>, query: seq<string>, s: BigramScan) {
    s.hits == Common(bigrams, Bigrams(query)) && Capped(s.seen, bigrams, Bigrams(query))
  }

  /** The part of the scan's body that looks at one word. */
  method ScanWord(q: Query, ghost before: seq<string>, n: nat, w: string, s: WordScan) returns (t: WordScan)
    requires Prepared(q) && n == |before| && WordsScanned(before, q.words, s)
    ensures WordsScanned(before + [w], q.words, t)
  {
    var seen, hits, hit := CountCapped(q.wordCounts, s.seen, s.hits, before, w, q.words);
    assert (before + [w])[..n] == before && (before + [w])[n] == w;
    t := WordScan(hits, seen, if hit && s.first < 0 then n else s.first, if hit then n else s.last);
  }

  /** The part that looks at the bigram it starts, if the window has a next word. */
  method ScanBigram(q: Query, ghost before: seq<string>, w: string, next: string, s: BigramScan) returns (t: BigramScan)
    requires Prepared(q) && BigramsScanned(before, q.words, s)
    ensures BigramsScanned(before + [Bigram(w, next)], q.words, t)
  {
    var seen, hits, _ := CountCapped(q.bigramCounts, s.seen, s.hits, before, Bigram(w, next), Bigrams(q.words));
    t := BigramScan(hits, seen);
  }

  /** The words whose bigrams a scan that has looked at n words has counted. */
  function Upto(window: seq<string>, n: nat): (s: seq<string>)
    requires n <= |window|
  {
    if n < |window| then window[..n + 1] else window
  }

  lemma BigramPrefix(window: seq<string>, n: nat)
    requires n < |window|
    ensures Bigrams(Upto(window, n + 1)) ==
            Bigrams(Upto(window, n)) + if n + 1 < |window| then [Bigram(window[n], window[n + 1])] else []
  {
    var u := Upto(window, n + 1);
    if n + 1 < |window| {
      assert u[..|u| - 1] == window[..n + 1];
    } else {
      assert window[..n + 1] == window;
    }
  }

  /** The second half of the scan's body: the bigram a word starts, if the window has a next word. */
  method ScanNext(q: Query, window: seq<string>, n: nat, b: BigramScan) returns (b': BigramScan)
    requires Prepared(q) && n < |window| && BigramsScanned(Bigrams(Upto(window, n)), q.words, b)
    ensures BigramsScanned(Bigrams(Upto(window, n + 1)), q.words, b')
  {
    BigramPrefix(window, n);
    ghost var before, after := Bigrams(Upto(window, n)), Bigrams(Upto(window, n + 1));
    if n + 1 < |window| {
      b' := ScanBigram(q, before, window[n], window[n + 1], b);
      assert BigramsScanned(after, q.words, b');
    } else {
      b' := b;
      assert after == before;
    }
  }

  /** The scan of one window, word by word. */
  method ScanWindow(q: Query, window: seq<string>) returns (s: WordScan, b: BigramScan)
    requires Prepared(q)
    ensures WordsScanned(window, q.words, s) && BigramsScanned(Bigrams(window), q.words, b)
  {
    s, b := WordScan(0, map[], -1, 0), BigramScan(0, map[]);
    NothingScanned(q.words);
    assert window[..0] == [] && Bigrams(Upto(window, 0)) == [];
    for n := 0 to |window|
      invariant Scanned(window, n, q.words, s, b)
    {
      s, b := ScanOne(q, window, n, s, b);
    }
    assert window[..|window|] == window;
  }

  /** Where the scan of a window stands before its word number n. */
  ghost predicate Scanned(window: seq<string>, n: nat, query: seq<string>, s: WordScan, b: BigramScan)
    requires n <= |window|
  {
    WordsScanned(window[..n], query, s) && BigramsScanned(Bigrams(Upto(window, n)), query, b)
  }

  /** The body of the scan's loop. */
  method ScanOne(q: Query, window: seq<string>, n: nat, s: WordScan, b: BigramScan)
    returns (s': WordScan, b': BigramScan)
    requires Prepared(q) && n < |window| && Scanned(window, n, q.words, s, b)
    ensures Scanned(window, n + 1, q.words, s', b')
  {
    s' := ScanWordAt(q, window, n, s);
    b' := ScanNext(q, window, n, b);
  }

  /** Its first half: the word itself. */
  method ScanWordAt(q: Query, window: seq<string>, n: nat, s: WordScan) returns (s': WordScan)
    requires Prepared(q) && n < |window| && WordsScanned(window[..n], q.words, s)
    ensures WordsScanned(window[..n + 1], q.words, s')
  {
    ghost var before := window[..n];
    assert window[..n + 1] == before + [window[n]];
    s' := ScanWord(q, before, n, window[n], s);
  }

  lemma NothingScanned(query: seq<string>)
    ensures WordsScanned([], query, WordScan(0, map[], -1, 0)) && BigramsScanned([], query, BigramScan(0, map[]))
  {
  }

  method ScoreWindow(doc: seq<string>, q: Query, start: nat) returns (w: WinScore)
    requires Prepared(q) && start < |doc|
    ensures Scored(doc, q.words, start, w)
  {
    var s, b := ScanWindow(q, doc[start..WindowEnd(doc, |q.words|, start)]);
    w := WinScore(start, if s.first < 0 then start else start + s.first, start + s.last,
                  ScoreOf(s.hits, b.hits, |q.words|));
  }
}
