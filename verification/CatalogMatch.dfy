/** The loops of `matchCatalogAudiobooksToBooks` (internal/content/audiobooks.go), proved against Catalog's sets. */
module CatalogMatch {
  import opened Wrappers
  import opened Catalog

  /** The three variables every stage grows. */
  datatype Board = Board(usedBooks: set<string>, usedAudio: set<string>, pairs: seq<Pair>)

  ghost function Elements<T>(s: seq<T>): set<T> { set x | x in s }

  ghost predicate NoDup<T>(s: seq<T>) { forall i, j | 0 <= i < j < |s| :: s[i] != s[j] }

  lemma OnlyOne<T>(s: seq<T>, x: T)
    requires NoDup(s) && x in s && forall y | y in s :: y == x
    ensures |s| == 1 && s[0] == x
  {
    if |s| > 1 { TwoDiffer(s); }
  }

  lemma TwoDiffer<T>(s: seq<T>)
    requires NoDup(s) && |s| > 1
    ensures s[0] in s && s[1] in s && s[0] != s[1]
  {
  }

  // ----- the state of a stage in progress

  /** Which lists a stage runs over, and where it started. */
  datatype Stage = Stage(src: Source, k: Keys, books: seq<Book>, audios: seq<Audiobook>, start: Board)

  ghost function FreeBooks(g: Stage): set<Book> { BooksLeft(Elements(g.books), g.start.usedBooks) }

  ghost function FreeAudios(g: Stage): set<Audiobook> { AudiosLeft(Elements(g.audios), g.start.usedAudio) }

  ghost function Goal(g: Stage): set<Pair> { StagePairs(g.src, g.k, FreeBooks(g), FreeAudios(g)) }

  ghost predicate Sound(g: Stage) {
    && UniqueIds(Elements(g.books), Elements(g.audios)) && UniqueCalibre(Elements(g.books), Elements(g.audios))
    && NoDup(g.books) && NoDup(g.audios)
  }

  /** The board after the pairs in `taken` were made. */
  ghost predicate After(g: Stage, taken: set<Pair>, t: Board) {
    && taken <= Goal(g)
    && t.usedBooks == g.start.usedBooks + BookIdsOf(taken)
    && t.usedAudio == g.start.usedAudio + AudioIdsOf(taken)
    && Elements(t.pairs) == Elements(g.start.pairs) + taken
  }

  function Take(t: Board, p: Pair): Board {
    Board(t.usedBooks + {p.book.id}, t.usedAudio + {p.audio.id}, t.pairs + [p])
  }

  /** Each pair is listed once, and both its sides are marked used. */
  ghost predicate Recorded(t: Board) {
    NoDup(t.pairs) && forall p | p in t.pairs :: p.book.id in t.usedBooks && p.audio.id in t.usedAudio
  }

  lemma TakeRecords(t: Board, p: Pair)
    requires Recorded(t) && p.book.id !in t.usedBooks
    ensures Recorded(Take(t, p))
  {
    assert p !in t.pairs;
  }

  lemma TakeKeeps(g: Stage, taken: set<Pair>, t: Board, p: Pair)
    requires After(g, taken, t) && p in Goal(g)
    ensures After(g, taken + {p}, Take(t, p))
  {
    OneMore(taken, t, p);
    UnionIsAssociative(g.start.usedBooks, BookIdsOf(taken), {p.book.id});
    UnionIsAssociative(g.start.usedAudio, AudioIdsOf(taken), {p.audio.id});
    UnionIsAssociative(Elements(g.start.pairs), taken, {p});
  }

  lemma UnionIsAssociative<T>(a: set<T>, b: set<T>, c: set<T>)
    ensures a + b + c == a + (b + c)
  {
  }

  lemma OneMore(taken: set<Pair>, t: Board, p: Pair)
    ensures BookIdsOf(taken + {p}) == BookIdsOf(taken) + {p.book.id}
    ensures AudioIdsOf(taken + {p}) == AudioIdsOf(taken) + {p.audio.id}
    ensures Elements(t.pairs + [p]) == Elements(t.pairs) + {p}
  {
  }

  /** A pair of the goal that is not yet made still has both its sides unused. */
  lemma WaitingIsFree(g: Stage, taken: set<Pair>, t: Board, p: Pair)
    requires Sound(g) && After(g, taken, t) && p in Goal(g) && p !in taken
    ensures p.book.id !in t.usedBooks && p.audio.id !in t.usedAudio
  {
    StageIsOneToOne(g.src, g.k, FreeBooks(g), FreeAudios(g));
    assert forall q | q in taken :: q in Goal(g);
  }

  /** What is unused now was there when the stage began. */
  lemma UnusedWasFree(g: Stage, taken: set<Pair>, t: Board, b: Book, a: Audiobook)
    requires After(g, taken, t)
    ensures b in g.books && b.id !in t.usedBooks ==> b in FreeBooks(g)
    ensures a in g.audios && a.id !in t.usedAudio ==> a in FreeAudios(g) && a.id !in AudioIdsOf(taken)
  {
  }

  /** Every pair of the goal with one of the first i audiobooks has been made. */
  ghost predicate DoneThrough(g: Stage, taken: set<Pair>, i: nat)
    requires i <= |g.audios|
  {
    forall p | p in Goal(g) && p.audio in g.audios[..i] :: p in taken
  }

  /** The round for audiobook number i is right to make its choice, or to make none. */
  ghost predicate RightChoice(g: Stage, taken: set<Pair>, a: Audiobook, choice: Option<Book>) {
    match choice
    case Some(b) => Pair(b, a, g.src) in Goal(g)
    case None => forall p | p in Goal(g) && p.audio == a :: p in taken
  }

  function Make(g: Stage, t: Board, a: Audiobook, choice: Option<Book>): Board {
    if choice.Some? then Take(t, Pair(choice.value, a, g.src)) else t
  }

  ghost function Made(g: Stage, taken: set<Pair>, a: Audiobook, choice: Option<Book>): set<Pair> {
    if choice.Some? then taken + {Pair(choice.value, a, g.src)} else taken
  }

  lemma RoundKeeps(g: Stage, taken: set<Pair>, t: Board, i: nat, choice: Option<Book>)
    requires Sound(g) && i < |g.audios| && After(g, taken, t) && DoneThrough(g, taken, i)
    requires RightChoice(g, taken, g.audios[i], choice)
    ensures After(g, Made(g, taken, g.audios[i], choice), Make(g, t, g.audios[i], choice))
    ensures DoneThrough(g, Made(g, taken, g.audios[i], choice), i + 1)
  {
    var a := g.audios[i];
    if choice.Some? { TakeKeeps(g, taken, t, Pair(choice.value, a, g.src)); }
    forall p | p in Goal(g) && p.audio == a ensures p in Made(g, taken, a, choice) {
      if choice.Some? { OnePairPerAudio(g, p, Pair(choice.value, a, g.src)); }
    }
    OneMoreDone(Goal(g), g.audios, i, taken, Made(g, taken, a, choice));
  }

  lemma RoundRecords(g: Stage, t: Board, a: Audiobook, choice: Option<Book>)
    requires Recorded(t) && (choice.Some? ==> choice.value.id !in t.usedBooks)
    ensures Recorded(Make(g, t, a, choice))
  {
    if choice.Some? { TakeRecords(t, Pair(choice.value, a, g.src)); }
  }

  lemma OneMoreDone(goal: set<Pair>, audios: seq<Audiobook>, i: nat, taken: set<Pair>, taken': set<Pair>)
    requires i < |audios| && taken <= taken'
    requires forall p | p in goal && p.audio in audios[..i] :: p in taken
    requires forall p | p in goal && p.audio == audios[i] :: p in taken'
    ensures forall p | p in goal && p.audio in audios[..i + 1] :: p in taken'
  {
    assert audios[..i + 1] == audios[..i] + [audios[i]];
  }

  lemma OnePairPerAudio(g: Stage, p: Pair, q: Pair)
    requires Sound(g) && p in Goal(g) && q in Goal(g) && p.audio == q.audio
    ensures p == q
  {
    StageIsOneToOne(g.src, g.k, FreeBooks(g), FreeAudios(g));
  }

  lemma AllDone(g: Stage, taken: set<Pair>, t: Board)
    requires After(g, taken, t) && DoneThrough(g, taken, |g.audios|)
    ensures After(g, Goal(g), t)
  {
    forall p | p in Goal(g) ensures p in taken {
      assert p.audio in g.audios[..|g.audios|];
    }
    assert taken == Goal(g);
  }

  lemma StartOfStage(g: Stage)
    ensures After(g, {}, g.start) && DoneThrough(g, {}, 0)
  {
  }

  // ----- grouping by a key

  /** Each list of the map holds exactly the items of s with that key. */
  ghost predicate Grouped<T(!new)>(s: seq<T>, keyed: (T, string) -> bool, m: map<string, seq<T>>) {
    && (forall key | key in m :: m[key] != [] && NoDup(m[key]))
    && (forall key, x | key in m && x in m[key] :: x in s && keyed(x, key))
    && (forall key, x | x in s && keyed(x, key) :: key in m && x in m[key])
  }

  function Lookup<T>(m: map<string, seq<T>>, key: string): seq<T> { if key in m then m[key] else [] }

  /** A list of one means the key is carried by that item alone. */
  lemma GroupOfOne<T(!new)>(s: seq<T>, keyed: (T, string) -> bool, m: map<string, seq<T>>, key: string, x: T)
    requires Grouped(s, keyed, m)
    ensures |Lookup(m, key)| == 1 && Lookup(m, key)[0] == x <==>
            x in s && keyed(x, key) && forall y | y in s && keyed(y, key) :: y == x
  {
    if |Lookup(m, key)| == 1 && Lookup(m, key)[0] == x {
      assert x in m[key];
    }
    if x in s && keyed(x, key) && forall y | y in s && keyed(y, key) :: y == x {
      forall y | y in m[key] ensures y == x {
        assert y in s && keyed(y, key);
      }
      OnlyOne(m[key], x);
    }
  }

  method GroupBy<T(!new, ==)>(s: seq<T>, key: T -> Option<string>, ghost keyed: (T, string) -> bool)
    returns (m: map<string, seq<T>>)
    requires NoDup(s) && forall x, k :: keyed(x, k) <==> key(x) == Some(k)
    ensures Grouped(s, keyed, m)
  {
    m := map[];
    for i := 0 to |s|
      invariant Grouped(s[..i], keyed, m)
    {
      var x := s[i];
      ghost var m0 := m;
      assert s[..i + 1] == s[..i] + [x];
      if key(x).Some? {
        var k := key(x).value;
        assert x !in s[..i];
        m := m[k := Lookup(m, k) + [x]];
        assert forall y :: y in Lookup(m0, k) + [x] <==> y in Lookup(m0, k) || y == x;
      }
    }
    assert s[..|s|] == s;
  }

  // ----- stage 1

  /** A map from keys to the last item that carries each. */
  method ByKey<T(==)>(items: seq<T>, key: T -> Option<string>) returns (m: map<string, T>)
    ensures forall k | k in m :: m[k] in items && key(m[k]) == Some(k)
    ensures forall j | 0 <= j < |items| && key(items[j]).Some? :: key(items[j]).value in m
  {
    m := map[];
    for i := 0 to |items|
      invariant forall k | k in m :: m[k] in items && key(m[k]) == Some(k)
      invariant forall j | 0 <= j < i && key(items[j]).Some? :: key(items[j]).value in m
    {
      if key(items[i]).Some? {
        m := m[key(items[i]).value := items[i]];
      }
    }
  }

  method CalibreStage(g: Stage) returns (t: Board)
    requires g.src == Calibre && Sound(g) && Recorded(g.start)
    ensures After(g, Goal(g), t) && Recorded(t)
  {
    var byKey := ByKey(g.books, BookCalibreKey);
    t := g.start;
    ghost var taken: set<Pair> := {};
    StartOfStage(g);
    for i := 0 to |g.audios|
      invariant After(g, taken, t) && DoneThrough(g, taken, i) && Recorded(t)
    {
      var choice := CalibreChoice(byKey, t, g.audios[i]);
      CalibreChoiceIsRight(g, byKey, taken, t, g.audios[i]);
      RoundKeeps(g, taken, t, i, choice);
      RoundRecords(g, t, g.audios[i], choice);
      taken := Made(g, taken, g.audios[i], choice);
      t := Make(g, t, g.audios[i], choice);
    }
    AllDone(g, taken, t);
  }

  /** The body of the loop: the book of the same folder and calibre id, when both are unused. */
  function CalibreChoice(byKey: map<string, Book>, t: Board, a: Audiobook): (c: Option<Book>)
    ensures c.Some? ==> c.value.id !in t.usedBooks && a.id !in t.usedAudio
  {
    if a.calibreId.None? then None
    else
      var key := CalibreKey(a.folder, a.calibreId.value);
      if key in byKey && byKey[key].id !in t.usedBooks && a.id !in t.usedAudio then Some(byKey[key]) else None
  }

  lemma CalibreChoiceIsRight(g: Stage, byKey: map<string, Book>, taken: set<Pair>, t: Board, a: Audiobook)
    requires g.src == Calibre && Sound(g) && After(g, taken, t) && a in g.audios
    requires forall key | key in byKey :: byKey[key] in g.books && BookCalibreKey(byKey[key]) == Some(key)
    requires forall b | b in g.books && BookCalibreKey(b).Some? :: BookCalibreKey(b).value in byKey
    ensures RightChoice(g, taken, a, CalibreChoice(byKey, t, a))
  {
    var choice := CalibreChoice(byKey, t, a);
    if choice.Some? {
      UnusedWasFree(g, taken, t, choice.value, a);
      EqualCalibreIsMutual(g, choice.value, a);
    } else {
      forall p | p in Goal(g) && p.audio == a ensures p in taken {
        if p !in taken {
          WaitingIsFree(g, taken, t, p);
          assert BookCalibreKey(p.book) == AudioCalibreKey(a);
          SameCalibreBook(g, byKey[AudioCalibreKey(a).value], p.book);
        }
      }
    }
  }

  lemma SameCalibreBook(g: Stage, b: Book, b': Book)
    requires Sound(g) && b in g.books && b' in g.books && BookCalibreKey(b).Some?
             && BookCalibreKey(b) == BookCalibreKey(b')
    ensures b == b'
  {
    CalibreKeyInjective(b.folder, b.calibreId.value, b'.folder, b'.calibreId.value);
  }

  lemma EqualCalibreIsMutual(g: Stage, b: Book, a: Audiobook)
    requires Sound(g) && g.src == Calibre && b in FreeBooks(g) && a in FreeAudios(g)
    requires BookCalibreKey(b).Some? && BookCalibreKey(b) == AudioCalibreKey(a)
    ensures Pair(b, a, Calibre) in Goal(g)
  {
    forall b' | b' in FreeBooks(g) && Rel(Calibre, g.k, FreeBooks(g), b', a) ensures b' == b {
      SameCalibreBook(g, b', b);
    }
    forall a' | a' in FreeAudios(g) && Competes(Calibre, g.k, FreeBooks(g), b, a') ensures a' == a {
      CalibreKeyInjective(a.folder, a.calibreId.value, a'.folder, a'.calibreId.value);
    }
    assert Mutual(Calibre, g.k, FreeBooks(g), FreeAudios(g), b, a);
  }

  // ----- stages 2 and 3: one book and one audiobook under a key

  /** The key stage 2 or 3 groups by. */
  function PlaceKey(src: Source, k: Keys, folder: string, path: string): Option<string> {
    if src.Filename? then StemKey(k, folder, path) else DirKey(k, folder, path)
  }

  ghost predicate BookAt(g: Stage, b: Book, key: string) {
    b.id !in g.start.usedBooks && PlaceKey(g.src, g.k, b.folder, b.path) == Some(key)
  }

  ghost predicate AudioAt(g: Stage, a: Audiobook, key: string) {
    a.id !in g.start.usedAudio && PlaceKey(g.src, g.k, a.folder, a.path) == Some(key)
  }

  ghost predicate PlacesGrouped(g: Stage, bs: map<string, seq<Book>>, as_: map<string, seq<Audiobook>>) {
    && Grouped(g.books, (b: Book, key: string) => BookAt(g, b, key), bs)
    && Grouped(g.audios, (a: Audiobook, key: string) => AudioAt(g, a, key), as_)
  }

  method GroupPlaces(g: Stage) returns (bs: map<string, seq<Book>>, as_: map<string, seq<Audiobook>>)
    requires Sound(g)
    ensures PlacesGrouped(g, bs, as_)
  {
    var bookKey := (b: Book) => if b.id in g.start.usedBooks then None else PlaceKey(g.src, g.k, b.folder, b.path);
    var audioKey := (a: Audiobook) =>
      if a.id in g.start.usedAudio then None else PlaceKey(g.src, g.k, a.folder, a.path);
    bs := GroupBy(g.books, bookKey, (b: Book, key: string) => BookAt(g, b, key));
    as_ := GroupBy(g.audios, audioKey, (a: Audiobook, key: string) => AudioAt(g, a, key));
  }

  /** Being alone under the same key is being each other's only choice. */
  lemma AloneIsMutual(g: Stage, bs: map<string, seq<Book>>, as_: map<string, seq<Audiobook>>, key: string, b: Book,
                      a: Audiobook)
    requires (g.src == Filename || g.src == Directory) && PlacesGrouped(g, bs, as_)
    ensures PlaceKey(g.src, g.k, a.folder, a.path) == Some(key) ==>
            (Pair(b, a, g.src) in Goal(g) <==>
             |Lookup(bs, key)| == 1 && Lookup(bs, key)[0] == b && |Lookup(as_, key)| == 1 && Lookup(as_, key)[0] == a)
  {
    GroupOfOne(g.books, (x: Book, y: string) => BookAt(g, x, y), bs, key, b);
    GroupOfOne(g.audios, (x: Audiobook, y: string) => AudioAt(g, x, y), as_, key, a);
    var fb, fa := FreeBooks(g), FreeAudios(g);
    assert forall x :: x in fb <==> x in g.books && x.id !in g.start.usedBooks;
    assert forall x :: x in fa <==> x in g.audios && x.id !in g.start.usedAudio;
    assert Pair(b, a, g.src) in Goal(g) <==> Mutual(g.src, g.k, fb, fa, b, a);
  }

  /** The body of the loop: the one book of that name, when the audiobook is the one audiobook of that name. */
  function FilenameChoice(g: Stage, bs: map<string, seq<Book>>, as_: map<string, seq<Audiobook>>, t: Board,
                          a: Audiobook): (c: Option<Book>)
    ensures c.Some? ==> c.value.id !in t.usedBooks && a.id !in t.usedAudio
  {
    if a.id in t.usedAudio || a.path == "" then None
    else
      var key := a.folder + ":" + g.k.stem(a.path);
      var stemBooks := Lookup(bs, key);
      if |stemBooks| != 1 || |Lookup(as_, key)| != 1 || stemBooks[0].id in t.usedBooks then None else Some(stemBooks[0])
  }

  lemma FilenameChoiceIsRight(g: Stage, bs: map<string, seq<Book>>, as_: map<string, seq<Audiobook>>,
                              taken: set<Pair>, t: Board, a: Audiobook)
    requires g.src == Filename && Sound(g) && After(g, taken, t) && a in g.audios && PlacesGrouped(g, bs, as_)
    ensures RightChoice(g, taken, a, FilenameChoice(g, bs, as_, t, a))
  {
    var choice, key := FilenameChoice(g, bs, as_, t, a), a.folder + ":" + g.k.stem(a.path);
    if choice.Some? {
      UnusedWasFree(g, taken, t, choice.value, a);
      GroupOfOne(g.audios, (x: Audiobook, y: string) => AudioAt(g, x, y), as_, key, Lookup(as_, key)[0]);
      assert AudioAt(g, a, key);
      AloneIsMutual(g, bs, as_, key, choice.value, a);
    } else {
      forall p | p in Goal(g) && p.audio == a ensures p in taken {
        if p !in taken {
          WaitingIsFree(g, taken, t, p);
          AloneIsMutual(g, bs, as_, key, p.book, a);
        }
      }
    }
  }

  method FilenameStage(g: Stage) returns (t: Board)
    requires g.src == Filename && Sound(g) && Recorded(g.start)
    ensures After(g, Goal(g), t) && Recorded(t)
  {
    var bs, as_ := GroupPlaces(g);
    t := g.start;
    ghost var taken: set<Pair> := {};
    StartOfStage(g);
    for i := 0 to |g.audios|
      invariant After(g, taken, t) && DoneThrough(g, taken, i) && Recorded(t)
    {
      var choice := FilenameChoice(g, bs, as_, t, g.audios[i]);
      FilenameChoiceIsRight(g, bs, as_, taken, t, g.audios[i]);
      RoundKeeps(g, taken, t, i, choice);
      RoundRecords(g, t, g.audios[i], choice);
      taken := Made(g, taken, g.audios[i], choice);
      t := Make(g, t, g.audios[i], choice);
    }
    AllDone(g, taken, t);
  }

  function PairDir(k: Keys, p: Pair): Option<string> { DirKey(k, p.book.folder, p.book.path) }

  /** The pairs made so far are those of the directories that were visited. */
  ghost predicate Visited(g: Stage, taken: set<Pair>, todo: set<string>) {
    && taken <= Goal(g)
    && forall p | p in Goal(g) :: PairDir(g.k, p).Some? && (p in taken <==> PairDir(g.k, p).value !in todo)
  }

  /** The body of the loop: a directory of one book and one audiobook, both unused. */
  function DirectoryChoice(g: Stage, bs: map<string, seq<Book>>, as_: map<string, seq<Audiobook>>, t: Board,
                           key: string): Option<Pair>
  {
    var dirBooks, dirAudios := Lookup(bs, key), Lookup(as_, key);
    if |dirBooks| != 1 || |dirAudios| != 1 || dirBooks[0].id in t.usedBooks || dirAudios[0].id in t.usedAudio then None
    else Some(Pair(dirBooks[0], dirAudios[0], Directory))
  }

  lemma DirectoryChoiceIsRight(g: Stage, bs: map<string, seq<Book>>, as_: map<string, seq<Audiobook>>,
                               taken: set<Pair>, t: Board, todo: set<string>, key: string)
    requires g.src == Directory && Sound(g) && After(g, taken, t) && PlacesGrouped(g, bs, as_)
    requires Visited(g, taken, todo) && key in todo
    ensures var choice := DirectoryChoice(g, bs, as_, t, key);
            && (choice.Some? ==> choice.value in Goal(g) && PairDir(g.k, choice.value) == Some(key))
            && forall p | p in Goal(g) && PairDir(g.k, p) == Some(key) :: choice == Some(p)
  {
    var choice := DirectoryChoice(g, bs, as_, t, key);
    if choice.Some? {
      var b, a := choice.value.book, choice.value.audio;
      GroupOfOne(g.audios, (x: Audiobook, y: string) => AudioAt(g, x, y), as_, key, a);
      GroupOfOne(g.books, (x: Book, y: string) => BookAt(g, x, y), bs, key, b);
      AloneIsMutual(g, bs, as_, key, b, a);
    }
    forall p | p in Goal(g) && PairDir(g.k, p) == Some(key) ensures choice == Some(p) {
      WaitingIsFree(g, taken, t, p);
      AloneIsMutual(g, bs, as_, key, p.book, p.audio);
    }
  }

  lemma DirectoryVisited(g: Stage, taken: set<Pair>, taken': set<Pair>, todo: set<string>, key: string,
                         choice: Option<Pair>)
    requires Visited(g, taken, todo) && key in todo
    requires choice.Some? ==> choice.value in Goal(g) && PairDir(g.k, choice.value) == Some(key)
    requires forall p | p in Goal(g) && PairDir(g.k, p) == Some(key) :: choice == Some(p)
    requires taken' == if choice.Some? then taken + {choice.value} else taken
    ensures Visited(g, taken', todo - {key})
  {
  }

  lemma NothingVisited(g: Stage, bs: map<string, seq<Book>>, as_: map<string, seq<Audiobook>>)
    requires g.src == Directory && PlacesGrouped(g, bs, as_)
    ensures After(g, {}, g.start) && Visited(g, {}, bs.Keys)
  {
    StartOfStage(g);
    forall p | p in Goal(g) ensures PairDir(g.k, p).Some? && PairDir(g.k, p).value in bs.Keys {
      assert BookAt(g, p.book, PairDir(g.k, p).value);
    }
  }

  /** The directories are visited in any order whatever, as a Go map may yield them. */
  method DirectoryStage(g: Stage) returns (t: Board)
    requires g.src == Directory && Sound(g) && Recorded(g.start)
    ensures After(g, Goal(g), t) && Recorded(t)
  {
    var bs, as_ := GroupPlaces(g);
    t := g.start;
    ghost var taken: set<Pair> := {};
    var todo := bs.Keys;
    NothingVisited(g, bs, as_);
    while todo != {}
      invariant After(g, taken, t) && Visited(g, taken, todo) && Recorded(t)
      decreases todo
    {
      var key :| key in todo;
      var choice := DirectoryChoice(g, bs, as_, t, key);
      DirectoryChoiceIsRight(g, bs, as_, taken, t, todo, key);
      ghost var before := taken;
      if choice.Some? {
        TakeKeeps(g, taken, t, choice.value);
        TakeRecords(t, choice.value);
        taken := taken + {choice.value};
        t := Take(t, choice.value);
      }
      DirectoryVisited(g, before, taken, todo, key, choice);
      todo := todo - {key};
    }
    assert taken == Goal(g);
  }

  // ----- stage 4: identifiers

  /** b is listed under the key because it carries it and is unused when the stage begins. */
  ghost predicate Carries(g: Stage, b: Book, key: string) { b.id !in g.start.usedBooks && key in g.k.bookIds(b) }

  ghost predicate IdsGrouped(g: Stage, m: map<string, seq<Book>>) {
    Grouped(g.books, (b: Book, key: string) => Carries(g, b, key), m)
  }

  /** `booksByIDKey`: each unused book under each of its keys. */
  method GroupIds(g: Stage) returns (m: map<string, seq<Book>>)
    requires Sound(g)
    ensures IdsGrouped(g, m)
  {
    m := map[];
    for i := 0 to |g.books|
      invariant Grouped(g.books[..i], (b: Book, key: string) => Carries(g, b, key), m)
    {
      var b := g.books[i];
      NotSeenBefore(g.books, i);
      if b.id !in g.start.usedBooks {
        ghost var m0 := m;
        m := PutUnder(m, b, g.k.bookIds(b));
        OneMoreBook(g, g.books[..i], m0, b, m);
      } else {
        NotOneMoreBook(g, g.books[..i], m, b);
      }
    }
    assert g.books[..|g.books|] == g.books;
  }

  lemma NotSeenBefore<T>(s: seq<T>, i: nat)
    requires NoDup(s) && i < |s|
    ensures s[..i + 1] == s[..i] + [s[i]] && s[i] !in s[..i]
  {
  }

  /** The inner loop: one book under each of its keys. */
  method PutUnder(m0: map<string, seq<Book>>, b: Book, keys: set<string>) returns (m: map<string, seq<Book>>)
    requires forall key | key in m0 :: m0[key] != []
    ensures forall key :: Lookup(m, key) == Lookup(m0, key) + if key in keys then [b] else []
    ensures forall key | key in m :: m[key] != []
  {
    m := m0;
    var todo := keys;
    while todo != {}
      invariant todo <= keys
      invariant forall key :: Lookup(m, key) == Lookup(m0, key) + if key in keys - todo then [b] else []
      invariant forall key | key in m :: m[key] != []
    {
      var key :| key in todo;
      todo := todo - {key};
      m := m[key := Lookup(m, key) + [b]];
    }
  }

  lemma NotOneMoreBook(g: Stage, s: seq<Book>, m: map<string, seq<Book>>, b: Book)
    requires Grouped(s, (x: Book, key: string) => Carries(g, x, key), m) && b.id in g.start.usedBooks
    ensures Grouped(s + [b], (x: Book, key: string) => Carries(g, x, key), m)
  {
  }

  lemma OneMoreBook(g: Stage, s: seq<Book>, m0: map<string, seq<Book>>, b: Book, m: map<string, seq<Book>>)
    requires Grouped(s, (x: Book, key: string) => Carries(g, x, key), m0) && b !in s && b.id !in g.start.usedBooks
    requires forall key :: Lookup(m, key) == Lookup(m0, key) + if key in g.k.bookIds(b) then [b] else []
    requires forall key | key in m :: m[key] != []
    ensures Grouped(s + [b], (x: Book, key: string) => Carries(g, x, key), m)
  {
    GroupsGrow(s, (x: Book, key: string) => Carries(g, x, key), m0, b, g.k.bookIds(b), m);
  }

  lemma GroupsGrow<T(!new)>(s: seq<T>, keyed: (T, string) -> bool, m0: map<string, seq<T>>, b: T, keys: set<string>,
                            m: map<string, seq<T>>)
    requires Grouped(s, keyed, m0) && b !in s && forall key :: keyed(b, key) <==> key in keys
    requires forall key :: Lookup(m, key) == Lookup(m0, key) + if key in keys then [b] else []
    requires forall key | key in m :: m[key] != []
    ensures Grouped(s + [b], keyed, m)
  {
    forall key | key in m ensures NoDup(m[key]) && forall x | x in m[key] :: x in s + [b] && keyed(x, key) {
      assert m[key] == Lookup(m, key);
    }
    forall key, x | x in s + [b] && keyed(x, key) ensures key in m && x in m[key] {
      KeepsItsGroup(s, keyed, m0, b, keys, key, x);
      assert x in Lookup(m, key);
    }
  }

  lemma KeepsItsGroup<T(!new)>(s: seq<T>, keyed: (T, string) -> bool, m0: map<string, seq<T>>, b: T, keys: set<string>,
                               key: string, x: T)
    requires Grouped(s, keyed, m0) && (keyed(b, key) <==> key in keys) && x in s + [b] && keyed(x, key)
    ensures x in Lookup(m0, key) + if key in keys then [b] else []
  {
  }

  /** The key is in use and names exactly the book b. */
  predicate KeyNames(m: map<string, seq<Book>>, key: string, b: Book) {
    |Lookup(m, key)| == 1 && Lookup(m, key)[0] == b
  }

  lemma KeyNamesIsNames(g: Stage, m: map<string, seq<Book>>, key: string, b: Book)
    requires IdsGrouped(g, m)
    ensures KeyNames(m, key, b) <==> Names(g.k, FreeBooks(g), key, b)
  {
    GroupOfOne(g.books, (x: Book, y: string) => Carries(g, x, y), m, key, b);
    assert forall x :: x in FreeBooks(g) <==> x in g.books && x.id !in g.start.usedBooks;
  }

  /** The books an audiobook's keys name, among those still unused. */
  method NamedBooks(g: Stage, m: map<string, seq<Book>>, used: set<string>, a: Audiobook) returns (matched: seq<Book>)
    requires Sound(g) && g.src == Identifier && IdsGrouped(g, m)
    ensures NoDup(matched)
    ensures forall b :: b in matched <==> b in FreeBooks(g) && b.id !in used && Rel(Identifier, g.k, FreeBooks(g), b, a)
  {
    matched := [];
    var seen: set<string> := {};
    var keys := g.k.audioIds(a);
    for i := 0 to |keys|
      invariant NoDup(matched) && seen == IdsOf(matched)
      invariant forall b :: b in matched <==> b.id !in used && NamedByOne(m, keys[..i], b)
    {
      SameIdSameBook(g, m, keys[..i], keys[i]);
      ghost var before := matched;
      matched, seen := NameOne(m, used, matched, seen, keys[i]);
      forall b ensures b in matched <==> b.id !in used && NamedByOne(m, keys[..i + 1], b) {
        NamedByOneMore(m, keys, i, b);
      }
    }
    forall b ensures NamedByOne(m, keys, b) <==> b in FreeBooks(g) && Rel(Identifier, g.k, FreeBooks(g), b, a) {
      NamedByKeys(g, m, a, b);
    }
    assert keys[..|keys|] == keys;
  }

  function IdsOf(books: seq<Book>): set<string> { set b | b in books :: b.id }

  /** One of the keys names b. */
  ghost predicate NamedByOne(m: map<string, seq<Book>>, keys: seq<string>, b: Book) {
    exists j :: 0 <= j < |keys| && KeyNames(m, keys[j], b)
  }

  lemma NamedByOneMore(m: map<string, seq<Book>>, keys: seq<string>, i: nat, b: Book)
    requires i < |keys|
    ensures NamedByOne(m, keys[..i + 1], b) <==> NamedByOne(m, keys[..i], b) || KeyNames(m, keys[i], b)
  {
    var more, fewer := keys[..i + 1], keys[..i];
    if NamedByOne(m, more, b) {
      var j :| 0 <= j < |more| && KeyNames(m, more[j], b);
      assert j < i ==> fewer[j] == more[j];
    }
    if NamedByOne(m, fewer, b) {
      var j :| 0 <= j < |fewer| && KeyNames(m, fewer[j], b);
      assert more[j] == fewer[j];
    }
    assert more[i] == keys[i];
  }

  /** Two books that keys name and that share an id are one. */
  lemma SameIdSameBook(g: Stage, m: map<string, seq<Book>>, keys: seq<string>, key: string)
    requires Sound(g) && IdsGrouped(g, m)
    ensures forall b, x | NamedByOne(m, keys, b) && KeyNames(m, key, x) && x.id == b.id :: x == b
  {
    forall b, x | NamedByOne(m, keys, b) && KeyNames(m, key, x) && x.id == b.id ensures x == b {
      var j :| 0 <= j < |keys| && KeyNames(m, keys[j], b);
      KeyNamesIsNames(g, m, keys[j], b);
      KeyNamesIsNames(g, m, key, x);
    }
  }

  /** The body of the loop over an audiobook's keys. */
  method NameOne(m: map<string, seq<Book>>, used: set<string>, matched: seq<Book>, seen: set<string>, key: string)
    returns (matched': seq<Book>, seen': set<string>)
    requires NoDup(matched) && seen == IdsOf(matched)
    requires forall b, x | b in matched && KeyNames(m, key, x) && x.id == b.id :: x == b
    ensures NoDup(matched') && seen' == IdsOf(matched')
    ensures forall b :: b in matched' <==> b in matched || (b.id !in used && KeyNames(m, key, b))
  {
    matched', seen' := matched, seen;
    var idBooks := Lookup(m, key);
    if |idBooks| == 1 && idBooks[0].id !in used && idBooks[0].id !in seen {
      assert idBooks[0] !in matched;
      seen' := seen + {idBooks[0].id};
      matched' := matched + [idBooks[0]];
    } else if |idBooks| == 1 && idBooks[0].id in seen {
      assert KeyNames(m, key, idBooks[0]);
      assert exists b :: b in matched && b.id == idBooks[0].id;
    }
  }

  lemma NamedByKeys(g: Stage, m: map<string, seq<Book>>, a: Audiobook, b: Book)
    requires IdsGrouped(g, m)
    ensures NamedByOne(m, g.k.audioIds(a), b) <==> b in FreeBooks(g) && Rel(Identifier, g.k, FreeBooks(g), b, a)
  {
    var keys := g.k.audioIds(a);
    forall j | 0 <= j < |keys| ensures KeyNames(m, keys[j], b) <==> Names(g.k, FreeBooks(g), keys[j], b) {
      KeyNamesIsNames(g, m, keys[j], b);
    }
    if b in FreeBooks(g) && Rel(Identifier, g.k, FreeBooks(g), b, a) {
      var key :| key in keys && Names(g.k, FreeBooks(g), key, b);
      var j :| 0 <= j < |keys| && keys[j] == key;
      assert KeyNames(m, keys[j], b);
    }
    if j :| 0 <= j < |keys| && KeyNames(m, keys[j], b) {
      assert keys[j] in keys;
    }
  }

  // ----- stages 4 and 5: counting the competitors

  /** The unused audiobooks that compete for b. */
  ghost function Rivals(g: Stage, used: set<string>, b: Book, n: nat): set<Audiobook>
    requires n <= |g.audios|
  {
    set a | a in g.audios[..n] && a.id !in used && Competes(g.src, g.k, FreeBooks(g), b, a)
  }

  /** Whether an audiobook competes for b, decided as each stage's inner loop does. */
  method DoesCompete(g: Stage, m: map<string, seq<Book>>, b: Book, a: Audiobook) returns (r: bool)
    requires Sound(g) && b in FreeBooks(g)
    requires g.src == TitleAuthor || (g.src == Identifier && IdsGrouped(g, m))
    ensures r == Competes(g.src, g.k, FreeBooks(g), b, a)
  {
    if g.src.TitleAuthor? {
      return SameWork(g.k, b, a);
    }
    NamedByKeys(g, m, a, b);
    var keys := g.k.audioIds(a);
    for i := 0 to |keys|
      invariant forall j | 0 <= j < i :: !KeyNames(m, keys[j], b)
    {
      var idBooks := Lookup(m, keys[i]);
      if |idBooks| == 1 && idBooks[0].id == b.id {
        KeyNamesIsNames(g, m, keys[i], idBooks[0]);
        assert KeyNames(m, keys[i], b);
        return true;
      }
    }
    return false;
  }

  lemma RivalsStep(g: Stage, used: set<string>, b: Book, i: nat)
    requires Sound(g) && i < |g.audios|
    ensures var a := g.audios[i];
            && a !in Rivals(g, used, b, i)
            && Rivals(g, used, b, i + 1) == Rivals(g, used, b, i) +
                 if a.id !in used && Competes(g.src, g.k, FreeBooks(g), b, a) then {a} else {}
  {
    assert g.audios[..i + 1] == g.audios[..i] + [g.audios[i]];
    assert g.audios[i] !in g.audios[..i];
  }

  lemma OneMoreRival(g: Stage, used: set<string>, b: Book, i: nat)
    requires Sound(g) && i < |g.audios|
    ensures var a := g.audios[i];
            |Rivals(g, used, b, i + 1)| == |Rivals(g, used, b, i)| +
              if a.id !in used && Competes(g.src, g.k, FreeBooks(g), b, a) then 1 else 0
  {
    RivalsStep(g, used, b, i);
  }

  method CountRivals(g: Stage, m: map<string, seq<Book>>, used: set<string>, b: Book) returns (count: nat)
    requires Sound(g) && b in FreeBooks(g)
    requires g.src == TitleAuthor || (g.src == Identifier && IdsGrouped(g, m))
    ensures count == |Rivals(g, used, b, |g.audios|)|
  {
    count := 0;
    for i := 0 to |g.audios|
      invariant count == |Rivals(g, used, b, i)|
    {
      var a := g.audios[i];
      OneMoreRival(g, used, b, i);
      if a.id !in used {
        var competes := DoesCompete(g, m, b, a);
        if competes {
          count := count + 1;
        }
      }
    }
  }

  /** The decision both stages make from the unused candidates of a and the unused competitors of its one candidate. */
  lemma DecisionIsRight(g: Stage, taken: set<Pair>, t: Board, a: Audiobook, matched: seq<Book>)
    requires g.src == Identifier || g.src == TitleAuthor
    requires Sound(g) && After(g, taken, t) && a in g.audios && a.id !in t.usedAudio && NoDup(matched)
    requires forall b :: b in matched <==> b in FreeBooks(g) && b.id !in t.usedBooks
                                           && Rel(g.src, g.k, FreeBooks(g), b, a)
    ensures var one := |matched| == 1 && |Rivals(g, t.usedAudio, matched[0], |g.audios|)| == 1;
            RightChoice(g, taken, a, if one then Some(matched[0]) else None)
  {
    UnusedWasFree(g, taken, t, Book("", "", None, "", ""), a);
    if p :| p in Goal(g) && p.audio == a && p !in taken {
      WaitingIsFree(g, taken, t, p);
      OnlyOne(matched, p.book);
      MutualHasOneRival(g, t, p);
    }
    if |matched| == 1 && |Rivals(g, t.usedAudio, matched[0], |g.audios|)| == 1 {
      assert matched[0] in matched;
      forall b | b in FreeBooks(g) && Rel(g.src, g.k, FreeBooks(g), b, a) ensures b == matched[0] {
        OnlyCandidate(g, taken, t, a, matched, b);
      }
      OnlyRival(g, taken, t, a, matched[0]);
      assert Mutual(g.src, g.k, FreeBooks(g), FreeAudios(g), matched[0], a);
    }
  }

  /** A candidate of an audiobook that is unmatched so far is itself unused; if only one is, it is that one. */
  lemma OnlyCandidate(g: Stage, taken: set<Pair>, t: Board, a: Audiobook, matched: seq<Book>, b: Book)
    requires Sound(g) && After(g, taken, t) && a in FreeAudios(g) && a.id !in AudioIdsOf(taken) && |matched| == 1
    requires b in FreeBooks(g) && Rel(g.src, g.k, FreeBooks(g), b, a) && (b.id !in t.usedBooks ==> b in matched)
    ensures b == matched[0]
  {
    Undisturbed(g.src, g.k, FreeBooks(g), FreeAudios(g), taken, b, a);
    FreeUnlessTaken(g, taken, t, b);
  }

  lemma FreeUnlessTaken(g: Stage, taken: set<Pair>, t: Board, b: Book)
    requires After(g, taken, t) && b in FreeBooks(g) && b.id !in BookIdsOf(taken)
    ensures b.id !in t.usedBooks
  {
  }

  lemma OnlyRival(g: Stage, taken: set<Pair>, t: Board, a: Audiobook, b: Book)
    requires Sound(g) && After(g, taken, t) && a in FreeAudios(g) && a.id !in AudioIdsOf(taken)
    requires b in FreeBooks(g) && Rel(g.src, g.k, FreeBooks(g), b, a)
    requires |Rivals(g, t.usedAudio, b, |g.audios|)| == 1
    ensures forall a' | a' in FreeAudios(g) && Competes(g.src, g.k, FreeBooks(g), b, a') :: a' == a
  {
    Undisturbed(g.src, g.k, FreeBooks(g), FreeAudios(g), taken, b, a);
    RelCompetes(g.src, g.k, FreeBooks(g), b, a);
    assert g.audios[..|g.audios|] == g.audios;
    var rivals := Rivals(g, t.usedAudio, b, |g.audios|);
    assert a in rivals;
    forall a' | a' in FreeAudios(g) && Competes(g.src, g.k, FreeBooks(g), b, a') ensures a' == a {
      assert a' in rivals;
      InSingleton(rivals, a, a');
    }
  }

  lemma InSingleton<T>(s: set<T>, x: T, y: T)
    requires |s| == 1 && x in s && y in s
    ensures x == y
  {
    assert |s - {x}| == 0;
  }

  lemma MutualHasOneRival(g: Stage, t: Board, p: Pair)
    requires Sound(g) && p in Goal(g) && p.audio.id !in t.usedAudio && g.start.usedAudio <= t.usedAudio
    ensures |Rivals(g, t.usedAudio, p.book, |g.audios|)| == 1
  {
    RelCompetes(g.src, g.k, FreeBooks(g), p.book, p.audio);
    assert g.audios[..|g.audios|] == g.audios;
    assert Rivals(g, t.usedAudio, p.book, |g.audios|) == {p.audio};
  }

  method IdentifierStage(g: Stage) returns (t: Board)
    requires g.src == Identifier && Sound(g) && Recorded(g.start)
    ensures After(g, Goal(g), t) && Recorded(t)
  {
    var m := GroupIds(g);
    t := g.start;
    ghost var taken: set<Pair> := {};
    StartOfStage(g);
    for i := 0 to |g.audios|
      invariant After(g, taken, t) && DoneThrough(g, taken, i) && Recorded(t)
    {
      var a := g.audios[i];
      var choice: Option<Book> := None;
      if a.id !in t.usedAudio {
        var matched := NamedBooks(g, m, t.usedBooks, a);
        DecisionIsRight(g, taken, t, a, matched);
        if |matched| == 1 {
          assert matched[0] in matched;
          var reverseMatches := CountRivals(g, m, t.usedAudio, matched[0]);
          if reverseMatches == 1 {
            choice := Some(matched[0]);
          }
        }
      } else {
        UsedIsRight(g, taken, t, a);
      }
      RoundKeeps(g, taken, t, i, choice);
      RoundRecords(g, t, g.audios[i], choice);
      taken := Made(g, taken, a, choice);
      t := Make(g, t, a, choice);
    }
    AllDone(g, taken, t);
  }

  lemma UsedIsRight(g: Stage, taken: set<Pair>, t: Board, a: Audiobook)
    requires Sound(g) && After(g, taken, t) && a.id in t.usedAudio
    ensures RightChoice(g, taken, a, None)
  {
    forall p | p in Goal(g) && p.audio == a ensures p in taken {
      if p !in taken { WaitingIsFree(g, taken, t, p); }
    }
  }

  // ----- stage 5: title and author

  /** The unused books whose folded title and one of whose authors are the audiobook's. */
  method SameWorkBooks(g: Stage, used: set<string>, a: Audiobook) returns (matched: seq<Book>)
    requires Sound(g) && g.src == TitleAuthor && g.start.usedBooks <= used
    ensures NoDup(matched)
    ensures forall b :: b in matched <==> b in FreeBooks(g) && b.id !in used
                                          && Rel(TitleAuthor, g.k, FreeBooks(g), b, a)
  {
    matched := [];
    if a.authors == [] {
      return;
    }
    var author := g.k.fold(a.authors[0]);
    var titles := g.k.titleKeys(a.title, a.series);
    if author == "" || titles == [] {
      return;
    }
    for i := 0 to |g.books|
      invariant NoDup(matched)
      invariant forall b :: b in matched <==> b in g.books[..i] && b.id !in used && SameWorkKnown(g.k, b, a)
    {
      var b := g.books[i];
      assert g.books[..i + 1] == g.books[..i] + [b];
      assert b !in g.books[..i];
      var title := g.k.titleKey(b.title);
      if b.id !in used && title != "" && title in titles && AnyFolds(g.k.fold, g.k.authorsOf(b.id), author) {
        matched := matched + [b];
      }
    }
    assert g.books[..|g.books|] == g.books;
  }

  method TitleAuthorStage(g: Stage) returns (t: Board)
    requires g.src == TitleAuthor && Sound(g) && Recorded(g.start)
    ensures After(g, Goal(g), t) && Recorded(t)
  {
    t := g.start;
    ghost var taken: set<Pair> := {};
    StartOfStage(g);
    for i := 0 to |g.audios|
      invariant After(g, taken, t) && DoneThrough(g, taken, i) && Recorded(t)
    {
      var a := g.audios[i];
      var choice: Option<Book> := None;
      if a.id !in t.usedAudio {
        var matched := SameWorkBooks(g, t.usedBooks, a);
        DecisionIsRight(g, taken, t, a, matched);
        if |matched| == 1 {
          assert matched[0] in matched;
          var reverseMatches := CountRivals(g, map[], t.usedAudio, matched[0]);
          if reverseMatches == 1 {
            choice := Some(matched[0]);
          }
        }
      } else {
        UsedIsRight(g, taken, t, a);
      }
      RoundKeeps(g, taken, t, i, choice);
      RoundRecords(g, t, g.audios[i], choice);
      taken := Made(g, taken, a, choice);
      t := Make(g, t, a, choice);
    }
    AllDone(g, taken, t);
  }

  // ----- the whole function

  /** What a finished stage leaves to the next one. */
  lemma NextStage(g: Stage, t: Board)
    requires After(g, Goal(g), t)
    ensures BooksLeft(Elements(g.books), t.usedBooks) == BooksLeft(FreeBooks(g), BookIdsOf(Goal(g)))
    ensures AudiosLeft(Elements(g.audios), t.usedAudio) == AudiosLeft(FreeAudios(g), AudioIdsOf(Goal(g)))
  {
  }

  lemma StagesUnfold(k: Keys, books: set<Book>, audios: set<Audiobook>, n: nat)
    requires n < |STAGES|
    ensures var ps := StagePairs(STAGES[n], k, books, audios);
            Matches(k, books, audios, STAGES[n..])
            == ps + Matches(k, BooksLeft(books, BookIdsOf(ps)), AudiosLeft(audios, AudioIdsOf(ps)), STAGES[n + 1..])
  {
    assert STAGES[n..][0] == STAGES[n] && STAGES[n..][1..] == STAGES[n + 1..];
  }

  method RunStage(g: Stage) returns (t: Board)
    requires Sound(g) && Recorded(g.start)
    ensures After(g, Goal(g), t) && Recorded(t)
  {
    match g.src {
      case Calibre => t := CalibreStage(g);
      case Filename => t := FilenameStage(g);
      case Directory => t := DirectoryStage(g);
      case Identifier => t := IdentifierStage(g);
      case TitleAuthor => t := TitleAuthorStage(g);
    }
  }

  /** `matchCatalogAudiobooksToBooks`. The lists come in any order; the pairs are those of Catalog.Matches, which knows
      only the sets, and no book or audiobook is in two of them. */
  method Match(k: Keys, books: seq<Book>, audios: seq<Audiobook>) returns (pairs: seq<Pair>)
    requires NoDup(books) && NoDup(audios)
    requires UniqueIds(Elements(books), Elements(audios)) && UniqueCalibre(Elements(books), Elements(audios))
    ensures Elements(pairs) == Matches(k, Elements(books), Elements(audios), STAGES)
    ensures OneToOne(Elements(pairs)) && NoDup(pairs)
  {
    MatchesAreOneToOne(k, Elements(books), Elements(audios), STAGES);
    var t := Board({}, {}, []);
    StartOfMatching(k, books, audios);
    for n := 0 to |STAGES|
      invariant SoFar(k, books, audios, n, t)
    {
      var g := Stage(STAGES[n], k, books, audios, t);
      t := RunStage(g);
      StageAdds(g, t, n);
    }
    pairs := t.pairs;
  }

  /** The pairs made so far and those the remaining stages will make are all there are. */
  ghost predicate SoFar(k: Keys, books: seq<Book>, audios: seq<Audiobook>, n: nat, t: Board)
    requires n <= |STAGES|
  {
    && Recorded(t)
    && Elements(t.pairs)
       + Matches(k, BooksLeft(Elements(books), t.usedBooks), AudiosLeft(Elements(audios), t.usedAudio), STAGES[n..])
       == Matches(k, Elements(books), Elements(audios), STAGES)
  }

  lemma StartOfMatching(k: Keys, books: seq<Book>, audios: seq<Audiobook>)
    ensures SoFar(k, books, audios, 0, Board({}, {}, []))
  {
    assert BooksLeft(Elements(books), {}) == Elements(books) && AudiosLeft(Elements(audios), {}) == Elements(audios);
    assert STAGES[0..] == STAGES;
  }

  lemma StageAdds(g: Stage, t: Board, n: nat)
    requires n < |STAGES| && g.src == STAGES[n] && SoFar(g.k, g.books, g.audios, n, g.start)
    requires After(g, Goal(g), t) && Recorded(t)
    ensures SoFar(g.k, g.books, g.audios, n + 1, t)
  {
    NextStage(g, t);
    StagesUnfold(g.k, FreeBooks(g), FreeAudios(g), n);
    UnionIsAssociative(Elements(g.start.pairs), Goal(g),
                       Matches(g.k, BooksLeft(FreeBooks(g), BookIdsOf(Goal(g))),
                         AudiosLeft(FreeAudios(g), AudioIdsOf(Goal(g))),
                               STAGES[n + 1..]));
  }
}
