/** Which pairs the matching makes, in the folders, paths, ids, titles and names of the books and audiobooks themselves
  (internal/content/audiobooks.go, `matchCatalogAudiobooksToBooks`).
*/
module CatalogLaws {
  import opened Catalog

  // ----- places

  /** Folder ids hold no colon; with one in them two places could share a key. */
  ghost predicate PlainFolders(books: set<Book>, audios: set<Audiobook>) {
    (forall b | b in books :: ':' !in b.folder) && (forall a | a in audios :: ':' !in a.folder)
  }

  lemma ColonFirst(u: string, f: string, s: string)
    requires ':' !in f && u == f + ":" + s
    ensures |f| < |u| && u[|f|] == ':' && u[..|f|] == f && u[|f| + 1..] == s
    ensures forall i | 0 <= i < |f| :: u[i] != ':'
  {
    forall i | 0 <= i < |f| ensures u[i] != ':' { assert u[i] == f[i]; }
  }

  lemma SplitAtFirstColon(f: string, s: string, g: string, t: string)
    requires ':' !in f && ':' !in g
    ensures f + ":" + s == g + ":" + t <==> f == g && s == t
  {
    if f + ":" + s == g + ":" + t {
      ColonFirst(f + ":" + s, f, s);
      ColonFirst(f + ":" + s, g, t);
      assert |f| == |g|;
    }
  }

  /** A book at "d:e" of the folder "f" and an audiobook at "e" of the folder "f:d" have one key. */
  lemma ColonsConfuse(k: Keys)
    requires k.dir("d:e/b.epub") == "d:e" && k.dir("e/a.m4b") == "e"
    ensures DirKey(k, "f", "d:e/b.epub") == DirKey(k, "f:d", "e/a.m4b") && "f" != "f:d"
  {
    assert "f" + ":" + "d:e" == "f:d" + ":" + "e";
    assert |"d:e"| == 3;
  }

  // ----- who fits whom

  /** The book and the audiobook fit one another by the stage's rule:
      the same calibre id in one folder; the same name but for the ending in one folder; one directory, not the top, of
      one folder; an identifier that no other book left carries; the first author's name, folded, among the book's
      authors, and the book's title key among the audiobook's, none of them empty. */
  ghost predicate Fits(src: Source, k: Keys, books: set<Book>, b: Book, a: Audiobook) {
    match src
    case Calibre => b.calibreId.Some? && b.calibreId == a.calibreId && b.folder == a.folder
    case Filename => b.path != "" && a.path != "" && b.folder == a.folder && k.stem(b.path) == k.stem(a.path)
    case Directory =>
      b.folder == a.folder && k.dir(b.path) == k.dir(a.path) && k.dir(b.path) != "." && k.dir(b.path) != ""
    case Identifier => exists key :: key in k.audioIds(a) && CarriedAlone(k, books, key, b)
    case TitleAuthor =>
      && a.authors != [] && k.fold(a.authors[0]) != "" && k.titleKey(b.title) != ""
      && WrittenBy(k, b, k.fold(a.authors[0])) && k.titleKey(b.title) in k.titleKeys(a.title, a.series)
  }

  ghost predicate CarriedAlone(k: Keys, books: set<Book>, key: string, b: Book) {
    b in books && key in k.bookIds(b) && !exists other :: other in books && other != b && key in k.bookIds(other)
  }

  predicate WrittenBy(k: Keys, b: Book, folded: string) {
    var names := k.authorsOf(b.id);
    exists i :: 0 <= i < |names| && k.fold(names[i]) == folded
  }

  /** Who stands in the way of b when it is taken for another audiobook: whoever fits it, and in the last stage an
      audiobook of its title whose first author folds to nothing as well. */
  ghost predicate Rivals(src: Source, k: Keys, books: set<Book>, b: Book, a: Audiobook) {
    if src.TitleAuthor? then
      && a.authors != [] && WrittenBy(k, b, k.fold(a.authors[0]))
      && k.titleKey(b.title) in k.titleKeys(a.title, a.series)
    else Fits(src, k, books, b, a)
  }

  lemma FitsIs(src: Source, k: Keys, books: set<Book>, b: Book, a: Audiobook)
    requires ':' !in b.folder && ':' !in a.folder
    ensures Fits(src, k, books, b, a) <==> Rel(src, k, books, b, a)
    ensures Rivals(src, k, books, b, a) <==> Competes(src, k, books, b, a)
  {
    match src
    case Calibre =>
      if BookCalibreKey(b).Some? && BookCalibreKey(b) == AudioCalibreKey(a) {
        CalibreKeyInjective(b.folder, b.calibreId.value, a.folder, a.calibreId.value);
      }
    case Filename => SplitAtFirstColon(b.folder, k.stem(b.path), a.folder, k.stem(a.path));
    case Directory => SplitAtFirstColon(b.folder, k.dir(b.path), a.folder, k.dir(a.path));
    case Identifier => IdentifierFits(k, books, b, a);
    case TitleAuthor =>
  }

  lemma IdentifierFits(k: Keys, books: set<Book>, b: Book, a: Audiobook)
    ensures Fits(Identifier, k, books, b, a) <==> Rel(Identifier, k, books, b, a)
  {
    forall key ensures CarriedAlone(k, books, key, b) <==> Names(k, books, key, b) {}
  }

  // ----- who is paired

  /** b and a fit, and no other book left fits a, and no other audiobook left is a rival for b. */
  ghost predicate OnlyChoice(src: Source, k: Keys, books: set<Book>, audios: set<Audiobook>, b: Book, a: Audiobook) {
    && b in books && a in audios && Fits(src, k, books, b, a)
    && (forall other | other in books && Fits(src, k, books, other, a) :: other == b)
    && (forall other | other in audios && Rivals(src, k, books, b, other) :: other == a)
  }

  lemma StageMakesExactly(src: Source, k: Keys, books: set<Book>, audios: set<Audiobook>, b: Book, a: Audiobook)
    requires PlainFolders(books, audios)
    ensures Pair(b, a, src) in StagePairs(src, k, books, audios) <==> OnlyChoice(src, k, books, audios, b, a)
  {
    if b in books && a in audios {
      FitsIs(src, k, books, b, a);
      forall other | other in books ensures Fits(src, k, books, other, a) <==> Rel(src, k, books, other, a) {
        FitsIs(src, k, books, other, a);
      }
      forall other | other in audios ensures Rivals(src, k, books, b, other) <==> Competes(src, k, books, b, other) {
        FitsIs(src, k, books, b, other);
      }
    }
  }

  /** The order of the stages. */
  function Rank(src: Source): nat {
    match src
    case Calibre => 0
    case Filename => 1
    case Directory => 2
    case Identifier => 3
    case TitleAuthor => 4
  }

  /** What the pairs of earlier stages leave of the books. */
  ghost function BooksFor(src: Source, books: set<Book>, ps: set<Pair>): set<Book> {
    set b | b in books && forall p | p in ps && Rank(p.source) < Rank(src) :: p.book.id != b.id
  }

  ghost function AudiosFor(src: Source, audios: set<Audiobook>, ps: set<Pair>): set<Audiobook> {
    set a | a in audios && forall p | p in ps && Rank(p.source) < Rank(src) :: p.audio.id != a.id
  }

  /** The first stage still to come leaves all to itself. */
  lemma NothingBefore(src: Source, books: set<Book>, audios: set<Audiobook>, ps: set<Pair>)
    requires forall p | p in ps :: Rank(p.source) >= Rank(src)
    ensures BooksFor(src, books, ps) == books && AudiosFor(src, audios, ps) == audios
  {
  }

  /** The later stages see what the first one leaves, less what those between take. */
  lemma LessTheFirst(src: Source, books: set<Book>, audios: set<Audiobook>, first: set<Pair>, rest: set<Pair>)
    requires forall p | p in first :: Rank(p.source) < Rank(src)
    ensures BooksFor(src, books, first + rest) == BooksFor(src, BooksLeft(books, BookIdsOf(first)), rest)
    ensures AudiosFor(src, audios, first + rest) == AudiosFor(src, AudiosLeft(audios, AudioIdsOf(first)), rest)
  {
    forall b | b in books
      ensures b.id !in BookIdsOf(first) <==> forall p | p in first :: p.book.id != b.id
    {
      forall p | p in first ensures p.book.id in BookIdsOf(first) {}
    }
    forall a | a in audios
      ensures a.id !in AudioIdsOf(first) <==> forall p | p in first :: p.audio.id != a.id
    {
      forall p | p in first ensures p.audio.id in AudioIdsOf(first) {}
    }
  }

  /** Its stage makes the pair of what the pairs of earlier stages leave. */
  ghost predicate MadeFrom(k: Keys, books: set<Book>, audios: set<Audiobook>, ps: set<Pair>, p: Pair) {
    p in StagePairs(p.source, k, BooksFor(p.source, books, ps), AudiosFor(p.source, audios, ps))
  }

  lemma {:induction false} StagesFollow(k: Keys, books: set<Book>, audios: set<Audiobook>, n: nat)
    requires n <= 5
    ensures var ps := Matches(k, books, audios, STAGES[n..]);
            && (forall p | p in ps :: Rank(p.source) >= n)
            && forall p: Pair | Rank(p.source) >= n ::
                 p in ps <==> MadeFrom(k, books, audios, ps, p)
    decreases 5 - n
  {
    if n < 5 {
      var src := STAGES[n];
      var first := StagePairs(src, k, books, audios);
      var books', audios' := BooksLeft(books, BookIdsOf(first)), AudiosLeft(audios, AudioIdsOf(first));
      assert STAGES[n..][0] == src && STAGES[n..][1..] == STAGES[n + 1..] && Rank(src) == n;
      StagesFollow(k, books', audios', n + 1);
      var rest := Matches(k, books', audios', STAGES[n + 1..]);
      assert Matches(k, books, audios, STAGES[n..]) == first + rest;
      forall p: Pair | Rank(p.source) >= n
        ensures p in first + rest <==>
                MadeFrom(k, books, audios, first + rest, p)
      {
        if Rank(p.source) == n {
          assert p.source == src;
          NothingBefore(src, books, audios, first + rest);
        } else {
          LessTheFirst(p.source, books, audios, first, rest);
        }
      }
    }
  }

  /** A book and an audiobook are paired in a stage exactly when they are each other's only choice among what the pairs
      of the stages before leave: by calibre id, then by file name, by directory, by identifier, by title and author. */
  lemma PairedExactly(k: Keys, books: set<Book>, audios: set<Audiobook>, b: Book, a: Audiobook, src: Source)
    requires PlainFolders(books, audios)
    ensures var ps := Matches(k, books, audios, STAGES);
            Pair(b, a, src) in ps
            <==> OnlyChoice(src, k, BooksFor(src, books, ps), AudiosFor(src, audios, ps), b, a)
  {
    assert STAGES[0..] == STAGES;
    StagesFollow(k, books, audios, 0);
    var ps := Matches(k, books, audios, STAGES);
    assert Pair(b, a, src) in ps <==> MadeFrom(k, books, audios, ps, Pair(b, a, src));
    StageMakesExactly(src, k, BooksFor(src, books, ps), AudiosFor(src, audios, ps), b, a);
  }

  /** Pairs made by place never reach across folders. */
  lemma PairedByPlace(k: Keys, books: set<Book>, audios: set<Audiobook>, p: Pair)
    requires PlainFolders(books, audios) && p in Matches(k, books, audios, STAGES)
    ensures p.source.Directory? ==>
              && p.book.folder == p.audio.folder && k.dir(p.book.path) == k.dir(p.audio.path)
              && k.dir(p.book.path) != "." && k.dir(p.book.path) != ""
    ensures p.source.Filename? ==>
              && p.book.folder == p.audio.folder && k.stem(p.book.path) == k.stem(p.audio.path)
              && p.book.path != "" && p.audio.path != ""
    ensures p.source.Calibre? ==>
              p.book.folder == p.audio.folder && p.book.calibreId.Some? && p.book.calibreId == p.audio.calibreId
  {
    PairedExactly(k, books, audios, p.book, p.audio, p.source);
    assert p == Pair(p.book, p.audio, p.source);
  }
}
