/** Which audiobook of the catalog goes with which book (internal/content/audiobooks.go,
  `matchCatalogAudiobooksToBooks`).

  Five stages run in turn over what earlier stages left. The specification speaks of sets only, so it cannot depend on
  the order of the lists or of a map; the methods below are the loops of the code over mutable "used" sets.
*/
module Catalog {
  import opened Wrappers

  datatype Book = Book(id: string, folder: string, calibreId: Option<int>, path: string, title: string)

  datatype Audiobook = Audiobook(
    id: string, folder: string, calibreId: Option<int>, path: string, title: string, series: string,
    authors: seq<string>)

  datatype Source = Calibre | Filename | Directory | Identifier | TitleAuthor

  datatype Pair = Pair(book: Book, audio: Audiobook, source: Source)

  /** The text rules the stages compare by: file stems and directories, identifier keys, folded titles and names. */
  datatype Keys = Keys(
    stem: string -> string,
    dir: string -> string,
    bookIds: Book -> set<string>,
    audioIds: Audiobook -> seq<string>,
    titleKey: string -> string,
    titleKeys: (string, string) -> seq<string>,
    fold: string -> string,
    authorsOf: string -> seq<string>)

  // ----- the keys

  function Digits(n: nat): (s: string)
    ensures s != "" && forall i | 0 <= i < |s| :: '0' <= s[i] <= '9'
  {
    (if n < 10 then "" else Digits(n / 10)) + ['0' + (n % 10) as char]
  }

  /** `strconvI64`. */
  function Decimal(v: int): string { if v < 0 then "-" + Digits(-v) else Digits(v) }

  function CalibreKey(folder: string, id: int): string { folder + ":" + Decimal(id) }

  lemma {:induction false} DigitsInjective(m: nat, n: nat)
    requires Digits(m) == Digits(n)
    ensures m == n
  {
    var s, t := Digits(m), Digits(n);
    assert s[|s| - 1] == '0' + (m % 10) as char && t[|t| - 1] == '0' + (n % 10) as char;
    assert s[..|s| - 1] == if m < 10 then "" else Digits(m / 10);
    assert t[..|t| - 1] == if n < 10 then "" else Digits(n / 10);
    if m >= 10 && n >= 10 { DigitsInjective(m / 10, n / 10); }
  }

  lemma DecimalInjective(v: int, w: int)
    requires Decimal(v) == Decimal(w)
    ensures v == w
  {
    assert v >= 0 ==> '0' <= Decimal(v)[0] <= '9';
    assert w >= 0 ==> '0' <= Decimal(w)[0] <= '9';
    if v < 0 {
      assert Decimal(v)[0] == '-' && Decimal(v)[1..] == Digits(-v) && Decimal(w)[1..] == Digits(-w);
      DigitsInjective(-v, -w);
    } else {
      DigitsInjective(v, w);
    }
  }

  lemma NoColon(v: int)
    ensures ':' !in Decimal(v)
  {
  }

  lemma NoColonAfter(u: string, i: nat, j: nat)
    requires i < |u| && j < |u| && u[j] == ':' && ':' !in u[i + 1..]
    ensures j <= i
  {
    forall k | i < k < |u| ensures u[k] != ':' { assert u[i + 1..][k - i - 1] == u[k]; }
  }

  lemma SplitAtLastColon(f: string, s: string, g: string, t: string)
    requires ':' !in s && ':' !in t && f + ":" + s == g + ":" + t
    ensures f == g && s == t
  {
    var u := f + ":" + s;
    assert u[|f| + 1..] == s && u[|g| + 1..] == t;
    NoColonAfter(u, |f|, |g|);
    NoColonAfter(u, |g|, |f|);
    assert u[..|f|] == f && u[..|g|] == g;
  }

  /** A calibre key names one folder and one calibre id. */
  lemma CalibreKeyInjective(f: string, v: int, g: string, w: int)
    requires CalibreKey(f, v) == CalibreKey(g, w)
    ensures f == g && v == w
  {
    NoColon(v);
    NoColon(w);
    SplitAtLastColon(f, Decimal(v), g, Decimal(w));
    DecimalInjective(v, w);
  }

  function BookCalibreKey(b: Book): Option<string> {
    if b.calibreId.Some? then Some(CalibreKey(b.folder, b.calibreId.value)) else None
  }

  function AudioCalibreKey(a: Audiobook): Option<string> {
    if a.calibreId.Some? then Some(CalibreKey(a.folder, a.calibreId.value)) else None
  }

  function StemKey(k: Keys, folder: string, path: string): Option<string> {
    if path == "" then None else Some(folder + ":" + k.stem(path))
  }

  function DirKey(k: Keys, folder: string, path: string): Option<string> {
    var d := k.dir(path);
    if d == "." || d == "" then None else Some(folder + ":" + d)
  }

  // ----- who could go with whom

  /** The key is carried by b and by no other of the books. */
  ghost predicate Names(k: Keys, books: set<Book>, key: string, b: Book) {
    b in books && key in k.bookIds(b) && forall b' | b' in books && key in k.bookIds(b') :: b' == b
  }

  predicate AnyFolds(fold: string -> string, names: seq<string>, key: string) {
    exists i :: 0 <= i < |names| && fold(names[i]) == key
  }

  /** The title/author test as the search for the other audiobooks of a book makes it. */
  predicate SameWork(k: Keys, b: Book, a: Audiobook) {
    && a.authors != []
    && AnyFolds(k.fold, k.authorsOf(b.id), k.fold(a.authors[0]))
    && k.titleKey(b.title) in k.titleKeys(a.title, a.series)
  }

  /** The same test as the search for the books of an audiobook makes it: empty keys are refused as well. */
  predicate SameWorkKnown(k: Keys, b: Book, a: Audiobook) {
    SameWork(k, b, a) && k.fold(a.authors[0]) != "" && k.titleKey(b.title) != ""
  }

  /** b is a candidate for a, among the books still there when the stage began. */
  ghost predicate Rel(src: Source, k: Keys, books: set<Book>, b: Book, a: Audiobook) {
    match src
    case Calibre => BookCalibreKey(b).Some? && BookCalibreKey(b) == AudioCalibreKey(a)
    case Filename => StemKey(k, b.folder, b.path).Some? && StemKey(k, b.folder, b.path) == StemKey(k, a.folder, a.path)
    case Directory => DirKey(k, b.folder, b.path).Some? && DirKey(k, b.folder, b.path) == DirKey(k, a.folder, a.path)
    case Identifier => exists key | key in k.audioIds(a) :: Names(k, books, key, b)
    case TitleAuthor => SameWorkKnown(k, b, a)
  }

  /** a counts as a competitor for b when the stage checks that b has only one. */
  ghost predicate Competes(src: Source, k: Keys, books: set<Book>, b: Book, a: Audiobook) {
    if src.TitleAuthor? then SameWork(k, b, a) else Rel(src, k, books, b, a)
  }

  /** b and a are each other's only choice. */
  ghost predicate Mutual(src: Source, k: Keys, books: set<Book>, audios: set<Audiobook>, b: Book, a: Audiobook) {
    && b in books && a in audios && Rel(src, k, books, b, a)
    && (forall b' | b' in books && Rel(src, k, books, b', a) :: b' == b)
    && (forall a' | a' in audios && Competes(src, k, books, b, a') :: a' == a)
  }

  ghost function StagePairs(src: Source, k: Keys, books: set<Book>, audios: set<Audiobook>): set<Pair> {
    set b, a | b in books && a in audios && Mutual(src, k, books, audios, b, a) :: Pair(b, a, src)
  }

  ghost function BookIdsOf(ps: set<Pair>): set<string> { set p | p in ps :: p.book.id }

  ghost function AudioIdsOf(ps: set<Pair>): set<string> { set p | p in ps :: p.audio.id }

  ghost function BooksLeft(books: set<Book>, used: set<string>): set<Book> { set b | b in books && b.id !in used }

  ghost function AudiosLeft(audios: set<Audiobook>, used: set<string>): set<Audiobook> {
    set a | a in audios && a.id !in used
  }

  const STAGES: seq<Source> := [Calibre, Filename, Directory, Identifier, TitleAuthor]

  /** The pairs made by the stages in turn, each over what the ones before it left. */
  ghost function Matches(k: Keys, books: set<Book>, audios: set<Audiobook>, stages: seq<Source>): set<Pair> {
    if stages == [] then {}
    else
      var ps := StagePairs(stages[0], k, books, audios);
      ps + Matches(k, BooksLeft(books, BookIdsOf(ps)), AudiosLeft(audios, AudioIdsOf(ps)), stages[1..])
  }

  ghost predicate UniqueIds(books: set<Book>, audios: set<Audiobook>) {
    && (forall b, b' | b in books && b' in books && b.id == b'.id :: b == b')
    && (forall a, a' | a in audios && a' in audios && a.id == a'.id :: a == a')
  }

  /** The catalog's unique index: one book and one audiobook per folder and calibre id. */
  ghost predicate UniqueCalibre(books: set<Book>, audios: set<Audiobook>) {
    && (forall b, b' | b in books && b' in books && b.folder == b'.folder
         && b.calibreId.Some? && b.calibreId == b'.calibreId :: b == b')
    && (forall a, a' | a in audios && a' in audios && a.folder == a'.folder
         && a.calibreId.Some? && a.calibreId == a'.calibreId :: a == a')
  }

  // ----- what holds of the matching

  /** No book and no audiobook is in two pairs. */
  ghost predicate OneToOne(ps: set<Pair>) {
    forall p, q | p in ps && q in ps && (p.book.id == q.book.id || p.audio.id == q.audio.id) :: p == q
  }

  lemma {:induction false} MatchesAreOneToOne(k: Keys, books: set<Book>, audios: set<Audiobook>, stages: seq<Source>)
    requires UniqueIds(books, audios)
    ensures var ps := Matches(k, books, audios, stages);
            OneToOne(ps) && forall p | p in ps :: p.book in books && p.audio in audios
  {
    if stages != [] {
      var ps := StagePairs(stages[0], k, books, audios);
      MatchesAreOneToOne(k, BooksLeft(books, BookIdsOf(ps)), AudiosLeft(audios, AudioIdsOf(ps)), stages[1..]);
      StageIsOneToOne(stages[0], k, books, audios);
      var rest := Matches(k, BooksLeft(books, BookIdsOf(ps)), AudiosLeft(audios, AudioIdsOf(ps)), stages[1..]);
      forall p, q | p in ps && q in rest ensures p.book.id != q.book.id && p.audio.id != q.audio.id {
        assert p.book.id in BookIdsOf(ps) && p.audio.id in AudioIdsOf(ps);
      }
    }
  }

  lemma StageIsOneToOne(src: Source, k: Keys, books: set<Book>, audios: set<Audiobook>)
    requires UniqueIds(books, audios)
    ensures OneToOne(StagePairs(src, k, books, audios))
  {
    var ps := StagePairs(src, k, books, audios);
    forall p, q | p in ps && q in ps && (p.book.id == q.book.id || p.audio.id == q.audio.id) ensures p == q {
      RelCompetes(src, k, books, p.book, p.audio);
      RelCompetes(src, k, books, q.book, q.audio);
    }
  }

  /** Whoever is a candidate also competes. */
  lemma RelCompetes(src: Source, k: Keys, books: set<Book>, b: Book, a: Audiobook)
    ensures Rel(src, k, books, b, a) ==> Competes(src, k, books, b, a)
  {
  }

  /** Among audiobooks that have candidates at all, and books that are candidates at all, competing is being a
      candidate. */
  lemma CompetesIsRel(src: Source, k: Keys, books: set<Book>, b: Book, a: Audiobook, b': Book, a': Audiobook)
    requires Rel(src, k, books, b', a') && Rel(src, k, books, b, a) && Competes(src, k, books, b, a')
    ensures Rel(src, k, books, b, a')
  {
  }

  // ----- rivals without a name

  /** An audiobook whose first author folds to nothing, as one of the book's own authors does. */
  predicate Nameless(k: Keys, b: Book, a: Audiobook) { SameWork(k, b, a) && k.fold(a.authors[0]) == "" }

  /** The search for rivals takes in just these beside the candidates; its title key is a candidate's and not empty. */
  lemma RivalsExactly(k: Keys, books: set<Book>, b: Book, a: Audiobook, a': Audiobook)
    requires Rel(TitleAuthor, k, books, b, a)
    ensures Competes(TitleAuthor, k, books, b, a') && !Rel(TitleAuthor, k, books, b, a') <==> Nameless(k, b, a')
  {
  }

  /** A book and an audiobook that are each other's only candidate are paired exactly when no nameless one is around. */
  lemma OnlyCandidatesPairExactly(k: Keys, books: set<Book>, audios: set<Audiobook>, b: Book, a: Audiobook)
    requires b in books && a in audios && Rel(TitleAuthor, k, books, b, a)
    requires forall b' | b' in books && Rel(TitleAuthor, k, books, b', a) :: b' == b
    requires forall a' | a' in audios && Rel(TitleAuthor, k, books, b, a') :: a' == a
    ensures Pair(b, a, TitleAuthor) in StagePairs(TitleAuthor, k, books, audios)
            <==> forall a' | a' in audios :: !Nameless(k, b, a')
  {
    forall a' | a' in audios ensures Competes(TitleAuthor, k, books, b, a') <==> a' == a || Nameless(k, b, a') {
      RivalsExactly(k, books, b, a, a');
    }
  }

  /** Names fold to themselves, but for "?", which folds to nothing; nothing else is known of anything. */
  const PLAIN_KEYS := Keys(
    (path: string) => "", (path: string) => ".", (b: Book) => {}, (a: Audiobook) => [],
    (title: string) => title, (title: string, series: string) => [title],
    (name: string) => if name == "?" then "" else name, (id: string) => ["x", "?"])

  const THE_BOOK := Book("b", "f", None, "", "t")

  const THE_AUDIO := Audiobook("a", "f", None, "", "t", "", ["x"])

  const NAMELESS := Audiobook("n", "f", None, "", "t", "", ["?"])

  /** Of a book by "x" and "?" only the title and author stage knows anything. */
  lemma OtherStagesAreSilent(src: Source, audios: set<Audiobook>)
    requires !src.TitleAuthor? && audios <= {THE_AUDIO, NAMELESS}
    ensures StagePairs(src, PLAIN_KEYS, {THE_BOOK}, audios) == {}
  {
    forall a | a in audios ensures !Rel(src, PLAIN_KEYS, {THE_BOOK}, THE_BOOK, a) {}
  }

  /** A stage that makes no pairs leaves everything to the next. */
  lemma SilentStage(k: Keys, books: set<Book>, audios: set<Audiobook>, stages: seq<Source>)
    requires stages != [] && StagePairs(stages[0], k, books, audios) == {}
    ensures Matches(k, books, audios, stages) == Matches(k, books, audios, stages[1..])
  {
    assert BooksLeft(books, BookIdsOf({})) == books && AudiosLeft(audios, AudioIdsOf({})) == audios;
  }

  lemma {:induction false} OnlyTheLastStage(audios: set<Audiobook>, n: nat)
    requires n <= 4 && audios <= {THE_AUDIO, NAMELESS}
    ensures Matches(PLAIN_KEYS, {THE_BOOK}, audios, STAGES[n..])
            == StagePairs(TitleAuthor, PLAIN_KEYS, {THE_BOOK}, audios)
    decreases 4 - n
  {
    if n < 4 {
      OtherStagesAreSilent(STAGES[n], audios);
      SilentStage(PLAIN_KEYS, {THE_BOOK}, audios, STAGES[n..]);
      assert STAGES[n..][1..] == STAGES[n + 1..];
      OnlyTheLastStage(audios, n + 1);
    } else {
      assert STAGES[4..] == [TitleAuthor] && [TitleAuthor][1..] == [];
      var ps := StagePairs(TitleAuthor, PLAIN_KEYS, {THE_BOOK}, audios);
      assert Matches(PLAIN_KEYS, BooksLeft({THE_BOOK}, BookIdsOf(ps)), AudiosLeft(audios, AudioIdsOf(ps)), []) == {};
    }
  }

  lemma TheAudioIsTheCandidate()
    ensures Rel(TitleAuthor, PLAIN_KEYS, {THE_BOOK}, THE_BOOK, THE_AUDIO)
    ensures !Rel(TitleAuthor, PLAIN_KEYS, {THE_BOOK}, THE_BOOK, NAMELESS) && Nameless(PLAIN_KEYS, THE_BOOK, NAMELESS)
    ensures !Nameless(PLAIN_KEYS, THE_BOOK, THE_AUDIO)
  {
    var names := PLAIN_KEYS.authorsOf(THE_BOOK.id);
    assert "x"[0] != "?"[0];
    assert PLAIN_KEYS.fold(names[0]) == "x" && PLAIN_KEYS.fold(names[1]) == "";
    assert AnyFolds(PLAIN_KEYS.fold, names, "x") && AnyFolds(PLAIN_KEYS.fold, names, "");
    assert PLAIN_KEYS.titleKeys("t", "") == ["t"];
    assert "t" in ["t"];
  }

  /** The book and the audiobook by "x" are paired when they are alone, and not when one by "?" of the same title is
      there, although it is nobody's candidate. */
  lemma ANamelessRivalBlocks()
    ensures Matches(PLAIN_KEYS, {THE_BOOK}, {THE_AUDIO}, STAGES) == {Pair(THE_BOOK, THE_AUDIO, TitleAuthor)}
    ensures Matches(PLAIN_KEYS, {THE_BOOK}, {THE_AUDIO, NAMELESS}, STAGES) == {}
    ensures !Rel(TitleAuthor, PLAIN_KEYS, {THE_BOOK}, THE_BOOK, NAMELESS)
  {
    assert STAGES[0..] == STAGES;
    OnlyTheLastStage({THE_AUDIO}, 0);
    OnlyTheLastStage({THE_AUDIO, NAMELESS}, 0);
    TheAudioIsTheCandidate();
    OnlyCandidatesPairExactly(PLAIN_KEYS, {THE_BOOK}, {THE_AUDIO}, THE_BOOK, THE_AUDIO);
    OnlyCandidatesPairExactly(PLAIN_KEYS, {THE_BOOK}, {THE_AUDIO, NAMELESS}, THE_BOOK, THE_AUDIO);
  }

  /** With the unique index in place the calibre stage takes every pair of equal keys. */
  lemma CalibreStageTakesAll(k: Keys, books: set<Book>, audios: set<Audiobook>, b: Book, a: Audiobook)
    requires UniqueCalibre(books, audios) && b in books && a in audios
    requires b.calibreId.Some? && b.calibreId == a.calibreId && b.folder == a.folder
    ensures Pair(b, a, Calibre) in Matches(k, books, audios, STAGES)
  {
    forall b' | b' in books && Rel(Calibre, k, books, b', a) ensures b' == b {
      CalibreKeyInjective(b'.folder, b'.calibreId.value, a.folder, a.calibreId.value);
    }
    forall a' | a' in audios && Rel(Calibre, k, books, b, a') ensures a' == a {
      CalibreKeyInjective(b.folder, b.calibreId.value, a'.folder, a'.calibreId.value);
    }
    assert Mutual(Calibre, k, books, audios, b, a);
    assert STAGES[0] == Calibre;
  }

  /** The pairs taken so far never disturb the ones still to come: a candidate of a waiting audiobook is still free, and
      so is every competitor for a free book. */
  lemma Undisturbed(src: Source, k: Keys, books: set<Book>, audios: set<Audiobook>, taken: set<Pair>, b: Book,
                    a: Audiobook)
    requires UniqueIds(books, audios) && taken <= StagePairs(src, k, books, audios)
    requires b in books && a in audios && a.id !in AudioIdsOf(taken) && Rel(src, k, books, b, a)
    ensures b.id !in BookIdsOf(taken)
    ensures forall a' | a' in audios && Competes(src, k, books, b, a') :: a'.id !in AudioIdsOf(taken)
  {
    RelCompetes(src, k, books, b, a);
    forall p | p in taken ensures p.book.id != b.id {
      assert p.audio.id in AudioIdsOf(taken);
      assert p.book.id == b.id ==> p.book == b;
    }
    forall a', p | a' in audios && Competes(src, k, books, b, a') && p in taken ensures p.audio.id != a'.id {
      if p.audio.id == a'.id {
        CompetesIsRel(src, k, books, b, a, p.book, a');
      }
    }
  }
}
