/** What any run of `AddBook`, `AddFormat` and `DeleteBook` keeps, whichever of their steps fail
  (internal/calibre/writer.go).
*/
module LibraryRuns {
  import opened Library
  import opened Wrappers
  import opened CalibreWriter
  import Text

  /** What one call did, as `Writer`'s methods promise it. */
  datatype Event =
    | Nothing
    | BookAdded(book: NewBook, id: int)
    | NewFormat(row: DataRow, content: string)
    | StrayFile(file: Path, left: string)
    | BookDeleted(id: int)
    | BookEmptied(id: int, keep: set<Path>, part: bool)

  ghost predicate Happens(a: State, e: Event, b: State) {
    match e
    case Nothing => a == b
    case BookAdded(book, id) => Added(a, b, book, id)
    case NewFormat(row, content) => FormatAdded(a, b, row, content)
    case StrayFile(file, left) => FileLeft(a, b, file, left)
    case BookDeleted(id) => Deleted(a, b, id)
    case BookEmptied(id, keep, part) => Emptied(a, b, id, keep, part)
  }

  ghost predicate IsRun(states: seq<State>, events: seq<Event>) {
    && |states| == |events| + 1
    && (forall i | 0 <= i < |states| :: Tree(states[i].disk))
    && forall i | 0 <= i < |events| :: Happens(states[i], events[i], states[i + 1])
  }

  // ----- no file without a row

  lemma {:induction false} OthersStay(data: seq<DataRow>, id: int, d: DataRow)
    ensures d in WithoutBook(data, id) <==> d in data && d.book != id
  {
    if data != [] { OthersStay(data[..|data| - 1], id, d); }
  }

  lemma ClaimsGrow(a: Rows, b: Rows, id: int, f: Path)
    requires id in a.books && id in b.books && b.books[id] == a.books[id] && a.data <= b.data
    ensures Claims(a, id, f) ==> Claims(b, id, f)
  {
    if d :| d in a.data && d.book == id && f != [] && FileName(d) == Name(f) {
      assert d in b.data;
    }
  }

  lemma AddedFilesAreClaimed(a: State, b: State, book: NewBook, id: int, f: Path)
    requires Added(a, b, book, id) && f in b.disk.files && f !in a.disk.files
    ensures Claims(b.rows, id, f)
  {
    var row := DataRow(id, "EPUB", book.size, book.name);
    assert row in b.rows.data;
    assert Lower("EPUB") == "epub";
    var dir := DirOf(book, id);
    assert f == dir + [book.name + ".epub"] || f == dir + [COVER_NAME] || f == dir + [OPF_NAME];
    assert Name(dir + [FileName(row)]) == FileName(row);
    assert book.name + "." + "epub" == book.name + ".epub";
  }

  lemma AddOrphansNothing(a: State, b: State, book: NewBook, id: int)
    requires Added(a, b, book, id)
    ensures Orphans(b) <= Orphans(a)
  {
    forall f | f in Orphans(b) ensures f in Orphans(a) {
      if f !in a.disk.files { AddedFilesAreClaimed(a, b, book, id, f); }
      forall i ensures !Claims(a.rows, i, f) {
        if i in a.rows.books { ClaimsGrow(a.rows, b.rows, i, f); }
      }
    }
  }

  lemma FormatOrphansNothing(a: State, b: State, row: DataRow, content: string)
    requires FormatAdded(a, b, row, content)
    ensures Orphans(b) <= Orphans(a)
  {
    var file := FileOf(a.rows.books[row.book], row);
    assert row in b.rows.data;
    assert Claims(b.rows, row.book, file);
    forall f | f in Orphans(b) ensures f in Orphans(a) {
      assert f != file;
      forall i ensures !Claims(a.rows, i, f) {
        if i in a.rows.books { ClaimsGrow(a.rows, b.rows, i, f); }
      }
    }
  }

  /** A file of another book stays claimed, a file of the deleted book is gone. */
  lemma DeleteOrphansNothing(a: State, b: State, id: int)
    requires Tree(a.disk) && Deleted(a, b, id)
    ensures Orphans(b) <= Orphans(a)
  {
    var dir := a.rows.books[id].path;
    forall f | f in Orphans(b) ensures f in Orphans(a) {
      assert f in a.disk.files;
      forall i ensures !Claims(a.rows, i, f) {
        if i == id {
          GoneWithItsDirectory(a, b, id, f);
        } else {
          OthersStillClaim(a.rows, id, i, f);
        }
      }
    }
  }

  lemma OthersStillClaim(rows: Rows, id: int, i: int, f: Path)
    requires i != id
    ensures Claims(rows, i, f) ==> Claims(RowsDeleted(rows, id), i, f)
  {
    if d :| d in rows.data && d.book == i && f != [] && FileName(d) == Name(f) {
      OthersStay(rows.data, id, d);
    }
  }

  lemma GoneWithItsDirectory(a: State, b: State, id: int, f: Path)
    requires Tree(a.disk) && Deleted(a, b, id) && f in b.disk.files && f != []
    ensures Parent(f) != a.rows.books[id].path
  {
    var dir := a.rows.books[id].path;
    assert Parent(f) == dir ==> Within(dir, f) && dir in a.disk.dirs;
    assert Spared(dir, f, {}) && Within(dir, f) ==> Kept(f, |dir|, {});
  }

  /** One call: no new file without a row, except the one the misread copy error leaves. */
  lemma NoNewOrphans(a: State, e: Event, b: State)
    requires Tree(a.disk) && Happens(a, e, b)
    ensures Orphans(b) <= Orphans(a) + if e.StrayFile? then {e.file} else {}
  {
    match e {
      case Nothing =>
      case BookAdded(book, id) => AddOrphansNothing(a, b, book, id);
      case NewFormat(row, content) => FormatOrphansNothing(a, b, row, content);
      case StrayFile(file, left) =>
      case BookDeleted(id) => DeleteOrphansNothing(a, b, id);
      case BookEmptied(id, keep, part) =>
    }
  }

  /** The stray file is an orphan indeed, unless a book's row happens to name it. */
  lemma StrayIsAnOrphan(a: State, b: State, file: Path, left: string)
    requires FileLeft(a, b, file, left)
    ensures file in Orphans(b) <==> forall id :: !Claims(a.rows, id, file)
  {
  }

  const SHELF := ["A", "T (1)"]

  /** One EPUB on the shelf, and an audiobook about to join it. */
  const ONE_BOOK := State(
    Rows(map[1 := BookRow("T", SHELF)], [DataRow(1, "EPUB", 1, "T - A")], {}, map[]),
    Disk({[], ["A"], SHELF}, map[SHELF + ["T - A.epub"] := "text"]))

  /** The copy breaks off half way with an error that says "file exists"; nothing else fails. */
  function BadCopy(step: Step): Fault { if step == Write(0) then SaysExists("half") else Fine }

  lemma ShelfIsSound()
    ensures Sound(ONE_BOOK)
  {
    var row := DataRow(1, "EPUB", 1, "T - A");
    assert Lower("EPUB") == "epub" && FileName(row) == "T - A.epub";
    assert Parent(["A"]) == [] && Parent(SHELF) == ["A"] && Parent(SHELF + ["T - A.epub"]) == SHELF;
  }

  const STRAY := SHELF + ["T - A.m4b"]

  const NEW_ROW := DataRow(1, "M4B", 9, "T - A")

  lemma StrayName(safe: string -> string)
    ensures NewRow(ONE_BOOK, 1, "M4B", 9, safe) == NEW_ROW && FileOf(BookRow("T", SHELF), NEW_ROW) == STRAY
    ensures Parent(STRAY) == SHELF && Name(STRAY) == "T - A.m4b"
  {
    assert FirstRow(ONE_BOOK.rows.data, 1, true) == Some(ONE_BOOK.rows.data[0]);
    assert Lower("M4B") == "m4b" && "T - A" + "." + "m4b" == "T - A.m4b";
  }

  lemma StrayIsNew()
    ensures !Taken(ONE_BOOK.disk, STRAY) && forall id :: !Claims(ONE_BOOK.rows, id, STRAY)
  {
    var row := ONE_BOOK.rows.data[0];
    assert Name(STRAY) == "T - A.m4b" && "T - A.m4b"[6] == 'm';
    assert FileName(row)[6] == 'e' by { assert Lower("EPUB")[0] == 'e'; }
    assert Name(SHELF + ["T - A.epub"])[6] == 'e';
  }

  /** Such a call leaves half an audiobook beside the book, and no row knows of it. */
  lemma TheStrayFile(safe: string -> string)
    ensures Sound(ONE_BOOK) && LeavesFile(ONE_BOOK, 1, "M4B", 9, safe, BadCopy)
    ensures FileOf(ONE_BOOK.rows.books[1], NewRow(ONE_BOOK, 1, "M4B", 9, safe)) == STRAY
    ensures STRAY in Orphans(State(ONE_BOOK.rows, Put(ONE_BOOK.disk, STRAY, "half")))
  {
    ShelfIsSound();
    StrayName(safe);
    StrayIsReached(safe);
    StrayOrphan();
  }

  lemma StrayIsReached(safe: string -> string)
    ensures LeavesFile(ONE_BOOK, 1, "M4B", 9, safe, BadCopy)
  {
    StrayName(safe);
    StrayIsNew();
    assert !BadName("T - A") && !BadFormat("M4B") && !HasFormat(ONE_BOOK.rows, 1, "M4B");
  }

  lemma StrayOrphan()
    ensures STRAY in Orphans(State(ONE_BOOK.rows, Put(ONE_BOOK.disk, STRAY, "half")))
  {
    StrayIsNew();
    StrayIsAnOrphan(ONE_BOOK, State(ONE_BOOK.rows, Put(ONE_BOOK.disk, STRAY, "half")), STRAY, "half");
  }

  /** Over every run, whatever fails when: the files without a row are at most those there were before and those that a
      misread copy error left. */
  lemma {:induction false} OrphansNeverGrow(states: seq<State>, events: seq<Event>)
    requires IsRun(states, events)
    ensures Orphans(states[|events|]) <=
              Orphans(states[0]) + (set i | 0 <= i < |events| && events[i].StrayFile? :: events[i].file)
    decreases |events|
  {
    var n := |events|;
    if n > 0 {
      assert IsRun(states[..n], events[..n - 1]);
      OrphansNeverGrow(states[..n], events[..n - 1]);
      NoNewOrphans(states[n - 1], events[n - 1], states[n]);
      assert Happens(states[n - 1], events[n - 1], states[n]);
    }
  }

  // ----- no row without its files

  /** No book's directory is another's, or lies in another's. */
  ghost predicate Apart(rows: Rows) {
    forall i, j | i in rows.books && j in rows.books && i != j :: !Within(rows.books[i].path, rows.books[j].path)
  }

  /** Every book has a directory of its own, with the files its rows promise. */
  ghost predicate Sound(s: State) {
    && Tree(s.disk) && Complete(s) && Apart(s.rows)
    && (forall d <- s.rows.data :: d.book in s.rows.books)
    && (forall id <- s.rows.books :: s.rows.books[id].path != [] && s.rows.books[id].path in s.disk.dirs)
  }

  /** No book's directory is the author's, or above it. */
  ghost predicate Clear(rows: Rows, author: Path) {
    forall id <- rows.books :: !Within(rows.books[id].path, author)
  }

  lemma AddedIsApart(a: State, b: State, book: NewBook, id: int)
    requires Sound(a) && Added(a, b, book, id)
    ensures Apart(b.rows) <==> Clear(a.rows, book.author)
  {
    var dir := DirOf(book, id);
    forall j <- a.rows.books
      ensures !Within(dir, a.rows.books[j].path)
      ensures Within(a.rows.books[j].path, dir) <==> Within(a.rows.books[j].path, book.author)
    {
      var p := a.rows.books[j].path;
      if Within(dir, p) && p != dir { NothingBelow(a.disk, dir, p); }
      assert Within(p, dir) && p != dir ==> p == dir[..|p|] == book.author[..|p|];
      assert Within(p, book.author) ==> p == book.author[..|p|] == dir[..|p|];
    }
    if Apart(b.rows) {
      forall j <- a.rows.books ensures !Within(a.rows.books[j].path, book.author) {
        assert j in b.rows.books && id in b.rows.books && j != id;
        assert b.rows.books[j] == a.rows.books[j];
      }
    }
  }

  lemma AddedIsComplete(a: State, b: State, book: NewBook, id: int)
    requires Sound(a) && Added(a, b, book, id)
    ensures Complete(b) && forall d <- b.rows.data :: d.book in b.rows.books
  {
    var row := DataRow(id, "EPUB", book.size, book.name);
    assert Lower("EPUB") == "epub";
    assert book.name + "." + "epub" == book.name + ".epub";
    forall d <- b.rows.data ensures d.book in b.rows.books && FileOf(b.rows.books[d.book], d) in b.disk.files {
      if d in a.rows.data {
        assert FileOf(a.rows.books[d.book], d) in a.disk.files;
      } else {
        assert d == row;
      }
    }
  }

  /** An added book has a directory of its own exactly when its author's directory is in no other book's. */
  lemma AddKeepsSoundExactly(a: State, b: State, book: NewBook, id: int)
    requires Sound(a) && Tree(b.disk) && Added(a, b, book, id)
    ensures Sound(b) <==> Clear(a.rows, book.author)
  {
    AddedIsApart(a, b, book, id);
    AddedIsComplete(a, b, book, id);
  }

  lemma FormatKeepsSound(a: State, b: State, row: DataRow, content: string)
    requires Sound(a) && Tree(b.disk) && FormatAdded(a, b, row, content)
    ensures Sound(b)
  {
    forall d <- b.rows.data ensures d.book in b.rows.books && FileOf(b.rows.books[d.book], d) in b.disk.files {
      if d in a.rows.data {
        assert FileOf(a.rows.books[d.book], d) in a.disk.files;
      } else {
        assert d == row;
      }
    }
  }

  /** A file of a book lies in another directory exactly when the book does. */
  lemma FileWithin(d: Disk, dir: Path, book: BookRow, row: DataRow)
    requires dir !in d.files && FileOf(book, row) in d.files
    ensures Within(dir, FileOf(book, row)) <==> Within(dir, book.path)
  {
    var f := FileOf(book, row);
    assert f[..|book.path|] == book.path;
    assert Within(dir, f) && dir != f ==> dir == f[..|dir|] == book.path[..|dir|];
    assert Within(dir, book.path) ==> dir == book.path[..|dir|] == f[..|dir|];
  }

  /** A removal takes exactly what is in the directory and not spared. */
  lemma CutAway(d: Disk, dir: Path, keep: set<Path>, p: Path)
    ensures p in Cut(d, dir, keep).files <==> p in d.files && (Within(dir, p) ==> Spared(dir, p, keep))
    ensures p in Cut(d, dir, keep).dirs <==> p in d.dirs && (Within(dir, p) ==> Spared(dir, p, keep))
    ensures Within(dir, p) ==> !Spared(dir, p, {})
  {
    if Within(dir, p) { assert !Kept(p, |dir|, {}); }
  }

  /** A deletion leaves every other row its file exactly when no other book with a file lies in the book's directory. */
  lemma DeletionSparesOthersExactly(a: State, b: State, id: int)
    requires Tree(a.disk) && Complete(a) && Deleted(a, b, id)
    ensures Complete(b) <==>
            forall d <- a.rows.data :: d.book in a.rows.books && d.book != id ==>
              !Within(a.rows.books[id].path, a.rows.books[d.book].path)
  {
    var dir := a.rows.books[id].path;
    forall d <- a.rows.data | d.book in a.rows.books && d.book != id
      ensures d in b.rows.data && d.book in b.rows.books && b.rows.books[d.book] == a.rows.books[d.book]
      ensures FileOf(a.rows.books[d.book], d) in b.disk.files <==> !Within(dir, a.rows.books[d.book].path)
    {
      OthersStay(a.rows.data, id, d);
      OutlivesExactly(a, id, d);
    }
    forall d <- b.rows.data ensures d in a.rows.data && d.book != id { OthersStay(a.rows.data, id, d); }
  }

  lemma OutlivesExactly(a: State, id: int, d: DataRow)
    requires Tree(a.disk) && Complete(a) && id in a.rows.books && !Refused(a.rows.books[id].path)
    requires a.rows.books[id].path !in a.disk.files && d in a.rows.data && d.book in a.rows.books
    ensures FileOf(a.rows.books[d.book], d) in TreeDeleted(a.disk, a.rows.books[id].path).files
            <==> !Within(a.rows.books[id].path, a.rows.books[d.book].path)
  {
    var dir, f := a.rows.books[id].path, FileOf(a.rows.books[d.book], d);
    FileWithin(a.disk, dir, a.rows.books[d.book], d);
    CutAway(a.disk, dir, {}, f);
    if !Taken(a.disk, dir) && Within(dir, f) { NothingBelow(a.disk, dir, f); }
  }

  /** What is not in the book's own directory outlives its deletion, but for an author's directory left empty. */
  lemma OtherDirectoriesStay(d: Disk, dir: Path, p: Path)
    requires Tree(d) && dir != [] && !Within(dir, p) && !Within(p, dir) && p in d.dirs
    ensures p in TreeDeleted(d, dir).dirs
  {
    CutAway(d, dir, {}, p);
    assert p == Parent(dir) ==> Within(p, dir);
  }

  lemma DeleteKeepsSound(a: State, b: State, id: int)
    requires Sound(a) && Tree(b.disk) && Deleted(a, b, id)
    ensures Sound(b)
  {
    DeletionSparesOthersExactly(a, b, id);
    forall i <- b.rows.books ensures b.rows.books[i].path in b.disk.dirs {
      OtherDirectoriesStay(a.disk, a.rows.books[id].path, a.rows.books[i].path);
    }
    forall d <- b.rows.data ensures d.book in b.rows.books { OthersStay(a.rows.data, id, d); }
  }

  /** What a broken-off removal has to spare for the book to be as it was: its directory and the files of its rows. */
  ghost predicate SparesTheBook(s: State, id: int, keep: set<Path>)
    requires id in s.rows.books
  {
    var dir := s.rows.books[id].path;
    && Spared(dir, dir, keep)
    && forall d <- s.rows.data :: d.book == id ==> Spared(dir, FileOf(s.rows.books[id], d), keep)
  }

  lemma EmptiedIsComplete(a: State, b: State, id: int, keep: set<Path>)
    requires Sound(a) && Emptied(a, b, id, keep, true)
    ensures Complete(b) <==> forall d <- a.rows.data :: d.book == id ==>
              Spared(a.rows.books[id].path, FileOf(a.rows.books[id], d), keep)
  {
    var dir := a.rows.books[id].path;
    forall d <- a.rows.data
      ensures FileOf(a.rows.books[d.book], d) in b.disk.files
              <==> (d.book == id ==> Spared(dir, FileOf(a.rows.books[d.book], d), keep))
    {
      var f := FileOf(a.rows.books[d.book], d);
      FileWithin(a.disk, dir, a.rows.books[d.book], d);
      CutAway(a.disk, dir, keep, f);
    }
  }

  /** A deletion that kept its row is as if it had not been tried, exactly when its removal broke off and spared the
      book. */
  lemma EmptiedIsSoundExactly(a: State, b: State, id: int, keep: set<Path>, part: bool)
    requires Sound(a) && Tree(b.disk) && Emptied(a, b, id, keep, part)
    ensures Sound(b) <==> part && SparesTheBook(a, id, keep)
  {
    var dir := a.rows.books[id].path;
    if part {
      EmptiedIsComplete(a, b, id, keep);
      forall i <- a.rows.books
        ensures a.rows.books[i].path in b.disk.dirs <==> (i == id ==> Spared(dir, dir, keep))
      {
        CutAway(a.disk, dir, keep, a.rows.books[i].path);
      }
    } else {
      CutAway(a.disk, dir, {}, dir);
    }
  }

  // ----- deletions that fail half way

  /** The deletion keeps the row and takes the book's directory or one of its files: the commit fails after the files
      are gone, or the removal itself breaks off. */
  ghost predicate Strands(s: State, id: int, faults: Faults, keep: set<Path>) {
    && ReachesRemoval(s, id, faults)
    && if faults(RemoveDir).Fine? then !faults(Commit).Fine? else !SparesTheBook(s, id, keep)
  }

  lemma DeletionKeepsTree(s: State, id: int, faults: Faults, keep: set<Path>)
    requires Tree(s.disk)
    ensures Tree(AfterDeletion(s, id, faults, keep).disk)
  {
    if ReachesRemoval(s, id, faults) {
      var dir := s.rows.books[id].path;
      CutKeepsTree(s.disk, dir, keep);
      CutKeepsTree(s.disk, dir, {});
      if Parent(dir) != [] { RemoveEmptyKeepsTree(Cut(s.disk, dir, {}), Parent(dir)); }
    }
  }

  /** A deletion leaves every book with its directory and every row with its file, exactly when it does not strand its
      own. */
  lemma DeletionIsSoundExactly(s: State, id: int, faults: Faults, keep: set<Path>)
    requires Sound(s)
    ensures Sound(AfterDeletion(s, id, faults, keep)) <==> !Strands(s, id, faults, keep)
  {
    var b := AfterDeletion(s, id, faults, keep);
    DeletionKeepsTree(s, id, faults, keep);
    if ReachesRemoval(s, id, faults) {
      if !faults(RemoveDir).Fine? {
        EmptiedIsSoundExactly(s, b, id, keep, true);
      } else if !faults(Commit).Fine? {
        EmptiedIsSoundExactly(s, b, id, keep, false);
      } else {
        DeleteKeepsSound(s, b, id);
      }
    }
  }

  /** After a failed commit every row of the book is there and none of its files. */
  lemma CommitFailureStrandsTheRows(s: State, id: int, faults: Faults, keep: set<Path>, d: DataRow)
    requires Sound(s) && ReachesRemoval(s, id, faults) && faults(RemoveDir).Fine? && !faults(Commit).Fine?
    requires d in s.rows.data && d.book == id
    ensures var b := AfterDeletion(s, id, faults, keep);
            b.rows == s.rows && FileOf(s.rows.books[id], d) in s.disk.files
              && FileOf(s.rows.books[id], d) !in b.disk.files
  {
    var dir, f := s.rows.books[id].path, FileOf(s.rows.books[id], d);
    FileWithin(s.disk, dir, s.rows.books[id], d);
    CutAway(s.disk, dir, {}, f);
  }

  /** A deletion is one of the events of a run. */
  lemma DeletionIsAnEvent(s: State, id: int, faults: Faults, keep: set<Path>) returns (e: Event)
    requires Tree(s.disk)
    ensures Happens(s, e, AfterDeletion(s, id, faults, keep)) && !e.StrayFile? && !e.BookAdded?
  {
    if !ReachesRemoval(s, id, faults) {
      e := Nothing;
    } else if !RemovesAll(s, id, faults) {
      e := BookEmptied(id, keep, true);
    } else if !faults(Commit).Fine? {
      e := BookEmptied(id, keep, false);
    } else {
      e := BookDeleted(id);
    }
  }

  // ----- runs

  /** The event leaves every book with its directory and its files. */
  ghost predicate Harmless(s: State, e: Event) {
    match e
    case BookAdded(book, id) => Clear(s.rows, book.author)
    case BookEmptied(id, keep, part) => id in s.rows.books && part && SparesTheBook(s, id, keep)
    case _ => true
  }

  lemma StepIsSoundExactly(a: State, e: Event, b: State)
    requires Sound(a) && Tree(b.disk) && Happens(a, e, b)
    ensures Sound(b) <==> Harmless(a, e)
  {
    match e {
      case Nothing =>
      case BookAdded(book, id) => AddKeepsSoundExactly(a, b, book, id);
      case NewFormat(row, content) => FormatKeepsSound(a, b, row, content);
      case StrayFile(file, left) => assert Sound(b);
      case BookDeleted(id) => DeleteKeepsSound(a, b, id);
      case BookEmptied(id, keep, part) => EmptiedIsSoundExactly(a, b, id, keep, part);
    }
  }

  lemma {:induction false} HarmlessStaysSound(states: seq<State>, events: seq<Event>, i: nat)
    requires IsRun(states, events) && Sound(states[0]) && i <= |events|
    requires forall k | 0 <= k < i :: Harmless(states[k], events[k])
    ensures Sound(states[i])
  {
    if i > 0 {
      HarmlessStaysSound(states, events, i - 1);
      assert Happens(states[i - 1], events[i - 1], states[i]);
      StepIsSoundExactly(states[i - 1], events[i - 1], states[i]);
    }
  }

  /** Over every run: each book keeps its directory and each row its file all along, exactly when no book is added
      inside another's directory and no deletion strands its rows. */
  lemma RowsKeepTheirFilesExactly(states: seq<State>, events: seq<Event>)
    requires IsRun(states, events) && Sound(states[0])
    ensures (forall i | 0 <= i <= |events| :: Sound(states[i]))
            <==> forall i | 0 <= i < |events| :: Harmless(states[i], events[i])
  {
    if forall i | 0 <= i < |events| :: Harmless(states[i], events[i]) {
      forall i | 0 <= i <= |events| ensures Sound(states[i]) { HarmlessStaysSound(states, events, i); }
    }
    if forall i | 0 <= i <= |events| :: Sound(states[i]) {
      forall i | 0 <= i < |events| ensures Harmless(states[i], events[i]) {
        assert Happens(states[i], events[i], states[i + 1]);
        StepIsSoundExactly(states[i], events[i], states[i + 1]);
      }
    }
  }

  // ----- a book inside another book's directory

  const EMPTY := State(Rows(map[], [], {}, map[]), Disk({[]}, map[]))

  /** A book whose author's name comes to "." stands at the top of the library... */
  const OUTER := NewBook("T", [], i => "T (1)", "T - .", "outer", 1, "", "opf", [])

  /** ...and one by an author of that very name inside it. */
  const INNER := NewBook("U", ["T (1)"], i => "U (2)", "U - T (1)", "inner", 1, "", "opf", [])

  const OUTER_ONLY := State(
    Rows(map[1 := BookRow("T", ["T (1)"])], [DataRow(1, "EPUB", 1, "T - .")], {}, map[]),
    Disk({[], ["T (1)"]}, Published(map[], OUTER, ["T (1)"])))

  const BOTH := State(
    Rows(map[1 := BookRow("T", ["T (1)"]), 2 := BookRow("U", ["T (1)", "U (2)"])],
         [DataRow(1, "EPUB", 1, "T - ."), DataRow(2, "EPUB", 1, "U - T (1)")], {}, map[]),
    Disk({[], ["T (1)"], ["T (1)", "U (2)"]}, Published(OUTER_ONLY.disk.files, INNER, ["T (1)", "U (2)"])))

  lemma TitlesAreTrimmed()
    ensures Text.TrimSpace("T") == "T" && Text.TrimSpace("U") == "U"
  {
    assert !Text.IsSpace('T') && !Text.IsSpace('U');
    assert "T"[0] == 'T' && "U"[0] == 'U';
  }

  lemma NothingLinked(a: Rows, b: Rows, id: int)
    requires b.names == a.names && b.links == a.links
    ensures Linked(a, b, id, [], 0)
  {
    assert SharedNames([], 0) == {} && Keys(id, [], 0) == {};
  }

  lemma InnerIsFree()
    ensures !Taken(OUTER_ONLY.disk, ["T (1)", "U (2)"])
  {
    assert Name(["T (1)", "U (2)"])[0] == 'U';
    assert Name(["T (1)"] + [OUTER.name + ".epub"])[0] == 'T' && Name(["T (1)"] + [OPF_NAME])[0] == 'm';
  }

  lemma BothAreAdded()
    ensures Added(EMPTY, OUTER_ONLY, OUTER, 1) && Added(OUTER_ONLY, BOTH, INNER, 2)
  {
    TitlesAreTrimmed();
    assert DirOf(OUTER, 1) == ["T (1)"] && DirOf(INNER, 2) == ["T (1)", "U (2)"];
    InnerIsFree();
    NothingLinked(EMPTY.rows, OUTER_ONLY.rows, 1);
    NothingLinked(OUTER_ONLY.rows, BOTH.rows, 2);
  }

  /** Both are added to an empty library, and deleting the outer takes the inner's file while its row stays. */
  lemma NestedBooksAreLost(faults: Faults)
    requires Smooth(faults)
    ensures Added(EMPTY, OUTER_ONLY, OUTER, 1) && Added(OUTER_ONLY, BOTH, INNER, 2)
            && !Clear(OUTER_ONLY.rows, INNER.author)
    ensures var b, row := AfterDeletion(BOTH, 1, faults, {}), DataRow(2, "EPUB", 1, "U - T (1)");
            && Deleted(BOTH, b, 1) && row in b.rows.data && 2 in b.rows.books
            && FileOf(BOTH.rows.books[2], row) in BOTH.disk.files && FileOf(b.rows.books[2], row) !in b.disk.files
  {
    BothAreAdded();
    var row := DataRow(2, "EPUB", 1, "U - T (1)");
    OthersStay(BOTH.rows.data, 1, row);
    assert Lower("EPUB") == "epub" && "U - T (1)" + "." + "epub" == "U - T (1)" + ".epub";
    var f := FileOf(BOTH.rows.books[2], row);
    assert f[..1] == ["T (1)"];
    CutAway(BOTH.disk, ["T (1)"], {}, f);
    assert ["T (1)"] != f;
  }
}
