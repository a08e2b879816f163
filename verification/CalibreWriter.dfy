/** Writing to a Calibre library (internal/calibre/writer.go): rows in one transaction and files beside it, either of
  which may fail at any step.
*/
module CalibreWriter {
  import opened Wrappers
  import opened Library
  import Text

  /** Every step that can fail. */
  datatype Step =
    | Begin | Commit
    | InsertBook | SetPath | InsertFormat | InsertRelation(i: nat)
    | MakeAuthor | MakeBook | Open(file: nat) | Write(file: nat)
    | ReadBook | ReadFormats | ReadName | StatDir | DeleteRow | RemoveDir

  /** How a step goes wrong; `left` is what a broken-off write leaves in the file. `SaysExists` is an error that
      `errors.Is` takes for `os.ErrExist`, wherever it came from. */
  datatype Fault = Fine | Fails(left: string) | SaysExists(left: string)

  type Faults = Step -> Fault

  datatype Error = NoTitle | InvalidFormat | NoSuchBook | FormatExists | Failed

  /** One value hanging off a book; `shared` ones also have a row in a lookup table, `overwrites` is INSERT OR
      REPLACE. */
  datatype Relation = Relation(table: string, key: string, value: string, shared: bool, overwrites: bool)

  /** A publication to add, its names already made safe: the author's directory (empty when the name comes to "."),
      the book's directory for an id, the name of its files, and its relations in the order they are written. */
  datatype NewBook = NewBook(
    title: string, author: Path, folder: int -> string, name: string, publication: string, size: int,
    cover: string, opf: string, relations: seq<Relation>)

  datatype Entry = Entry(id: int, file: Path)

  // ----- what a successful call contributes

  /** `links` of the first n relations of a new book, and nothing else, came on top of `before`. */
  ghost predicate Linked(before: Rows, after: Rows, id: int, rels: seq<Relation>, n: nat)
    requires n <= |rels|
  {
    && after.names == before.names + SharedNames(rels, n)
    && after.links.Keys == before.links.Keys + Keys(id, rels, n)
    && OthersHold(before.links, after.links, id) && LastOnesHold(after.links, id, rels, n)
  }

  ghost predicate OthersHold(before: map<LinkKey, string>, after: map<LinkKey, string>, id: int) {
    forall key <- before :: key.book != id ==> key in after && after[key] == before[key]
  }

  /** The rows of the first n relations hold what the last of each said. */
  ghost predicate LastOnesHold(links: map<LinkKey, string>, id: int, rels: seq<Relation>, n: nat)
    requires n <= |rels|
  {
    forall k | 0 <= k < n && LastOfItsKey(rels, n, k) :: Holds(links, id, rels[k])
  }

  predicate Holds(links: map<LinkKey, string>, id: int, r: Relation) {
    KeyOf(id, r) in links && links[KeyOf(id, r)] == r.value
  }

  predicate SameRow(r: Relation, q: Relation) { r.table == q.table && r.key == q.key }

  function KeyOf(id: int, r: Relation): LinkKey { LinkKey(id, r.table, r.key) }

  function SharedNameOf(r: Relation): set<(string, string)> { if r.shared then {(r.table, r.key)} else {} }

  /** The lookup rows the first n relations need. */
  function SharedNames(rels: seq<Relation>, n: nat): set<(string, string)>
    requires n <= |rels|
  {
    if n == 0 then {} else SharedNames(rels, n - 1) + SharedNameOf(rels[n - 1])
  }

  /** The rows of the first n relations. */
  function Keys(id: int, rels: seq<Relation>, n: nat): set<LinkKey>
    requires n <= |rels|
  {
    if n == 0 then {} else Keys(id, rels, n - 1) + {KeyOf(id, rels[n - 1])}
  }

  /** No later relation, of the first n, writes the same row. */
  ghost predicate LastOfItsKey(rels: seq<Relation>, n: nat, k: nat)
    requires k < n <= |rels|
  {
    forall j | k < j < n :: !SameRow(rels[j], rels[k])
  }

  function DirOf(book: NewBook, id: int): Path { book.author + [book.folder(id)] }

  /** The rows of one new book, under an id that was free. */
  ghost predicate RowsAdded(before: Rows, after: Rows, id: int, title: string, book: NewBook) {
    && id !in before.books
    && after.books == before.books[id := BookRow(title, DirOf(book, id))]
    && after.data == before.data + [DataRow(id, "EPUB", book.size, book.name)]
    && Linked(before, after, id, book.relations, |book.relations|)
  }

  /** The files of one new book, on top of others. */
  function Published(files: map<Path, string>, book: NewBook, dir: Path): map<Path, string> {
    var m := files[dir + [book.name + ".epub"] := book.publication];
    var m' := if book.cover != "" then m[dir + [COVER_NAME] := book.cover] else m;
    m'[dir + [OPF_NAME] := book.opf]
  }

  /** The author's directory where there was none. */
  function WithAuthor(d: Disk, author: Path): Disk { if Taken(d, author) then d else Mkdir(d, author) }

  ghost predicate FilesAdded(before: Disk, after: Disk, book: NewBook, dir: Path) {
    && !Taken(before, dir)
    && after.dirs == WithAuthor(before, book.author).dirs + {dir}
    && after.files == Published(before.files, book, dir)
  }

  ghost predicate Added(a: State, b: State, book: NewBook, id: int) {
    && RowsAdded(a.rows, b.rows, id, Text.TrimSpace(book.title), book)
    && FilesAdded(a.disk, b.disk, book, DirOf(book, id))
  }

  ghost predicate Smooth(faults: Faults) { forall s :: faults(s).Fine? }

  /** Every relation finds its row free, or overwrites it. */
  ghost predicate Unlinked(rows: Rows, id: int, rels: seq<Relation>) {
    forall i | 0 <= i < |rels| && !rels[i].overwrites ::
      KeyOf(id, rels[i]) !in rows.links && forall j | 0 <= j < i :: !SameRow(rels[j], rels[i])
  }

  predicate Welcome(d: Disk, author: Path, dir: Path) {
    (author in d.dirs || Free(d, author)) && !Taken(d, dir) && ".." !in dir
  }

  /** Nothing is in the way of the new book: a title, a place for its directory, and every step works. */
  ghost predicate Unhindered(s: State, book: NewBook, faults: Faults) {
    && Text.TrimSpace(book.title) != "" && Smooth(faults)
    && forall id | id !in s.rows.books :: Welcome(s.disk, book.author, DirOf(book, id))
         && Unlinked(s.rows, id, book.relations)
  }

  // ----- what a new format contributes

  predicate BadName(s: string) { s == "" || '/' in s || '\\' in s }

  predicate BadFormat(s: string) { BadName(s) || '.' in s }

  /** The format in Calibre's spelling. */
  function Spelled(format: string): string { Upper(Text.TrimSpace(format)) }

  predicate HasFormat(rows: Rows, id: int, format: string) {
    exists d <- rows.data :: d.book == id && d.format == format
  }

  /** The first of the book's rows, in the order they were inserted; of the EPUB ones only, if asked. */
  function FirstRow(data: seq<DataRow>, id: int, epub: bool): Option<DataRow> {
    if data == [] then None
    else if data[0].book == id && (!epub || data[0].format == "EPUB") then Some(data[0])
    else FirstRow(data[1..], id, epub)
  }

  /** The name the book's formats share: that of its EPUB, else of its oldest format, else one made from the title. */
  function SharedName(rows: Rows, id: int, safe: string -> string): string
    requires id in rows.books
  {
    if FirstRow(rows.data, id, true).Some? then FirstRow(rows.data, id, true).value.name
    else if FirstRow(rows.data, id, false).Some? then FirstRow(rows.data, id, false).value.name
    else safe(rows.books[id].title)
  }

  /** Paths that never name a book's directory. */
  predicate Refused(dir: Path) { dir == [] || dir[0] == ".." }

  /** Nothing stops the call before it comes to create the file. */
  predicate ReachesFile(s: State, id: int, format: string, safe: string -> string, faults: Faults) {
    && !BadFormat(format)
    && faults(Begin).Fine? && faults(ReadBook).Fine? && faults(ReadFormats).Fine? && faults(ReadName).Fine?
    && faults(StatDir).Fine? && faults(InsertFormat).Fine?
    && id in s.rows.books && !HasFormat(s.rows, id, format) && !BadName(SharedName(s.rows, id, safe))
    && !Refused(s.rows.books[id].path) && s.rows.books[id].path in s.disk.dirs
  }

  /** The call comes to look at the book's formats, and the format is one of them. */
  predicate FindsFormat(s: State, id: int, format: string, faults: Faults) {
    && !BadFormat(format) && faults(Begin).Fine? && faults(ReadBook).Fine? && faults(ReadFormats).Fine?
    && id in s.rows.books && HasFormat(s.rows, id, format)
  }

  /** The call comes to create the file, and meets one there, or an error that says so. */
  predicate FindsFile(s: State, id: int, format: string, size: int, safe: string -> string, faults: Faults) {
    && ReachesFile(s, id, format, safe, faults)
    && var p := FileOf(s.rows.books[id], NewRow(s, id, format, size, safe));
       || faults(Open(0)).SaysExists?
       || (faults(Open(0)).Fine? && ".." !in p && Taken(s.disk, p))
  }

  function NewRow(s: State, id: int, format: string, size: int, safe: string -> string): DataRow
    requires id in s.rows.books
  {
    DataRow(id, format, size, SharedName(s.rows, id, safe))
  }

  /** The call creates its file, the copy into it fails, and the failure passes for a file that was already there. */
  predicate LeavesFile(s: State, id: int, format: string, size: int, safe: string -> string, faults: Faults) {
    && ReachesFile(s, id, format, safe, faults)
    && var p := FileOf(s.rows.books[id], NewRow(s, id, format, size, safe));
       Free(s.disk, p) && ".." !in p && faults(Open(0)).Fine? && faults(Write(0)).SaysExists?
  }

  predicate WritesFile(s: State, id: int, format: string, size: int, safe: string -> string, faults: Faults)
    requires id in s.rows.books
  {
    && var p := FileOf(s.rows.books[id], NewRow(s, id, format, size, safe));
       Free(s.disk, p) && ".." !in p && faults(Open(0)).Fine? && faults(Write(0)).Fine? && faults(Commit).Fine?
  }

  ghost predicate FormatAdded(a: State, b: State, row: DataRow, content: string) {
    && row.book in a.rows.books && !HasFormat(a.rows, row.book, row.format)
    && !Taken(a.disk, FileOf(a.rows.books[row.book], row))
    && b.rows == a.rows.(data := a.rows.data + [row])
    && b.disk == Put(a.disk, FileOf(a.rows.books[row.book], row), content)
  }

  ghost predicate FileLeft(a: State, b: State, p: Path, left: string) {
    b.rows == a.rows && !Taken(a.disk, p) && b.disk == Put(a.disk, p, left)
  }

  // ----- what a deletion takes away

  function WithoutBook(data: seq<DataRow>, id: int): seq<DataRow> {
    if data == [] then []
    else
      var n := |data| - 1;
      WithoutBook(data[..n], id) + if data[n].book == id then [] else [data[n]]
  }

  /** The row and, by the schema's own trigger, all that hangs off it; shared names stay. */
  function RowsDeleted(rows: Rows, id: int): Rows {
    Rows(rows.books - {id}, WithoutBook(rows.data, id), rows.names,
         map k | k in rows.links && k.book != id :: rows.links[k])
  }

  /** The book's directory, and the author's when that left it empty. */
  function TreeDeleted(d: Disk, dir: Path): Disk
    requires dir != []
  {
    if !Taken(d, dir) then d
    else if Parent(dir) == [] then Cut(d, dir, {})
    else RemoveEmpty(Cut(d, dir, {}), Parent(dir))
  }

  ghost predicate Deleted(a: State, b: State, id: int) {
    && id in a.rows.books && !Refused(a.rows.books[id].path) && a.rows.books[id].path !in a.disk.files
    && b.rows == RowsDeleted(a.rows, id)
    && b.disk == TreeDeleted(a.disk, a.rows.books[id].path)
  }

  /** Nothing stops the call before it comes to remove the files. */
  predicate ReachesRemoval(s: State, id: int, faults: Faults) {
    && faults(Begin).Fine? && faults(ReadBook).Fine? && id in s.rows.books && faults(DeleteRow).Fine?
    && !Refused(s.rows.books[id].path) && faults(StatDir).Fine? && s.rows.books[id].path !in s.disk.files
  }

  /** All of it is removed, or there was nothing to remove. */
  predicate RemovesAll(s: State, id: int, faults: Faults)
    requires id in s.rows.books
  {
    s.rows.books[id].path in s.disk.dirs ==> faults(RemoveDir).Fine?
  }

  /** What a deletion leaves, whichever step fails; a removal that breaks off spares `keep`. */
  function AfterDeletion(s: State, id: int, faults: Faults, keep: set<Path>): State {
    if !ReachesRemoval(s, id, faults) then s
    else
      var dir := s.rows.books[id].path;
      if !RemovesAll(s, id, faults) then State(s.rows, Cut(s.disk, dir, keep))
      else State(if faults(Commit).Fine? then RowsDeleted(s.rows, id) else s.rows, TreeDeleted(s.disk, dir))
  }

  /** The kept rows are those of other books, in their order: the j-th of them was row number at[j]. */
  ghost predicate OthersKept(data: seq<DataRow>, kept: seq<DataRow>, id: int, at: seq<nat>) {
    && |at| == |kept|
    && (forall j | 0 <= j < |at| :: at[j] < |data| && kept[j] == data[at[j]])
    && (forall i, j | 0 <= i < j < |at| :: at[i] < at[j])
    && (forall i | 0 <= i < |data| :: data[i].book != id <==> i in at)
  }

  /** The row of the book is gone with its formats and every link of it, and nothing else is. */
  ghost predicate OnlyBookGone(before: Rows, after: Rows, id: int) {
    && after.books == before.books - {id} && after.names == before.names
    && (forall key :: key in after.links <==> key in before.links && key.book != id)
    && (forall key | key in after.links :: after.links[key] == before.links[key])
    && exists at :: OthersKept(before.data, after.data, id, at)
  }

  lemma OneMoreRow(data: seq<DataRow>, kept: seq<DataRow>, id: int, at: seq<nat>, n: nat)
    requires n < |data| && OthersKept(data[..n], kept, id, at)
    ensures data[n].book == id ==> OthersKept(data[..n + 1], kept, id, at)
    ensures data[n].book != id ==> OthersKept(data[..n + 1], kept + [data[n]], id, at + [n])
  {
    var front, more := data[..n], at + [n];
    forall i | 0 <= i < n + 1 && data[n].book != id ensures data[..n + 1][i].book != id <==> i in more {
      if i < n { assert front[i] == data[i] && (i in more <==> i in at); }
    }
    forall i | 0 <= i < n + 1 && data[n].book == id ensures data[..n + 1][i].book != id <==> i in at {
      if i < n { assert front[i] == data[i]; } else { assert forall j | 0 <= j < |at| :: at[j] < n; }
    }
  }

  lemma {:induction false} RowsKept(data: seq<DataRow>, id: int) returns (at: seq<nat>)
    ensures OthersKept(data, WithoutBook(data, id), id, at)
  {
    at := [];
    if data != [] {
      var n := |data| - 1;
      at := RowsKept(data[..n], id);
      OneMoreRow(data, WithoutBook(data[..n], id), id, at, n);
      assert data[..n + 1] == data;
      if data[n].book != id { at := at + [n]; }
    }
  }

  lemma RowsDeletedIs(rows: Rows, id: int)
    ensures OnlyBookGone(rows, RowsDeleted(rows, id), id)
  {
    var at := RowsKept(rows.data, id);
  }

  /** The book's directory is all that its author's holds. */
  ghost predicate Alone(d: Disk, dir: Path) {
    && |dir| > 1 && dir in d.dirs
    && forall p: Path | Taken(d, p) && |p| == |dir| && p[..|dir| - 1] == dir[..|dir| - 1] :: p == dir
  }

  /** What was at or below the directory is gone, and the author's directory if it held nothing else; the rest stays. */
  ghost predicate OnlyTreeGone(before: Disk, after: Disk, dir: Path) {
    && (forall p :: p in after.dirs <==>
          p in before.dirs && !(dir <= p) && !(Alone(before, dir) && p == dir[..|dir| - 1]))
    && (forall f :: f in after.files <==> f in before.files && !(dir <= f))
    && (forall f | f in after.files :: after.files[f] == before.files[f])
  }

  lemma WholeTree(dir: Path, p: Path)
    ensures Spared(dir, p, {}) <==> !(dir <= p)
  {
    if dir <= p { assert !Kept(p, |dir|, {}); }
  }

  lemma CutIs(d: Disk, dir: Path, p: Path)
    ensures p in Cut(d, dir, {}).dirs <==> p in d.dirs && !(dir <= p)
    ensures p in Cut(d, dir, {}).files <==> p in d.files && !(dir <= p)
  {
    WholeTree(dir, p);
  }

  lemma AloneIs(d: Disk, dir: Path)
    requires Tree(d) && |dir| > 1 && dir in d.dirs
    ensures Childless(Cut(d, dir, {}), Parent(dir)) <==> Alone(d, dir)
  {
    var c := Cut(d, dir, {});
    forall p: Path | p != [] && Parent(p) == Parent(dir) ensures Taken(c, p) <==> Taken(d, p) && p != dir {
      CutIs(d, dir, p);
      assert dir <= p ==> p == dir;
    }
    if !Alone(d, dir) {
      var p: Path :| Taken(d, p) && |p| == |dir| && p[..|dir| - 1] == dir[..|dir| - 1] && p != dir;
      assert Parent(p) == Parent(dir);
    }
  }

  lemma TreeDeletedIs(d: Disk, dir: Path)
    requires Tree(d) && dir != [] && dir !in d.files
    ensures OnlyTreeGone(d, TreeDeleted(d, dir), dir)
  {
    if dir in d.dirs {
      if |dir| > 1 {
        AloneIs(d, dir);
        assert !(dir <= Parent(dir)) && Parent(dir) in d.dirs;
        CutIs(d, dir, Parent(dir));
      }
      forall p ensures p in Cut(d, dir, {}).dirs <==> p in d.dirs && !(dir <= p) { CutIs(d, dir, p); }
      forall p ensures p in Cut(d, dir, {}).files <==> p in d.files && !(dir <= p) { CutIs(d, dir, p); }
    } else {
      forall p: Path ensures p in d.dirs ==> !(dir <= p) { if dir <= p && p != dir { NothingBelow(d, dir, p); } }
      forall f: Path ensures f in d.files ==> !(dir <= f) { if dir <= f && f != dir { NothingBelow(d, dir, f); } }
    }
  }

  /** The rows stay although the directory is taken away, or part of it. */
  ghost predicate Emptied(a: State, b: State, id: int, keep: set<Path>, part: bool) {
    && id in a.rows.books && !Refused(a.rows.books[id].path) && a.rows.books[id].path !in a.disk.files
    && b.rows == a.rows
    && b.disk == if part then Cut(a.disk, a.rows.books[id].path, keep) else TreeDeleted(a.disk, a.rows.books[id].path)
  }

  ghost predicate Empty(d: Disk, dir: Path) { forall name :: !Taken(d, dir + [name]) }

  datatype Made = Made(author: bool, book: bool)

  datatype Outcome = Done | Exists | NotDone

  class Writer {
    var rows: Rows
    var disk: Disk

    ghost function Now(): State reads this { State(rows, disk) }

    constructor (rows: Rows, disk: Disk)
      requires Tree(disk)
      ensures Now() == State(rows, disk)
    {
      this.rows, this.disk := rows, disk;
    }

    // ----- one directory, one file

    method MakeDir(p: Path, fault: Fault) returns (o: Outcome)
      requires Tree(disk)
      modifies this`disk
      ensures Tree(disk)
      ensures o.Done? <==> fault.Fine? && Free(old(disk), p) && ".." !in p
      ensures disk == if o.Done? then Mkdir(old(disk), p) else old(disk)
      ensures o.Exists? <==> fault.SaysExists? || (fault.Fine? && ".." !in p && (p == [] || Taken(old(disk), p)))
    {
      if fault.SaysExists? { return Exists; }
      if fault.Fails? || ".." in p { return NotDone; }
      if p == [] || Taken(disk, p) { return Exists; }
      if Parent(p) !in disk.dirs { return NotDone; }
      disk := Mkdir(disk, p);
      return Done;
    }

    /** `create`: a file that was not there. */
    method Create(p: Path, content: string, open: Fault, write: Fault) returns (o: Outcome, made: bool)
      requires Tree(disk) && p != []
      modifies this`disk
      ensures Tree(disk)
      ensures made <==> open.Fine? && ".." !in p && Free(old(disk), p)
      ensures o.Done? <==> made && write.Fine?
      ensures o.Exists? <==> if made then write.SaysExists?
                             else open.SaysExists? || (open.Fine? && ".." !in p && Taken(old(disk), p))
      ensures disk == if !made then old(disk) else Put(old(disk), p, if write.Fine? then content else write.left)
    {
      made := false;
      if open.SaysExists? { return Exists, false; }
      if open.Fails? || ".." in p { return NotDone, false; }
      if Taken(disk, p) { return Exists, false; }
      if Parent(p) !in disk.dirs { return NotDone, false; }
      made := true;
      if write.Fine? {
        disk := Put(disk, p, content);
        return Done, true;
      }
      disk := Put(disk, p, write.left);
      return if write.SaysExists? then Exists else NotDone, true;
    }

    // ----- AddBook

    /** `insertRelations` and the author links before it. */
    method InsertRelations(tx: Rows, id: int, rels: seq<Relation>, faults: Faults) returns (ok: bool, tx': Rows)
      ensures ok ==> tx'.books == tx.books && tx'.data == tx.data && Linked(tx, tx', id, rels, |rels|)
      ensures Smooth(faults) && Unlinked(tx, id, rels) ==> ok
    {
      tx' := tx;
      for i := 0 to |rels|
        invariant tx'.books == tx.books && tx'.data == tx.data
        invariant Linked(tx, tx', id, rels, i)
      {
        var r := rels[i];
        var key := KeyOf(id, r);
        KeysOfRelations(id, rels, i, r);
        if !faults(InsertRelation(i)).Fine? || (key in tx'.links && !r.overwrites) { return false, tx; }
        ghost var was := tx';
        tx' := Rows(tx'.books, tx'.data, tx'.names + SharedNameOf(r),
                    tx'.links[key := r.value]);
        LinkedMore(tx, was, tx', id, rels, i);
      }
      ok := true;
    }

    /** `insert`: every row of the new book, in the transaction only. */
    method Insert(title: string, book: NewBook, faults: Faults) returns (ok: bool, id: int, tx: Rows)
      ensures ok ==> RowsAdded(rows, tx, id, title, book)
      ensures Smooth(faults) && (forall id | id !in rows.books :: Unlinked(rows, id, book.relations)) ==> ok
    {
      tx, id := rows, 0;
      if !faults(InsertBook).Fine? { return false, 0, tx; }
      id := NewId(rows.books.Keys);
      tx := tx.(books := tx.books[id := BookRow(title, [])]);
      if !faults(SetPath).Fine? { return false, id, tx; }
      tx := tx.(books := tx.books[id := BookRow(title, DirOf(book, id))]);
      if !faults(InsertFormat).Fine? { return false, id, tx; }
      tx := tx.(data := tx.data + [DataRow(id, "EPUB", book.size, book.name)]);
      ok, tx := InsertRelations(tx, id, book.relations, faults);
    }

    /** `writeFiles`, as far as it gets. */
    method WriteFiles(book: NewBook, dir: Path, faults: Faults) returns (ok: bool, made: Made)
      requires Tree(disk) && dir != [] && Parent(dir) == book.author
      modifies this`disk
      ensures Tree(disk)
      ensures made.author ==> Free(old(disk), book.author)
      ensures var d := if made.author then Mkdir(old(disk), book.author) else old(disk);
              && (!made.book ==> !ok && disk == d)
              && (made.book ==> Free(d, dir) && SameOutside(d, disk, dir))
      ensures ok ==> made.book && FilesAdded(old(disk), disk, book, dir)
      ensures Smooth(faults) && Welcome(old(disk), book.author, dir) ==> ok
    {
      made := Made(false, false);
      assert dir == book.author + [Name(dir)];
      var o := MakeDir(book.author, faults(MakeAuthor));
      if o.NotDone? { return false, made; }
      made := Made(o.Done?, false);
      FreshIsEmpty(disk, dir);
      o := MakeDir(dir, faults(MakeBook));
      if !o.Done? { return false, made; }
      made := Made(made.author, true);
      ok := WriteContents(book, dir, faults);
    }

    /** One file in a directory of ours. */
    method CreateIn(dir: Path, name: string, content: string, file: nat, faults: Faults) returns (ok: bool)
      requires Tree(disk)
      modifies this`disk
      ensures Tree(disk) && disk.dirs == old(disk).dirs && SameOutside(old(disk), disk, dir)
      ensures ok ==> disk.files == old(disk).files[dir + [name] := content]
      ensures Smooth(faults) && ".." !in dir && name != ".." && dir in disk.dirs && !Taken(old(disk), dir + [name]) ==>
                ok
    {
      assert Within(dir, dir + [name]);
      var o, made := Create(dir + [name], content, faults(Open(file)), faults(Write(file)));
      return o.Done?;
    }

    /** The publication, the cover if there is one, and the OPF, into a directory just made. */
    method WriteContents(book: NewBook, dir: Path, faults: Faults) returns (ok: bool)
      requires Tree(disk)
      modifies this`disk
      ensures Tree(disk) && disk.dirs == old(disk).dirs && SameOutside(old(disk), disk, dir)
      ensures ok ==> disk.files == Published(old(disk).files, book, dir)
      ensures Smooth(faults) && ".." !in dir && dir in disk.dirs && Empty(old(disk), dir) ==> ok
    {
      ghost var d0 := disk;
      ThreeNames(dir, book.name);
      ok := CreateIn(dir, book.name + ".epub", book.publication, 0, faults);
      if !ok { return; }
      ghost var d1 := disk;
      if book.cover != "" {
        ok := CreateIn(dir, COVER_NAME, book.cover, 1, faults);
        SameOutsideTransitive(d0, d1, disk, dir);
        if !ok { return; }
      }
      ghost var d2 := disk;
      ok := CreateIn(dir, OPF_NAME, book.opf, 2, faults);
      SameOutsideTransitive(d0, d2, disk, dir);
    }

    /** `remove`: the undoing of `writeFiles`, assumed to work. */
    method Remove(made: Made, author: Path, dir: Path)
      modifies this`disk
      ensures disk == (var d := if made.book then Cut(old(disk), dir, {}) else old(disk);
                       if made.author then RemoveEmpty(d, author) else d)
    {
      if made.book { disk := Cut(disk, dir, {}); }
      if made.author { disk := RemoveEmpty(disk, author); }
    }

    /** `AddBook`: all of it or nothing. */
    method AddBook(book: NewBook, faults: Faults) returns (r: Result<Entry, Error>)
      requires Tree(disk)
      modifies this
      ensures Tree(disk)
      ensures r.Err? ==> Now() == old(Now())
      ensures r.Ok? ==> Added(old(Now()), Now(), book, r.value.id)
      ensures r.Ok? ==> r.value.file == DirOf(book, r.value.id) + [book.name + ".epub"]
      ensures r == Err(NoTitle) <==> Text.TrimSpace(book.title) == ""
      ensures r.Err? ==> r.error == NoTitle || r.error == Failed
      ensures Unhindered(old(Now()), book, faults) ==> r.Ok?
    {
      var title := Text.TrimSpace(book.title);
      if title == "" { return Err(NoTitle); }
      if !faults(Begin).Fine? { return Err(Failed); }
      var ok, id, tx := Insert(title, book, faults);
      if !ok { return Err(Failed); }
      var dir := DirOf(book, id);
      var wrote, made := WriteFiles(book, dir, faults);
      if !wrote || !faults(Commit).Fine? {
        Undone(old(disk), disk, made, book.author, dir);
        Remove(made, book.author, dir);
        return Err(Failed);
      }
      rows := tx;
      return Ok(Entry(id, dir + [book.name + ".epub"]));
    }

    // ----- AddFormat

    /** The checks of `AddFormat` up to the directory. */
    method CheckFormat(id: int, format: string, safe: string -> string, faults: Faults)
      returns (r: Option<Error>, name: string)
      ensures r.None? ==> id in rows.books && name == SharedName(rows, id, safe)
      ensures r.None? && faults(InsertFormat).Fine? <==> ReachesFile(Now(), id, format, safe, faults)
      ensures r != Some(NoTitle) && (r == Some(InvalidFormat) <==> BadFormat(format))
      ensures r == Some(NoSuchBook) <==>
                !BadFormat(format) && faults(Begin).Fine? && faults(ReadBook).Fine? && id !in rows.books
      ensures r == Some(FormatExists) <==> FindsFormat(Now(), id, format, faults)
    {
      name := "";
      if BadFormat(format) { return Some(InvalidFormat), name; }
      if !faults(Begin).Fine? || !faults(ReadBook).Fine? { return Some(Failed), name; }
      if id !in rows.books { return Some(NoSuchBook), name; }
      if !faults(ReadFormats).Fine? { return Some(Failed), name; }
      if HasFormat(rows, id, format) { return Some(FormatExists), name; }
      if !faults(ReadName).Fine? { return Some(Failed), name; }
      name := SharedName(rows, id, safe);
      if BadName(name) { return Some(Failed), name; }
      var dir := rows.books[id].path;
      if Refused(dir) || !faults(StatDir).Fine? || dir !in disk.dirs { return Some(Failed), name; }
      return None, name;
    }

    /** `AddFormat`: all of it or nothing, unless the copy fails with an error that says the file exists. */
    method AddFormat(id: int, given: string, content: string, size: int, safe: string -> string, faults: Faults)
      returns (r: Result<Path, Error>)
      requires Tree(disk)
      modifies this
      ensures Tree(disk)
      ensures r.Ok? ==> id in old(rows.books) && var row := NewRow(old(Now()), id, Spelled(given), size, safe);
                        FormatAdded(old(Now()), Now(), row, content) && r.value == FileOf(old(rows.books)[id], row)
      ensures LeavesFile(old(Now()), id, Spelled(given), size, safe, faults) ==>
                r == Err(FormatExists) &&
                FileLeft(old(Now()), Now(),
                  FileOf(old(rows.books)[id], NewRow(old(Now()), id, Spelled(given), size, safe)),
                         faults(Write(0)).left)
      ensures r.Ok? <==> ReachesFile(old(Now()), id, Spelled(given), safe, faults)
                         && WritesFile(old(Now()), id, Spelled(given), size, safe, faults)
      ensures r.Err? && !LeavesFile(old(Now()), id, Spelled(given), size, safe, faults) ==> Now() == old(Now())
      ensures r == Err(InvalidFormat) <==> BadFormat(Spelled(given))
      ensures r == Err(NoSuchBook) <==>
                !BadFormat(Spelled(given)) && faults(Begin).Fine? && faults(ReadBook).Fine? && id !in old(rows.books)
      ensures r == Err(FormatExists) <==>
                || FindsFormat(old(Now()), id, Spelled(given), faults)
                || FindsFile(old(Now()), id, Spelled(given), size, safe, faults)
                || LeavesFile(old(Now()), id, Spelled(given), size, safe, faults)
      ensures r.Err? ==> r.error != NoTitle
    {
      var format := Spelled(given);
      var refused, name := CheckFormat(id, format, safe, faults);
      if refused.Some? { return Err(refused.value); }
      if !faults(InsertFormat).Fine? { return Err(Failed); }
      var row := DataRow(id, format, size, name);
      var tx := rows.(data := rows.data + [row]);
      var file := FileOf(rows.books[id], row);
      var o, created := Create(file, content, faults(Open(0)), faults(Write(0)));
      if !o.Done? {
        if o.Exists? { return Err(FormatExists); }
        if created {
          PutUndone(old(disk), file, faults(Write(0)).left);
          disk := Unlink(disk, file);
        }
        return Err(Failed);
      }
      if !faults(Commit).Fine? {
        PutUndone(old(disk), file, content);
        disk := Unlink(disk, file);
        return Err(Failed);
      }
      rows := tx;
      return Ok(file);
    }

    // ----- DeleteBook

    /** `removeBookDir`; a removal that breaks off spares `keep`. */
    method RemoveBookDir(dir: Path, faults: Faults, keep: set<Path>) returns (ok: bool)
      requires Tree(disk)
      modifies this`disk
      ensures Tree(disk)
      ensures ok <==> !Refused(dir) && dir !in old(disk).files && faults(StatDir).Fine?
                      && (dir in old(disk).dirs ==> faults(RemoveDir).Fine?)
      ensures ok ==> disk == TreeDeleted(old(disk), dir)
      ensures !ok ==>
                disk == if !Refused(dir) && dir in old(disk).dirs && faults(StatDir).Fine?
                        then Cut(old(disk), dir, keep) else old(disk)
    {
      if Refused(dir) || !faults(StatDir).Fine? { return false; }
      if !Taken(disk, dir) { return true; }
      if dir !in disk.dirs { return false; }
      CutKeepsTree(disk, dir, keep);
      CutKeepsTree(disk, dir, {});
      if !faults(RemoveDir).Fine? {
        disk := Cut(disk, dir, keep);
        return false;
      }
      disk := Cut(disk, dir, {});
      if Parent(dir) != [] {
        RemoveEmptyKeepsTree(disk, Parent(dir));
        disk := RemoveEmpty(disk, Parent(dir));
      }
      return true;
    }

    /** `DeleteBook`: files before the commit, so a failing removal or a failing commit leaves a trace. */
    method DeleteBook(id: int, faults: Faults, keep: set<Path>) returns (r: Result<(), Error>)
      requires Tree(disk)
      modifies this
      ensures Tree(disk) && Now() == AfterDeletion(old(Now()), id, faults, keep)
      ensures r.Ok? <==> ReachesRemoval(old(Now()), id, faults) && RemovesAll(old(Now()), id, faults)
                         && faults(Commit).Fine?
      ensures r == Err(NoSuchBook) <==> faults(Begin).Fine? && faults(ReadBook).Fine? && id !in old(rows.books)
      ensures r.Err? ==> r.error == NoSuchBook || r.error == Failed
      ensures r.Ok? ==> OnlyBookGone(old(rows), rows, id) && OnlyTreeGone(old(disk), disk, old(rows).books[id].path)
      ensures Smooth(faults) ==>
                (r.Ok? <==> id in old(rows.books) && var dir := old(rows.books)[id].path;
                            dir != [] && dir[0] != ".." && dir !in old(disk.files))
      ensures id in old(rows.books) && (old(rows.books)[id].path == [] || old(rows.books)[id].path[0] == "..") ==>
                r.Err? && Now() == old(Now())
    {
      if !faults(Begin).Fine? || !faults(ReadBook).Fine? { return Err(Failed); }
      if id !in rows.books { return Err(NoSuchBook); }
      var dir := rows.books[id].path;
      if !faults(DeleteRow).Fine? { return Err(Failed); }
      var tx := RowsDeleted(rows, id);
      var ok := RemoveBookDir(dir, faults, keep);
      if !ok { return Err(Failed); }
      if !faults(Commit).Fine? { return Err(Failed); }
      RowsDeletedIs(rows, id);
      TreeDeletedIs(old(disk), dir);
      rows := tx;
      return Ok(());
    }
  }

  lemma FreshIsEmpty(d: Disk, dir: Path)
    requires Tree(d)
    ensures !Taken(d, dir) ==> Empty(Mkdir(d, dir), dir)
  {
    if !Taken(d, dir) {
      forall name ensures !Taken(Mkdir(d, dir), dir + [name]) {
        NothingBelow(d, dir, dir + [name]);
      }
    }
  }

  /** The three files of a book never get in one another's way. */
  lemma ThreeNames(dir: Path, name: string)
    ensures dir + [name + ".epub"] != dir + [COVER_NAME] && dir + [name + ".epub"] != dir + [OPF_NAME]
    ensures dir + [COVER_NAME] != dir + [OPF_NAME] && name + ".epub" != ".."
  {
    var e := name + ".epub";
    assert e[|e| - 1] == 'b' && COVER_NAME[8] == 'g' && OPF_NAME[11] == 'f';
    assert (dir + [e])[|dir|] == e && (dir + [COVER_NAME])[|dir|] == COVER_NAME
           && (dir + [OPF_NAME])[|dir|] == OPF_NAME;
  }

  lemma PutUndone(d: Disk, p: Path, content: string)
    requires !Taken(d, p)
    ensures Unlink(Put(d, p, content), p) == d
  {
  }

  /** The id SQLite hands out: one no book has. */
  method NewId(taken: set<int>) returns (id: int)
    ensures id !in taken
  {
    IdExists(taken, 1);
    id :| id !in taken;
  }

  lemma {:induction false} IdExists(taken: set<int>, from: int)
    ensures exists id :: id !in taken && id >= from
    decreases taken
  {
    if from in taken {
      IdExists(taken - {from}, from + 1);
      var id :| id !in taken - {from} && id >= from + 1;
      assert id !in taken && id >= from;
    } else {
      assert from !in taken && from >= from;
    }
  }

  lemma OthersStillHold(before: map<LinkKey, string>, links: map<LinkKey, string>, key: LinkKey, value: string)
    requires OthersHold(before, links, key.book)
    ensures OthersHold(before, links[key := value], key.book)
  {
  }

  lemma LinkedMore(before: Rows, was: Rows, after: Rows, id: int, rels: seq<Relation>, i: nat)
    requires i < |rels| && Linked(before, was, id, rels, i)
    requires after.names == was.names + SharedNameOf(rels[i])
    requires after.links == was.links[KeyOf(id, rels[i]) := rels[i].value]
    ensures Linked(before, after, id, rels, i + 1)
  {
    OthersStillHold(before.links, was.links, KeyOf(id, rels[i]), rels[i].value);
    LastOnesStillHold(was.links, id, rels, i);
  }

  lemma {:induction false} KeysOfRelations(id: int, rels: seq<Relation>, n: nat, r: Relation)
    requires n <= |rels|
    ensures KeyOf(id, r) in Keys(id, rels, n) <==> exists j :: 0 <= j < n && SameRow(rels[j], r)
  {
    if n > 0 { KeysOfRelations(id, rels, n - 1, r); }
  }

  lemma LastOnesStillHold(links: map<LinkKey, string>, id: int, rels: seq<Relation>, i: nat)
    requires i < |rels| && LastOnesHold(links, id, rels, i)
    ensures LastOnesHold(links[KeyOf(id, rels[i]) := rels[i].value], id, rels, i + 1)
  {
    var more := links[KeyOf(id, rels[i]) := rels[i].value];
    forall k | 0 <= k < i + 1 && LastOfItsKey(rels, i + 1, k) ensures Holds(more, id, rels[k]) {
      if k < i {
        assert LastOfItsKey(rels, i, k) && !SameRow(rels[i], rels[k]);
        HoldsStill(links, id, rels[k], rels[i]);
      }
    }
  }

  lemma HoldsStill(links: map<LinkKey, string>, id: int, r: Relation, q: Relation)
    requires Holds(links, id, r) && !SameRow(q, r)
    ensures Holds(links[KeyOf(id, q) := q.value], id, r)
  {
  }

  /** Whatever `writeFiles` made, `remove` leaves the tree as it was before. */
  lemma Undone(a: Disk, b: Disk, made: Made, author: Path, dir: Path)
    requires Tree(a) && (made.author ==> Free(a, author))
    requires var d := if made.author then Mkdir(a, author) else a;
             if made.book then Free(d, dir) && SameOutside(d, b, dir) else b == d
    ensures var d := if made.book then Cut(b, dir, {}) else b;
            a == if made.author then RemoveEmpty(d, author) else d
  {
    var d := if made.author then Mkdir(a, author) else a;
    if made.author { RemoveRestores(a, author); }
    if made.book { CutRestores(d, b, dir); }
  }
}
