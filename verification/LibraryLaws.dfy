/** What adding a book or a format leaves in the library, row by row and file by file (internal/calibre/writer.go). */
module LibraryLaws {
  import opened Wrappers
  import opened Library
  import opened CalibreWriter
  import Text

  // ----- a new book's files

  /** The files of the book in `dir`: the publication, the cover if there is one, and the OPF. */
  ghost predicate FileOfBook(book: NewBook, dir: Path, f: Path, content: string) {
    || (f == dir + [book.name + ".epub"] && content == book.publication)
    || (f == dir + ["cover.jpg"] && book.cover != "" && content == book.cover)
    || (f == dir + ["metadata.opf"] && content == book.opf)
  }

  /** They come on top of the others, in a directory of the book's own, in its author's. */
  ghost predicate OnlyFilesCame(before: Disk, after: Disk, book: NewBook, dir: Path)
    requires dir != []
  {
    && (forall p :: p in after.dirs <==> p in before.dirs || p == dir || p == dir[..|dir| - 1])
    && (forall f | f in before.files :: f in after.files && after.files[f] == before.files[f])
    && (forall f | f in after.files && f !in before.files :: FileOfBook(book, dir, f, after.files[f]))
    && (forall f, content | FileOfBook(book, dir, f, content) ::
          f !in before.files && f in after.files && after.files[f] == content)
  }

  lemma PublishedIs(files: map<Path, string>, book: NewBook, dir: Path, f: Path)
    ensures f in Published(files, book, dir) <==> f in files || exists content :: FileOfBook(book, dir, f, content)
    ensures forall content | FileOfBook(book, dir, f, content) :: Published(files, book, dir)[f] == content
    ensures f in files && !(exists content :: FileOfBook(book, dir, f, content)) ==>
              Published(files, book, dir)[f] == files[f]
  {
    ThreeNames(dir, book.name);
    assert f == dir + [book.name + ".epub"] ==> FileOfBook(book, dir, f, book.publication);
    assert f == dir + ["cover.jpg"] && book.cover != "" ==> FileOfBook(book, dir, f, book.cover);
    assert f == dir + ["metadata.opf"] ==> FileOfBook(book, dir, f, book.opf);
  }

  lemma FilesCame(a: State, b: State, book: NewBook, id: int)
    requires Tree(a.disk) && Tree(b.disk) && Added(a, b, book, id)
    ensures OnlyFilesCame(a.disk, b.disk, book, book.author + [book.folder(id)])
  {
    var dir := book.author + [book.folder(id)];
    assert dir[..|dir| - 1] == book.author && Parent(dir) == book.author && dir in b.disk.dirs;
    forall f ensures f in b.disk.files <==> f in Published(a.disk.files, book, dir) {}
    forall f, content | FileOfBook(book, dir, f, content)
      ensures f !in a.disk.files && f in b.disk.files && b.disk.files[f] == content
    {
      NothingBelow(a.disk, dir, f);
      PublishedIs(a.disk.files, book, dir, f);
    }
    forall f | f in b.disk.files && f !in a.disk.files ensures FileOfBook(book, dir, f, b.disk.files[f]) {
      PublishedIs(a.disk.files, book, dir, f);
    }
    forall f | f in a.disk.files ensures f in b.disk.files && b.disk.files[f] == a.disk.files[f] {
      PublishedIs(a.disk.files, book, dir, f);
    }
  }

  // ----- a new book's rows

  /** A row of the book and one of its EPUB; the links are those of its relations, and hold what the last relation of
      the same table and key says; the shared names are those there were and those of its shared relations. */
  ghost predicate OnlyRowsCame(before: Rows, after: Rows, book: NewBook, id: int) {
    && id !in before.books
    && after.books == before.books[id := BookRow(Text.TrimSpace(book.title), book.author + [book.folder(id)])]
    && after.data == before.data + [DataRow(id, "EPUB", book.size, book.name)]
    && (forall key | key in before.links ::
          key in after.links && (key.book != id ==> after.links[key] == before.links[key]))
    && (forall key | key in after.links && key !in before.links :: key.book == id && Mentioned(book.relations, key))
    && (forall r | r in book.relations :: LinkKey(id, r.table, r.key) in after.links)
    && (forall k | 0 <= k < |book.relations| && SaidLast(book.relations, k) ::
          after.links[LinkKey(id, book.relations[k].table, book.relations[k].key)] == book.relations[k].value)
    && (forall table, key :: (table, key) in after.names <==>
          (table, key) in before.names || ShareName(book.relations, table, key))
  }

  ghost predicate ShareName(rels: seq<Relation>, table: string, key: string) {
    exists r | r in rels :: r.shared && r.table == table && r.key == key
  }

  ghost predicate Mentioned(rels: seq<Relation>, key: LinkKey) {
    exists r | r in rels :: r.table == key.table && r.key == key.key
  }

  ghost predicate SaidLast(rels: seq<Relation>, k: nat)
    requires k < |rels|
  {
    forall j | k < j < |rels| :: rels[j].table != rels[k].table || rels[j].key != rels[k].key
  }

  lemma {:induction false} KeysAre(id: int, rels: seq<Relation>, n: nat, key: LinkKey)
    requires n <= |rels|
    ensures key in Keys(id, rels, n) <==>
            key.book == id && exists j :: 0 <= j < n && rels[j].table == key.table && rels[j].key == key.key
  {
    if n > 0 { KeysAre(id, rels, n - 1, key); }
  }

  lemma {:induction false} NamesAre(rels: seq<Relation>, n: nat, table: string, key: string)
    requires n <= |rels|
    ensures (table, key) in SharedNames(rels, n) <==>
            exists j :: 0 <= j < n && rels[j].shared && rels[j].table == table && rels[j].key == key
  {
    if n > 0 { NamesAre(rels, n - 1, table, key); }
  }

  lemma RowsCame(a: State, b: State, book: NewBook, id: int)
    requires Added(a, b, book, id)
    ensures OnlyRowsCame(a.rows, b.rows, book, id)
  {
    var rels, before, after := book.relations, a.rows, b.rows;
    forall key: LinkKey
      ensures key in after.links <==> key in before.links || (key.book == id && Mentioned(rels, key))
    {
      KeysAre(id, rels, |rels|, key);
    }
    forall table, key ensures (table, key) in after.names <==>
        (table, key) in before.names || ShareName(rels, table, key)
    {
      NamesAre(rels, |rels|, table, key);
    }
    forall r | r in rels ensures LinkKey(id, r.table, r.key) in after.links {
      assert Mentioned(rels, LinkKey(id, r.table, r.key));
    }
    forall k | 0 <= k < |rels| && SaidLast(rels, k)
      ensures after.links[LinkKey(id, rels[k].table, rels[k].key)] == rels[k].value
    {
      assert LastOfItsKey(rels, |rels|, k);
      assert Holds(after.links, id, rels[k]);
    }
  }

  /** What a successful `AddBook` leaves. */
  lemma AddedIs(a: State, b: State, book: NewBook, id: int)
    requires Tree(a.disk) && Tree(b.disk) && Added(a, b, book, id)
    ensures OnlyRowsCame(a.rows, b.rows, book, id)
    ensures OnlyFilesCame(a.disk, b.disk, book, book.author + [book.folder(id)])
  {
    RowsCame(a, b, book, id);
    FilesCame(a, b, book, id);
  }

  // ----- formats

  /** t is s with each small letter made a capital one. */
  predicate Capitals(s: string, t: string) {
    |t| == |s| && forall i | 0 <= i < |s| ::
      if 'a' <= s[i] <= 'z' then t[i] as int == s[i] as int - 32 else t[i] == s[i]
  }

  /** A format is spelled in capitals, without white space around it. */
  lemma SpelledIs(s: string)
    requires s == Text.TrimSpace(s)
    ensures Capitals(s, Spelled(s)) && Capitals(s, Spelled(" " + s)) && Capitals(s, Spelled(s + " "))
  {
    assert Text.IsSpace(' ');
    assert (" " + s)[1..] == s && (s + " ")[..|s|] == s;
    TrimmedLeft(s);
  }

  lemma TrimmedLeft(s: string)
    requires s == Text.TrimSpace(s)
    ensures Text.TrimSpace(s + " ") == s
  {
    TrimShortens(s);
    assert (s + " ")[|s|] == ' ' && (s + " ")[..|s|] == s;
    if s == "" {
      assert s + " " == " " && " "[1..] == "" && Text.TrimLeft(" ") == "";
    } else {
      assert (s + " ")[0] == s[0] && Text.TrimLeft(s + " ") == s + " ";
    }
  }

  lemma {:induction false} LeftShortens(s: string)
    ensures |Text.TrimLeft(s)| <= |s|
  {
    if s != "" && Text.IsSpace(s[0]) { LeftShortens(s[1..]); }
  }

  lemma {:induction false} RightShortens(s: string)
    ensures |Text.TrimRight(s)| <= |s|
  {
    if s != "" && Text.IsSpace(s[|s| - 1]) { RightShortens(s[..|s| - 1]); }
  }

  /** What trimming leaves as it is has no white space at either end. */
  lemma TrimShortens(s: string)
    requires s == Text.TrimSpace(s)
    ensures Text.TrimLeft(s) == s && Text.TrimRight(s) == s && (s != "" ==> !Text.IsSpace(s[0]))
  {
    RightShortens(Text.TrimLeft(s));
    if s != "" && Text.IsSpace(s[0]) { LeftShortens(s[1..]); }
  }

  /** The file of a row is its name, a stop and its format in small letters, in the book's directory. */
  lemma FileIs(book: BookRow, d: DataRow, ending: string)
    requires |ending| == |d.format|
    requires forall i | 0 <= i < |ending| ::
               ending[i] == if 'A' <= d.format[i] <= 'Z' then d.format[i] + 32 as char else d.format[i]
    ensures FileOf(book, d) == book.path + [d.name + "." + ending]
  {
    assert ending == Lower(d.format);
  }

  /** The row stands in the table, and none of the rows before it is like it. */
  ghost predicate FirstLike(data: seq<DataRow>, i: nat, id: int, epub: bool) {
    && i < |data| && data[i].book == id && (epub ==> data[i].format == "EPUB")
    && forall j | 0 <= j < i :: data[j].book != id || (epub && data[j].format != "EPUB")
  }

  lemma {:induction false} FirstRowIs(data: seq<DataRow>, i: nat, id: int, epub: bool)
    requires FirstLike(data, i, id, epub)
    ensures FirstRow(data, id, epub) == Some(data[i])
  {
    if i > 0 {
      assert FirstLike(data[1..], i - 1, id, epub);
      FirstRowIs(data[1..], i - 1, id, epub);
    }
  }

  lemma {:induction false} NoRow(data: seq<DataRow>, id: int, epub: bool)
    requires forall j | 0 <= j < |data| :: data[j].book != id || (epub && data[j].format != "EPUB")
    ensures FirstRow(data, id, epub) == None
  {
    if data != [] { NoRow(data[1..], id, epub); }
  }

  /** A new format takes the name of the book's EPUB, or of its oldest format, or one made from its title. */
  lemma SharedNameIs(rows: Rows, id: int, safe: string -> string, i: nat)
    requires id in rows.books
    ensures FirstLike(rows.data, i, id, true) ==> SharedName(rows, id, safe) == rows.data[i].name
    ensures (forall d | d in rows.data && d.book == id :: d.format != "EPUB") && FirstLike(rows.data, i, id, false) ==>
              SharedName(rows, id, safe) == rows.data[i].name
    ensures (forall d | d in rows.data :: d.book != id) ==> SharedName(rows, id, safe) == safe(rows.books[id].title)
  {
    if FirstLike(rows.data, i, id, true) { FirstRowIs(rows.data, i, id, true); }
    if forall d | d in rows.data && d.book == id :: d.format != "EPUB" {
      NoRow(rows.data, id, true);
      if FirstLike(rows.data, i, id, false) { FirstRowIs(rows.data, i, id, false); }
    }
    if forall d | d in rows.data :: d.book != id { NoRow(rows.data, id, false); }
  }

  /** When no step fails, a format is added exactly when it is a plain word, the book is there in a directory of its own
      and without that format, the name its formats share is usable, and no file stands where the new one would. */
  lemma FormatIsTakenExactly(s: State, id: int, format: string, size: int, safe: string -> string, faults: Faults)
    requires Tree(s.disk) && Smooth(faults)
    ensures ReachesFile(s, id, format, safe, faults) && WritesFile(s, id, format, size, safe, faults)
            <==> TakesFormat(s, id, format, safe)
  {
    if id in s.rows.books {
      var row := NewRow(s, id, format, size, safe);
      var file := FileOf(s.rows.books[id], row);
      assert file[..|file| - 1] == s.rows.books[id].path && file[|file| - 1] == row.name + "." + Lower(format);
      if ReachesFile(s, id, format, safe, faults) { NoDots(row.name, Lower(format)); }
    }
  }

  ghost predicate TakesFormat(s: State, id: int, format: string, safe: string -> string) {
    && format != "" && '/' !in format && '\\' !in format && '.' !in format
    && id in s.rows.books && (forall d | d in s.rows.data :: d.book != id || d.format != format)
    && SharedName(s.rows, id, safe) != "" && '/' !in SharedName(s.rows, id, safe)
    && '\\' !in SharedName(s.rows, id, safe)
    && var dir := s.rows.books[id].path;
    && dir != [] && dir[0] != ".." && ".." !in dir && dir in s.disk.dirs
    && dir + [SharedName(s.rows, id, safe) + "." + Lower(format)] !in s.disk.dirs
    && dir + [SharedName(s.rows, id, safe) + "." + Lower(format)] !in s.disk.files
  }

  lemma NoDots(name: string, ending: string)
    requires name != "" && ending != "" && '.' !in ending
    ensures name + "." + ending != ".."
  {
    var u := name + "." + ending;
    assert u[|u| - 1] == ending[|ending| - 1];
  }
}
