/** A Calibre library as the writer sees it: the rows of metadata.db and the tree of directories and files beside them
  (internal/calibre/writer.go).
*/
module Library {

  // ----- the tree

  /** A path below the library's root, one element a component; [] is the root. */
  type Path = seq<string>

  datatype Disk = Disk(dirs: set<Path>, files: map<Path, string>)

  function Parent(p: Path): Path
    requires p != []
  {
    p[..|p| - 1]
  }

  function Name(p: Path): string
    requires p != []
  {
    p[|p| - 1]
  }

  predicate Taken(d: Disk, p: Path) { p in d.dirs || p in d.files }

  /** Everything that exists stands in a directory that exists, and nothing is both file and directory. */
  ghost predicate Tree(d: Disk) {
    && [] in d.dirs
    && (forall p <- d.dirs :: p != [] ==> Parent(p) in d.dirs)
    && (forall f <- d.files :: f != [] && Parent(f) in d.dirs && f !in d.dirs)
  }

  /** p is `top` or below it. */
  predicate Within(top: Path, p: Path) { top <= p }

  predicate Free(d: Disk, p: Path) { p != [] && !Taken(d, p) && Parent(p) in d.dirs }

  function Mkdir(d: Disk, p: Path): Disk { Disk(d.dirs + {p}, d.files) }

  function Put(d: Disk, p: Path, content: string): Disk { Disk(d.dirs, d.files[p := content]) }

  function Unlink(d: Disk, p: Path): Disk { Disk(d.dirs, d.files - {p}) }

  /** What a removal of `top` that only got so far spares: what it kept, down to the thing itself. */
  predicate Spared(top: Path, p: Path, keep: set<Path>) {
    Within(top, p) ==> forall n | |top| <= n <= |p| :: Kept(p, n, keep)
  }

  predicate Kept(p: Path, n: nat, keep: set<Path>)
    requires n <= |p|
  {
    p[..n] in keep
  }

  /** `RemoveAll`, sparing `keep`; with nothing to keep, all of it. */
  function Cut(d: Disk, top: Path, keep: set<Path>): Disk {
    Disk(set p | p in d.dirs && Spared(top, p, keep), map f | f in d.files && Spared(top, f, keep) :: d.files[f])
  }

  /** `Remove` on a directory: only an empty one goes. */
  function RemoveEmpty(d: Disk, p: Path): Disk {
    if p != [] && p in d.dirs && Childless(d, p) then Disk(d.dirs - {p}, d.files) else d
  }

  predicate Childless(d: Disk, p: Path) {
    && (forall q <- d.dirs :: q != [] ==> Parent(q) != p)
    && (forall f <- d.files :: f != [] ==> Parent(f) != p)
  }

  /** The two agree on everything that is not `top` or below it. */
  ghost predicate SameOutside(a: Disk, b: Disk, top: Path) {
    && (forall p :: !Within(top, p) ==> (p in a.dirs <==> p in b.dirs))
    && (forall p :: !Within(top, p) ==> (p in a.files <==> p in b.files))
    && (forall p :: !Within(top, p) && p in a.files && p in b.files ==> a.files[p] == b.files[p])
  }

  lemma SameOutsideTransitive(a: Disk, b: Disk, c: Disk, top: Path)
    requires SameOutside(a, b, top) && SameOutside(b, c, top)
    ensures SameOutside(a, c, top)
  {
    forall p | !Within(top, p) ensures (p in a.dirs <==> p in c.dirs) && (p in a.files <==> p in c.files) {
      assert (p in a.dirs <==> p in b.dirs) && (p in a.files <==> p in b.files);
    }
  }

  /** Below a path that is not a directory there is nothing. */
  lemma {:induction false} NothingBelow(d: Disk, top: Path, p: Path)
    requires Tree(d) && top !in d.dirs && top <= p && p != top
    ensures !Taken(d, p)
    decreases |p|
  {
    var up := Parent(p);
    assert top <= up;
    if up != top { NothingBelow(d, top, up); }
  }

  lemma CutRestores(a: Disk, b: Disk, top: Path)
    requires Tree(a) && !Taken(a, top) && SameOutside(a, b, top)
    ensures Cut(b, top, {}) == a
  {
    var c := Cut(b, top, {});
    forall p | Within(top, p) ensures !Taken(a, p) && !Spared(top, p, {}) {
      if p != top { NothingBelow(a, top, p); }
      assert !Kept(p, |top|, {});
    }
    assert forall p :: Spared(top, p, {}) <==> !Within(top, p);
    forall p ensures p in c.dirs <==> p in a.dirs {}
    forall p ensures p in c.files <==> p in a.files {}
  }

  lemma RemoveRestores(d: Disk, p: Path)
    requires Tree(d) && Free(d, p)
    ensures RemoveEmpty(Mkdir(d, p), p) == d
  {
    forall q | Taken(d, q) && q != [] ensures Parent(q) != p {
      assert Parent(q) == p ==> p <= q && q != p;
      if p <= q && q != p { NothingBelow(d, p, q); }
    }
  }

  lemma CutKeepsTree(d: Disk, top: Path, keep: set<Path>)
    requires Tree(d) && top != []
    ensures Tree(Cut(d, top, keep))
  {
    forall p | p != [] && Spared(top, p, keep) ensures Spared(top, Parent(p), keep) {
      if Within(top, Parent(p)) {
        assert top <= p;
        forall n | |top| <= n <= |Parent(p)| ensures Kept(Parent(p), n, keep) {
          assert Kept(p, n, keep);
          assert Parent(p)[..n] == p[..n];
        }
      }
    }
  }

  lemma RemoveEmptyKeepsTree(d: Disk, p: Path)
    requires Tree(d)
    ensures Tree(RemoveEmpty(d, p))
  {
  }

  // ----- the rows

  datatype BookRow = BookRow(title: string, path: Path)

  datatype DataRow = DataRow(book: int, format: string, size: int, name: string)

  /** A row hanging off a book: a link to a shared name, a comment, an identifier. */
  datatype LinkKey = LinkKey(book: int, table: string, key: string)

  /** `names` are the rows of the shared lookup tables: authors, publishers, series, tags, languages. */
  datatype Rows = Rows(
    books: map<int, BookRow>, data: seq<DataRow>, names: set<(string, string)>, links: map<LinkKey, string>)

  datatype State = State(rows: Rows, disk: Disk)

  const COVER_NAME := "cover.jpg"
  const OPF_NAME := "metadata.opf"

  function Lower(s: string): (r: string)
    ensures |r| == |s|
  {
    seq(|s|, i requires 0 <= i < |s| => if 'A' <= s[i] <= 'Z' then s[i] - 'A' + 'a' else s[i])
  }

  function Upper(s: string): string {
    seq(|s|, i requires 0 <= i < |s| => if 'a' <= s[i] <= 'z' then s[i] - 'a' + 'A' else s[i])
  }

  function FileName(d: DataRow): string { d.name + "." + Lower(d.format) }

  /** The file of a data row. */
  function FileOf(book: BookRow, d: DataRow): Path { book.path + [FileName(d)] }

  /** Book `id` accounts for the file: its cover, its OPF, or one of its formats. */
  ghost predicate Claims(rows: Rows, id: int, f: Path) {
    && id in rows.books && f != [] && rows.books[id].path == Parent(f)
    && (Name(f) == COVER_NAME || Name(f) == OPF_NAME || exists d <- rows.data :: d.book == id && FileName(d) == Name(f))
  }

  /** The files no row accounts for. */
  ghost function Orphans(s: State): set<Path> {
    set f | f in s.disk.files && !exists id :: Claims(s.rows, id, f)
  }

  /** Every format a row promises is there. */
  ghost predicate Complete(s: State) {
    forall d <- s.rows.data :: d.book in s.rows.books ==> FileOf(s.rows.books[d.book], d) in s.disk.files
  }
}
