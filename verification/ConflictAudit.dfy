/** Settling Syncthing's conflict copies (scripts/calibre-audit.py, `park`, `resolve_conflicts`): which copy stays under
  the target name, and that no content is lost on the way.
*/
module ConflictAudit {
  import opened Wrappers

  /** A path below the library's root. */
  datatype Path = Path(dir: seq<string>, name: string)

  datatype File = File(content: string, mtime: nat)

  type Files = map<Path, File>

  const CONFLICTS := ".audit-conflicts"

  /** Nothing under `.audit-conflicts` itself: the walk skips hidden directories. */
  predicate Parked(p: Path) { p.dir != [] && p.dir[0] == CONFLICTS }

  function Contents(fs: Files): set<string> { set p | p in fs :: fs[p].content }

  // ----- the two things the script ever does to a file

  /** A move to where nothing was. */
  ghost predicate Moves(a: Files, b: Files, src: Path, dst: Path) {
    src in a && dst !in a && b == (a - {src})[dst := a[src]]
  }

  /** A deletion of what another file holds as well. */
  ghost predicate Drops(a: Files, b: Files, p: Path, copy: Path) {
    p in a && copy in a && copy != p && a[copy].content == a[p].content && b == a - {p}
  }

  datatype Action = Move(src: Path, dst: Path) | Drop(p: Path, copy: Path)

  ghost predicate Step(a: Files, act: Action, b: Files) {
    match act
    case Move(src, dst) => Moves(a, b, src, dst)
    case Drop(p, copy) => Drops(a, b, p, copy)
  }

  /** Everything the disk went through. */
  ghost predicate IsHistory(states: seq<Files>, actions: seq<Action>) {
    && |states| == |actions| + 1
    && forall i | 0 <= i < |actions| :: Step(states[i], actions[i], states[i + 1])
  }

  lemma StepKeepsContents(a: Files, act: Action, b: Files)
    requires Step(a, act, b)
    ensures Contents(b) == Contents(a)
  {
    forall c | c in Contents(a) ensures c in Contents(b) {
      var p :| p in a && a[p].content == c;
      match act {
        case Move(src, dst) => assert p == src ==> b[dst].content == c; assert p != src ==> p in b && b[p] == a[p];
        case Drop(q, copy) => assert copy in b && b[copy] == a[copy]; assert p != q ==> p in b && b[p] == a[p];
      }
    }
    forall c | c in Contents(b) ensures c in Contents(a) {
      var p :| p in b && b[p].content == c;
      match act {
        case Move(src, dst) => assert p == dst ==> a[src].content == c; assert p != dst ==> p in a && b[p] == a[p];
        case Drop(q, copy) => assert p in a && b[p] == a[p];
      }
    }
  }

  /** No distinct content is lost at any moment, between any two steps. */
  lemma {:induction false} NothingIsEverLost(states: seq<Files>, actions: seq<Action>, i: nat)
    requires IsHistory(states, actions) && i < |states|
    ensures Contents(states[i]) == Contents(states[0])
  {
    if i > 0 {
      NothingIsEverLost(states, actions, i - 1);
      assert Step(states[i - 1], actions[i - 1], states[i]);
      StepKeepsContents(states[i - 1], actions[i - 1], states[i]);
    }
  }

  // ----- the rules

  /** `resolved_name`: the name a conflict copy stands in for; always a shorter one. */
  type Naming = string -> Option<string>

  ghost predicate Shortens(resolved: Naming) {
    forall name :: resolved(name).Some? ==> |resolved(name).value| < |name|
  }

  function Real(resolved: Naming, p: Path): Path
    requires resolved(p.name).Some?
  {
    p.(name := resolved(p.name).value)
  }

  function At(fs: Files, p: Path): Option<File> { if p in fs then Some(fs[p]) else None }

  /** What stays under the real name: the first to come, then whatever differs and is newer. */
  function Winner(cur: Option<File>, f: File): File {
    if cur.None? then f
    else if cur.value.content == f.content then cur.value
    else if f.mtime > cur.value.mtime then f
    else cur.value
  }

  /** The library without what is parked. */
  function Outside(fs: Files): Files { map p | p in fs && !Parked(p) :: fs[p] }

  /** One conflict copy settled: it is gone and the real name holds the winner. */
  function SettledOne(fs: Files, resolved: Naming, p: Path): Files {
    if p !in fs || resolved(p.name).None? then fs
    else
      var target := Real(resolved, p);
      (fs - {p})[target := Winner(At(fs, target), fs[p])]
  }

  /** All of them settled, in order: a copy may itself be what earlier ones stood in for. */
  function SettledAll(fs: Files, conflicts: seq<Path>, resolved: Naming): Files {
    if conflicts == [] then fs
    else SettledOne(SettledAll(fs, conflicts[..|conflicts| - 1], resolved), resolved, conflicts[|conflicts| - 1])
  }

  /** What was parked before is still there. */
  ghost predicate ParkedStay(a: Files, b: Files) { forall p <- a :: Parked(p) ==> p in b && b[p] == a[p] }

  /** The first name tried, or a longer one that begins with it, in the same directory under `.audit-conflicts`; nothing
      was there. */
  ghost predicate ParkPlace(a: Files, p: Path, d: Path) {
    d !in a && d.dir == [".audit-conflicts"] + p.dir && p.name <= d.name
  }

  /** What settling the copy p, which stands in for `target`, does to the disk: it is renamed if nothing was there and
      dropped if it is identical; otherwise the older of the two, and p if neither is, is parked. */
  ghost predicate SettlesCopy(a: Files, b: Files, p: Path, target: Path)
    requires p in a
  {
    if target !in a then b == (a - {p})[target := a[p]]
    else if a[target].content == a[p].content then b == a - {p}
    else if a[p].mtime > a[target].mtime then
      exists d :: ParkPlace(a, target, d) && b == (a - {p})[d := a[target]][target := a[p]]
    else exists d :: ParkPlace(a, p, d) && b == (a - {p})[d := a[p]]
  }

  /** The walk lists every file once, and nothing under `.audit-conflicts`. */
  ghost predicate Found(fs: Files, ps: seq<Path>) {
    (forall p <- ps :: p in fs && !Parked(p)) && Distinct(ps)
  }

  ghost predicate Distinct(ps: seq<Path>) { forall i, j | 0 <= i < j < |ps| :: ps[i] != ps[j] }

  function SetOf(ps: seq<Path>): set<Path> { set p | p in ps }

  function Digits(n: nat): string {
    if n < 10 then [('0' as int + n) as char] else Digits(n / 10) + Digits(n % 10)
  }

  lemma PlainlySettled(a: Files, b: Files, resolved: Naming, p: Path, target: Path)
    requires p in a && resolved(p.name).Some? && target == Real(resolved, p) != p && !Parked(p)
    requires if target !in a then Moves(a, b, p, target)
             else a[target].content == a[p].content && Drops(a, b, p, target)
    ensures SettlesCopy(a, b, p, target)
    ensures Outside(b) == SettledOne(Outside(a), resolved, p) && ParkedStay(a, b)
  {
  }

  lemma NewerSettled(a: Files, parked: Files, b: Files, resolved: Naming, p: Path, target: Path, d: Path)
    requires p in a && resolved(p.name).Some? && target == Real(resolved, p) != p && !Parked(p)
    requires target in a && a[target].content != a[p].content && a[p].mtime > a[target].mtime
    requires ParkPlace(a, target, d) && Moves(a, parked, target, d) && Moves(parked, b, p, target)
    ensures SettlesCopy(a, b, p, target)
    ensures Outside(b) == SettledOne(Outside(a), resolved, p) && ParkedStay(a, b)
  {
    assert b == (a - {p})[d := a[target]][target := a[p]];
    assert Parked(d) && !Parked(target);
  }

  lemma OlderSettled(a: Files, b: Files, resolved: Naming, p: Path, target: Path, d: Path)
    requires p in a && resolved(p.name).Some? && target == Real(resolved, p) != p && !Parked(p)
    requires target in a && a[target].content != a[p].content && a[p].mtime <= a[target].mtime
    requires ParkPlace(a, p, d) && Moves(a, b, p, d)
    ensures SettlesCopy(a, b, p, target)
    ensures Outside(b) == SettledOne(Outside(a), resolved, p) && ParkedStay(a, b)
  {
    assert b == (a - {p})[d := a[p]];
    assert Parked(d) && !Parked(target);
  }

  class Library {
    var files: Files
    ghost var states: seq<Files>
    ghost var actions: seq<Action>

    /** The history is this object's, and ends now. */
    ghost predicate Valid()
      reads this
    {
      IsHistory(states, actions) && states[|actions|] == files
    }

    constructor (files: Files)
      ensures Valid() && this.files == files && states == [files]
    {
      this.files := files;
      states, actions := [files], [];
    }

    /** `Path.rename` and `shutil.move`, here only ever to a free path. */
    method Rename(src: Path, dst: Path)
      requires Valid() && src in files && dst !in files
      modifies this
      ensures Valid() && Moves(old(files), files, src, dst)
      ensures states == old(states) + [files] && actions == old(actions) + [Move(src, dst)]
    {
      files := (files - {src})[dst := files[src]];
      states, actions := states + [files], actions + [Move(src, dst)];
    }

    method Unlink(p: Path, ghost copy: Path)
      requires Valid() && p in files && copy in files && copy != p && files[copy].content == files[p].content
      modifies this
      ensures Valid() && Drops(old(files), files, p, copy)
      ensures states == old(states) + [files] && actions == old(actions) + [Drop(p, copy)]
    {
      files := files - {p};
      states, actions := states + [files], actions + [Drop(p, copy)];
    }

    /** `park`: names are tried, each longer than the last, until one is free. */
    method Park(p: Path) returns (dest: Path)
      requires Valid() && p in files
      modifies this
      ensures Valid() && Parked(dest) && dest !in old(files) && Moves(old(files), files, p, dest)
      ensures dest.dir == [".audit-conflicts"] + p.dir && p.name <= dest.name
      ensures var first := Path([".audit-conflicts"] + p.dir, p.name);
              var second := first.(name := p.name + "." + Digits(old(files)[p].mtime));
              && (first !in old(files) ==> dest == first)
              && (first in old(files) && second !in old(files) ==> dest == second)
      ensures states == old(states) + [files] && actions == old(actions) + [Move(p, dest)]
    {
      dest := Path([CONFLICTS] + p.dir, p.name);
      if dest in files {
        dest := dest.(name := dest.name + "." + Digits(files[p].mtime));
      }
      var n := 0;
      ghost var left := files.Keys;
      while dest in files
        invariant Parked(dest) && dest.dir == [CONFLICTS] + p.dir && p.name <= dest.name
        invariant n > 0 ==> Path(dest.dir, p.name) in files
                            && Path(dest.dir, p.name + "." + Digits(files[p].mtime)) in files
        invariant n == 0 ==> dest.name == if Path(dest.dir, p.name) in files
                                          then p.name + "." + Digits(files[p].mtime) else p.name
        invariant left <= files.Keys && forall q <- files :: q !in left ==> |q.name| < |dest.name|
        decreases left
      {
        n := n + 1;
        left := left - {dest};
        dest := dest.(name := dest.name + "." + Digits(n));
      }
      Rename(p, dest);
    }

    /** The body of the second loop of `resolve_conflicts`. */
    method Settle(p: Path, resolved: Naming)
      requires Valid() && p in files && resolved(p.name).Some? && Shortens(resolved)
      requires !Parked(p)
      modifies this
      ensures Valid() && old(states) <= states && old(actions) <= actions
      ensures Outside(files) == SettledOne(Outside(old(files)), resolved, p) && ParkedStay(old(files), files)
      ensures SettlesCopy(old(files), files, p, Path(p.dir, resolved(p.name).value))
    {
      var target := Real(resolved, p);
      assert target != p && !Parked(target);
      ghost var before := files;
      if target !in files {
        Rename(p, target);
        PlainlySettled(before, files, resolved, p, target);
      } else if files[p].content == files[target].content {
        Unlink(p, target);
        PlainlySettled(before, files, resolved, p, target);
      } else if files[p].mtime > files[target].mtime {
        var dest := Park(target);
        ghost var parked := files;
        Rename(p, target);
        NewerSettled(before, parked, files, resolved, p, target, dest);
      } else {
        var dest := Park(p);
        OlderSettled(before, files, resolved, p, target, dest);
      }
    }

    /** `resolve_conflicts`. */
    method ResolveConflicts(db: seq<Path>, conflicts: seq<Path>, resolved: Naming) returns (changed: bool)
      requires Valid() && Shortens(resolved)
      requires Found(files, db + conflicts)
      modifies this
      ensures Valid() && old(states) <= states && old(actions) <= actions
      ensures Contents(files) == Contents(old(files)) && ParkedStay(old(files), files)
      ensures Outside(files) == SettledAll(Outside(old(files)) - SetOf(db), conflicts, resolved)
      ensures changed <==> db != [] || exists p <- conflicts :: resolved(p.name).Some?
    {
      FoundParts(files, db, conflicts);
      changed := ParkAll(db);
      var any := SettleAll(conflicts, resolved);
      changed := changed || any;
      NothingIsEverLost(states, actions, |old(actions)|);
      NothingIsEverLost(states, actions, |actions|);
    }

    /** The first loop: copies of metadata.db are parked, whatever they hold. */
    method ParkAll(db: seq<Path>) returns (changed: bool)
      requires Valid() && Found(files, db)
      modifies this
      ensures Valid() && old(states) <= states && old(actions) <= actions
      ensures Outside(files) == Outside(old(files)) - SetOf(db) && ParkedStay(old(files), files)
      ensures changed <==> db != []
    {
      changed := false;
      ghost var base := Outside(files);
      for i := 0 to |db|
        invariant Valid() && old(states) <= states && old(actions) <= actions
        invariant Outside(files) == base - SetOf(db[..i]) && ParkedStay(old(files), files)
        invariant changed <==> i > 0
      {
        NextIsThere(base, db, i);
        ghost var before := files;
        var dest := Park(db[i]);
        ParkedOne(before, files, db[i], dest);
        changed := true;
      }
      assert db[..|db|] == db;
    }

    /** The second loop. */
    method SettleAll(conflicts: seq<Path>, resolved: Naming) returns (changed: bool)
      requires Valid() && Shortens(resolved) && Found(files, conflicts)
      modifies this
      ensures Valid() && old(states) <= states && old(actions) <= actions
      ensures Outside(files) == SettledAll(Outside(old(files)), conflicts, resolved) && ParkedStay(old(files), files)
      ensures changed <==> exists p <- conflicts :: resolved(p.name).Some?
    {
      changed := false;
      ghost var base := Outside(files);
      for i := 0 to |conflicts|
        invariant Valid() && old(states) <= states && old(actions) <= actions
        invariant Outside(files) == SettledAll(base, conflicts[..i], resolved) && ParkedStay(old(files), files)
        invariant changed <==> exists p <- conflicts[..i] :: resolved(p.name).Some?
      {
        var p := conflicts[i];
        OneMoreSettled(base, conflicts, resolved, i);
        StillThere(base, conflicts, resolved, i);
        if resolved(p.name).Some? {
          Settle(p, resolved);
          changed := true;
        }
      }
      assert conflicts[..|conflicts|] == conflicts;
    }
  }

  lemma FoundParts(fs: Files, db: seq<Path>, conflicts: seq<Path>)
    requires Found(fs, db + conflicts)
    ensures Found(fs, db)
    ensures forall b: Files | Outside(b) == Outside(fs) - SetOf(db) :: Found(b, conflicts)
  {
    var all := db + conflicts;
    forall i, j | 0 <= i < j < |db| ensures db[i] != db[j] { assert all[i] != all[j]; }
    forall i, j | 0 <= i < j < |conflicts| ensures conflicts[i] != conflicts[j] {
      assert all[|db| + i] != all[|db| + j];
    }
    forall i, j | 0 <= i < |db| && 0 <= j < |conflicts| ensures db[i] != conflicts[j] {
      assert all[i] != all[|db| + j];
    }
    forall p | p in db || p in conflicts ensures p in all {}
    forall b: Files, p | Outside(b) == Outside(fs) - SetOf(db) && p in conflicts ensures p in b && !Parked(p) {
      assert p in Outside(b);
    }
  }

  lemma NextIsThere(base: Files, db: seq<Path>, i: nat)
    requires Found(base, db) && i < |db|
    ensures db[i] in base - SetOf(db[..i]) && SetOf(db[..i + 1]) == SetOf(db[..i]) + {db[i]}
  {
    assert db[..i + 1] == db[..i] + [db[i]];
  }

  lemma ParkedOne(a: Files, b: Files, p: Path, dest: Path)
    requires Moves(a, b, p, dest) && Parked(dest) && !Parked(p)
    ensures Outside(b) == Outside(a) - {p} && ParkedStay(a, b)
  {
  }

  lemma OneMoreSettled(base: Files, conflicts: seq<Path>, resolved: Naming, i: nat)
    requires i < |conflicts|
    ensures conflicts[..i + 1] == conflicts[..i] + [conflicts[i]]
    ensures SettledAll(base, conflicts[..i + 1], resolved)
            == SettledOne(SettledAll(base, conflicts[..i], resolved), resolved, conflicts[i])
  {
    assert conflicts[..i + 1][..i] == conflicts[..i];
  }

  /** A copy is still there when its turn comes, though others may have changed what it holds. */
  lemma {:induction false} StaysUntilItsTurn(base: Files, conflicts: seq<Path>, resolved: Naming, p: Path)
    requires p in base && p !in conflicts
    ensures p in SettledAll(base, conflicts, resolved)
  {
    if conflicts != [] { StaysUntilItsTurn(base, conflicts[..|conflicts| - 1], resolved, p); }
  }

  lemma StillThere(base: Files, conflicts: seq<Path>, resolved: Naming, i: nat)
    requires Found(base, conflicts) && i < |conflicts|
    ensures conflicts[i] in SettledAll(base, conflicts[..i], resolved) && !Parked(conflicts[i])
  {
    assert conflicts[i] in conflicts;
    StaysUntilItsTurn(base, conflicts[..i], resolved, conflicts[i]);
  }

  // ----- what the settled files say of a single name

  /** Some copy stands in for x. */
  ghost predicate Awaited(conflicts: seq<Path>, resolved: Naming, x: Path) {
    exists q <- conflicts :: resolved(q.name).Some? && Real(resolved, q) == x
  }

  ghost predicate Touched(conflicts: seq<Path>, resolved: Naming, x: Path) {
    Awaited(conflicts, resolved, x) || (x in conflicts && resolved(x.name).Some?)
  }

  lemma FewerAwaited(conflicts: seq<Path>, resolved: Naming, x: Path)
    requires conflicts != [] && !Awaited(conflicts, resolved, x)
    ensures var p := conflicts[|conflicts| - 1];
            !Awaited(conflicts[..|conflicts| - 1], resolved, x) && (resolved(p.name).Some? ==> Real(resolved, p) != x)
  {
    var p := conflicts[|conflicts| - 1];
    assert p in conflicts;
    assert forall q | q in conflicts[..|conflicts| - 1] :: q in conflicts;
  }

  /** What is neither a copy nor stood in for by one is as it was, there or not. */
  lemma {:induction false} UntouchedStays(fs: Files, conflicts: seq<Path>, resolved: Naming, x: Path)
    requires !Touched(conflicts, resolved, x)
    ensures At(SettledAll(fs, conflicts, resolved), x) == At(fs, x)
  {
    if conflicts != [] {
      FewerAwaited(conflicts, resolved, x);
      UntouchedStays(fs, conflicts[..|conflicts| - 1], resolved, x);
    }
  }

  /** A copy that no other copy stands in for is gone. */
  lemma {:induction false} CopiesGo(fs: Files, conflicts: seq<Path>, resolved: Naming, x: Path)
    requires x in conflicts && resolved(x.name).Some? && !Awaited(conflicts, resolved, x)
    ensures x !in SettledAll(fs, conflicts, resolved)
  {
    var earlier, p := conflicts[..|conflicts| - 1], conflicts[|conflicts| - 1];
    FewerAwaited(conflicts, resolved, x);
    if x in earlier { CopiesGo(fs, earlier, resolved, x); } else { assert x == p; }
  }

  /** A name whose copies have no copies of their own, and which is none itself. */
  ghost predicate Plain(conflicts: seq<Path>, resolved: Naming, target: Path) {
    && target !in conflicts
    && forall p <- conflicts :: resolved(p.name).Some? && Real(resolved, p) == target ==>
         !Awaited(conflicts, resolved, p)
  }

  /** All the versions of what belongs under `target`: its own, then its copies in order. */
  function Versions(fs: Files, conflicts: seq<Path>, resolved: Naming, target: Path): seq<File> {
    if conflicts == [] then if target in fs then [fs[target]] else []
    else
      var p := conflicts[|conflicts| - 1];
      Versions(fs, conflicts[..|conflicts| - 1], resolved, target)
      + if resolved(p.name).Some? && Real(resolved, p) == target && p in fs then [fs[p]] else []
  }

  /** The last of the versions, first to last, that displaced the one before. */
  function Last(versions: seq<File>): Option<File> {
    if versions == [] then None else Some(Winner(Last(versions[..|versions| - 1]), versions[|versions| - 1]))
  }

  lemma FewerPlain(conflicts: seq<Path>, resolved: Naming, target: Path)
    requires conflicts != [] && Plain(conflicts, resolved, target)
    ensures Plain(conflicts[..|conflicts| - 1], resolved, target)
  {
    var earlier := conflicts[..|conflicts| - 1];
    forall p <- earlier | resolved(p.name).Some? && Real(resolved, p) == target ensures !Awaited(earlier, resolved, p) {
      assert p in conflicts;
      FewerAwaited(conflicts, resolved, p);
    }
  }

  /** Such a name ends with the last of its versions. */
  lemma {:induction false} PlainNameKeepsTheLast(fs: Files, conflicts: seq<Path>, resolved: Naming, target: Path)
    requires Distinct(conflicts) && Plain(conflicts, resolved, target)
    ensures At(SettledAll(fs, conflicts, resolved), target) == Last(Versions(fs, conflicts, resolved, target))
  {
    if conflicts != [] {
      var earlier, p := conflicts[..|conflicts| - 1], conflicts[|conflicts| - 1];
      FewerPlain(conflicts, resolved, target);
      PlainNameKeepsTheLast(fs, earlier, resolved, target);
      var before := Versions(fs, earlier, resolved, target);
      if resolved(p.name).Some? && Real(resolved, p) == target {
        assert p in conflicts && p !in earlier;
        FewerAwaited(conflicts, resolved, p);
        UntouchedStays(fs, earlier, resolved, p);
        if p in fs { assert (before + [fs[p]])[..|before|] == before; } else { assert before + [] == before; }
      } else {
        assert before + [] == before;
      }
    } else if target in fs {
      assert [fs[target]][..0] == [];
    }
  }
}
