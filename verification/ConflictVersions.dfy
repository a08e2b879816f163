/** Which version of a file `resolve_conflicts` keeps, over all orders in which its copies may be settled
  (scripts/calibre-audit.py).
*/
module ConflictVersions {
  import opened Wrappers
  import opened ConflictAudit

  /** t is the newest time among the versions. */
  ghost predicate IsNewest(versions: multiset<File>, t: nat) {
    (exists f <- versions :: f.mtime == t) && forall f <- versions :: f.mtime <= t
  }

  ghost predicate HasTwin(twins: seq<File>, content: string) { exists g <- twins :: g.content == content }

  ghost predicate Rising(s: seq<File>) { forall i, j | 0 <= i < j < |s| :: s[i].mtime < s[j].mtime }

  ghost predicate AllBefore(s: seq<File>, t: nat) { forall f <- s :: f.mtime < t }

  /** Older twins of all the newest contents, each later than the one before: settled in this order, each before the
      newest copies of its content, they keep every one of those copies out. */
  ghost predicate KeepsOut(versions: multiset<File>, t: nat, twins: seq<File>) {
    && (forall g <- twins :: g in versions) && AllBefore(twins, t) && Rising(twins)
    && forall f <- versions :: f.mtime == t ==> HasTwin(twins, f.content)
  }

  // ----- an order that loses the newest version has such twins

  /** The versions that stayed for a while, in order. */
  function Reign(versions: seq<File>): seq<File> {
    if versions == [] then []
    else
      var earlier := versions[..|versions| - 1];
      Reign(earlier) + if Last(versions) != Last(earlier) then [versions[|versions| - 1]] else []
  }

  lemma {:induction false} ReignMembers(versions: seq<File>)
    ensures forall g <- Reign(versions) :: g in versions
  {
    if versions != [] { ReignMembers(versions[..|versions| - 1]); }
  }

  lemma {:induction false} ReignRises(versions: seq<File>)
    requires versions != []
    ensures var r := Reign(versions); r != [] && Last(versions) == Some(r[|r| - 1]) && Rising(r)
    decreases |versions|
  {
    if |versions| > 1 { ReignRises(versions[..|versions| - 1]); }
  }

  /** The first of them all stays until another displaces it. */
  lemma {:induction false} ReignStartsFirst(versions: seq<File>)
    requires versions != []
    ensures Reign(versions) != [] && Reign(versions)[0] == versions[0]
    decreases |versions|
  {
    if |versions| > 1 { ReignStartsFirst(versions[..|versions| - 1]); }
  }

  lemma RisingIsBefore(s: seq<File>, t: nat)
    requires s != [] && Rising(s) && s[|s| - 1].mtime < t
    ensures AllBefore(s, t)
  {
  }

  /** A newest copy that did not get in was dropped as identical to what stayed then. */
  lemma {:induction false} ReignHasTwins(versions: seq<File>, t: nat, f: File)
    requires f in versions && f.mtime == t && Last(versions).Some? && Last(versions).value.mtime < t
    ensures HasTwin(Reign(versions), f.content)
    decreases |versions|
  {
    var earlier, last := versions[..|versions| - 1], versions[|versions| - 1];
    var before := Reign(earlier);
    if f in earlier {
      ReignHasTwins(earlier, t, f);
      var g :| g in before && g.content == f.content;
      assert g in Reign(versions);
    } else {
      assert earlier != [];
      ReignRises(earlier);
      assert before[|before| - 1] in Reign(versions);
    }
  }

  // ----- such twins give an order that loses it

  function Repeat(f: File, k: nat): (r: seq<File>)
    ensures |r| == k && forall g <- r :: g == f
  {
    if k == 0 then [] else Repeat(f, k - 1) + [f]
  }

  lemma {:induction false} RepeatCount(f: File, k: nat, x: File)
    ensures multiset(Repeat(f, k))[x] == if x == f then k else 0
  {
    if k > 0 { RepeatCount(f, k - 1, x); }
  }

  /** Each twin, and right after it the newest copies of its content. */
  ghost function Guarded(versions: multiset<File>, t: nat, twins: seq<File>): seq<File> {
    if twins == [] then []
    else
      var earlier, g := twins[..|twins| - 1], twins[|twins| - 1];
      Guarded(versions, t, earlier) + [g] + Copies(versions, t, earlier, g)
  }

  ghost function Copies(versions: multiset<File>, t: nat, earlier: seq<File>, g: File): seq<File> {
    Repeat(File(g.content, t), if HasTwin(earlier, g.content) then 0 else versions[File(g.content, t)])
  }

  /** How often a version occurs among the guarded ones. */
  ghost function Share(versions: multiset<File>, t: nat, twins: seq<File>, x: File): nat {
    if x.mtime != t then (if x in twins then 1 else 0) else if HasTwin(twins, x.content) then versions[x] else 0
  }

  lemma CountOfThree(a: seq<File>, g: File, b: seq<File>, x: File)
    ensures multiset(a + [g] + b)[x] == multiset(a)[x] + (if x == g then 1 else 0) + multiset(b)[x]
  {
  }

  lemma OneMoreTwin(earlier: seq<File>, g: File, content: string)
    ensures HasTwin(earlier + [g], content) <==> HasTwin(earlier, content) || g.content == content
  {
    assert g in earlier + [g];
    assert forall f <- earlier :: f in earlier + [g];
  }

  lemma ShareStep(versions: multiset<File>, t: nat, earlier: seq<File>, g: File, x: File)
    requires g !in earlier && g.mtime != t
    ensures Share(versions, t, earlier + [g], x)
            == Share(versions, t, earlier, x) + (if x == g then 1 else 0) + multiset(Copies(versions, t, earlier, g))[x]
  {
    RepeatCount(File(g.content, t), if HasTwin(earlier, g.content) then 0 else versions[File(g.content, t)], x);
    OneMoreTwin(earlier, g, x.content);
  }

  lemma {:induction false} GuardedCount(versions: multiset<File>, t: nat, twins: seq<File>, x: File)
    requires AllBefore(twins, t) && Rising(twins)
    ensures multiset(Guarded(versions, t, twins))[x] == Share(versions, t, twins, x)
  {
    if twins != [] {
      var earlier, g := twins[..|twins| - 1], twins[|twins| - 1];
      assert twins == earlier + [g];
      GuardedCount(versions, t, earlier, x);
      CountOfThree(Guarded(versions, t, earlier), g, Copies(versions, t, earlier, g), x);
      ShareStep(versions, t, earlier, g, x);
    }
  }

  lemma {:induction false} LastOfRepeat(s: seq<File>, f: File, k: nat)
    requires Last(s).Some? && Last(s).value.content == f.content
    ensures Last(s + Repeat(f, k)) == Last(s)
  {
    if k == 0 {
      assert s + [] == s;
    } else {
      assert (s + Repeat(f, k))[..|s| + k - 1] == s + Repeat(f, k - 1);
      LastOfRepeat(s, f, k - 1);
    }
  }

  lemma {:induction false} GuardedLast(versions: multiset<File>, t: nat, twins: seq<File>)
    requires twins != [] && Rising(twins)
    ensures var r, g := Last(Guarded(versions, t, twins)), twins[|twins| - 1];
            r.Some? && r.value.content == g.content && r.value.mtime <= g.mtime
  {
    var earlier, g := twins[..|twins| - 1], twins[|twins| - 1];
    var before := Guarded(versions, t, earlier);
    if earlier != [] { GuardedLast(versions, t, earlier); }
    assert (before + [g])[..|before|] == before;
    LastOfRepeat(before + [g], File(g.content, t), |Copies(versions, t, earlier, g)|);
  }

  lemma {:induction false} GuardedStartsFirst(versions: multiset<File>, t: nat, twins: seq<File>)
    requires twins != []
    ensures Guarded(versions, t, twins) != [] && Guarded(versions, t, twins)[0] == twins[0]
    decreases |twins|
  {
    if |twins| > 1 { GuardedStartsFirst(versions, t, twins[..|twins| - 1]); }
  }

  lemma {:induction false} SomeOrder(m: multiset<File>) returns (s: seq<File>)
    ensures multiset(s) == m
    decreases |m|
  {
    if m == multiset{} {
      s := [];
    } else {
      var f :| f in m;
      var rest := SomeOrder(m - multiset{f});
      s := rest + [f];
    }
  }

  lemma {:induction false} OlderOnesDoNotHelp(s: seq<File>, rest: seq<File>, t: nat)
    requires Last(s).Some? && Last(s).value.mtime < t && AllBefore(rest, t)
    ensures Last(s + rest).Some? && Last(s + rest).value.mtime < t
  {
    if rest == [] {
      assert s + rest == s;
    } else {
      assert (s + rest)[..|s + rest| - 1] == s + rest[..|rest| - 1];
      OlderOnesDoNotHelp(s, rest[..|rest| - 1], t);
    }
  }

  // ----- the two together, for the file's own version and its copies

  /** The file's own version, if it is there. */
  function Own(fs: Files, target: Path): seq<File> { if target in fs then [fs[target]] else [] }

  /** If it is an order of these copies, the versions end with one of the newest. The file's own always comes first. */
  ghost predicate StaysIn(own: seq<File>, copies: multiset<File>, t: nat, order: seq<File>) {
    multiset(order) == copies ==> Last(own + order).Some? && Last(own + order).value.mtime == t
  }

  /** Such twins, the file's own version the first of them. */
  ghost predicate KeepsOutFrom(own: seq<File>, versions: multiset<File>, t: nat, twins: seq<File>) {
    own <= twins && KeepsOut(versions, t, twins)
  }

  /** The guarded versions are some of the versions, and the others are older. */
  lemma GuardedAreSome(versions: multiset<File>, t: nat, twins: seq<File>, x: File)
    requires IsNewest(versions, t) && KeepsOut(versions, t, twins)
    ensures multiset(Guarded(versions, t, twins))[x] <= versions[x]
    ensures multiset(Guarded(versions, t, twins))[x] < versions[x] ==> x.mtime < t
  {
    GuardedCount(versions, t, twins, x);
  }

  /** All the versions in an order that begins with the guarded ones and ends with an older one. */
  lemma TwinsLoseIt(versions: multiset<File>, t: nat, twins: seq<File>) returns (all: seq<File>)
    requires IsNewest(versions, t) && KeepsOut(versions, t, twins)
    ensures multiset(all) == versions && Last(all).Some? && Last(all).value.mtime < t
    ensures twins != [] && all != [] && all[0] == twins[0]
  {
    var first := Guarded(versions, t, twins);
    forall x ensures multiset(first)[x] <= versions[x] && (multiset(first)[x] < versions[x] ==> x.mtime < t) {
      GuardedAreSome(versions, t, twins, x);
    }
    var rest := Rest(versions, first, t);
    all := first + rest;
    GuardedEndsOlder(versions, t, twins);
    GuardedStartsFirst(versions, t, twins);
    OlderOnesDoNotHelp(first, rest, t);
  }

  lemma Rest(versions: multiset<File>, first: seq<File>, t: nat) returns (rest: seq<File>)
    requires forall x :: multiset(first)[x] <= versions[x] && (multiset(first)[x] < versions[x] ==> x.mtime < t)
    ensures multiset(first + rest) == versions && AllBefore(rest, t)
  {
    rest := SomeOrder(versions - multiset(first));
    forall x <- rest ensures x.mtime < t { assert x in multiset(rest); }
  }

  lemma GuardedEndsOlder(versions: multiset<File>, t: nat, twins: seq<File>)
    requires IsNewest(versions, t) && KeepsOut(versions, t, twins)
    ensures var r := Last(Guarded(versions, t, twins)); r.Some? && r.value.mtime < t
    ensures twins != []
  {
    var f :| f in versions && f.mtime == t;
    assert HasTwin(twins, f.content);
    GuardedLast(versions, t, twins);
    assert twins[|twins| - 1] in twins;
  }

  lemma {:induction false} LastIsOne(s: seq<File>)
    requires s != []
    ensures Last(s).Some? && Last(s).value in s
  {
    if |s| > 1 { LastIsOne(s[..|s| - 1]); }
  }

  /** All the versions in an order that ends with an older one: those that stayed for a while are such twins. */
  lemma LosingOrderHasTwins(versions: multiset<File>, t: nat, all: seq<File>)
    requires IsNewest(versions, t) && multiset(all) == versions
    requires !(Last(all).Some? && Last(all).value.mtime == t)
    ensures all != [] && KeepsOut(versions, t, Reign(all))
  {
    assert forall f :: f in all <==> f in multiset(all);
    assert all != [];
    LastIsOne(all);
    var r := Reign(all);
    ReignRises(all);
    ReignMembers(all);
    RisingIsBefore(r, t);
    forall f <- versions | f.mtime == t ensures HasTwin(r, f.content) { ReignHasTwins(all, t, f); }
  }

  lemma OrderLosesOnlyByTwins(own: seq<File>, copies: multiset<File>, t: nat, order: seq<File>)
    requires |own| <= 1 && IsNewest(multiset(own) + copies, t) && !StaysIn(own, copies, t, order)
    ensures KeepsOutFrom(own, multiset(own) + copies, t, Reign(own + order))
  {
    LosingOrderHasTwins(multiset(own) + copies, t, own + order);
    ReignStartsFirst(own + order);
  }

  lemma Cancel<T>(a: multiset<T>, b: multiset<T>, c: multiset<T>)
    requires a + c == b + c
    ensures a == b
  {
    forall x ensures a[x] == b[x] { assert (a + c)[x] == a[x] + c[x] && (b + c)[x] == b[x] + c[x]; }
  }

  lemma OwnTakenOff(own: seq<File>, copies: multiset<File>, all: seq<File>, twins: seq<File>) returns (order: seq<File>)
    requires |own| <= 1 && own <= twins && twins != [] && all != [] && all[0] == twins[0]
    requires multiset(all) == multiset(own) + copies
    ensures all == own + order && multiset(order) == copies
  {
    order := all[|own|..];
    assert own == all[..|own|];
    assert all == own + order;
    assert multiset(own + order) == multiset(order) + multiset(own);
    assert multiset(own) + copies == copies + multiset(own);
    Cancel(multiset(order), copies, multiset(own));
  }

  lemma TwinsLoseByAnOrder(own: seq<File>, copies: multiset<File>, t: nat, twins: seq<File>) returns (order: seq<File>)
    requires |own| <= 1 && IsNewest(multiset(own) + copies, t)
    requires KeepsOutFrom(own, multiset(own) + copies, t, twins)
    ensures !StaysIn(own, copies, t, order)
  {
    var all := TwinsLoseIt(multiset(own) + copies, t, twins);
    order := OwnTakenOff(own, copies, all, twins);
  }

  /** Of a file and its copies a newest stays, in whatever order the copies are settled, exactly when there are no such
      twins. */
  lemma VersionsKeepTheNewest(own: seq<File>, copies: multiset<File>, t: nat)
    requires |own| <= 1 && IsNewest(multiset(own) + copies, t)
    ensures (forall order :: StaysIn(own, copies, t, order))
            <==> !exists twins :: KeepsOutFrom(own, multiset(own) + copies, t, twins)
  {
    if order :| !StaysIn(own, copies, t, order) { OrderLosesOnlyByTwins(own, copies, t, order); }
    if twins :| KeepsOutFrom(own, multiset(own) + copies, t, twins) {
      var order := TwinsLoseByAnOrder(own, copies, t, twins);
    }
  }

  // ----- the orders of the copies on disk

  /** What p holds, if it is a copy of the target. */
  function CopyOf(fs: Files, resolved: Naming, target: Path, p: Path): seq<File> {
    if resolved(p.name).Some? && Real(resolved, p) == target && p in fs then [fs[p]] else []
  }

  /** What the copies of the target hold, in order. */
  function CopiesOf(fs: Files, conflicts: seq<Path>, resolved: Naming, target: Path): seq<File> {
    if conflicts == [] then []
    else
      CopiesOf(fs, conflicts[..|conflicts| - 1], resolved, target)
      + CopyOf(fs, resolved, target, conflicts[|conflicts| - 1])
  }

  lemma {:induction false} OwnComesFirst(fs: Files, conflicts: seq<Path>, resolved: Naming, target: Path)
    ensures Versions(fs, conflicts, resolved, target) == Own(fs, target) + CopiesOf(fs, conflicts, resolved, target)
  {
    if conflicts != [] { OwnComesFirst(fs, conflicts[..|conflicts| - 1], resolved, target); }
  }

  lemma {:induction false} CopiesOfConcat(fs: Files, a: seq<Path>, b: seq<Path>, resolved: Naming, target: Path)
    ensures CopiesOf(fs, a + b, resolved, target)
            == CopiesOf(fs, a, resolved, target) + CopiesOf(fs, b, resolved, target)
  {
    if b == [] {
      assert a + b == a;
    } else {
      assert (a + b)[..|a + b| - 1] == a + b[..|b| - 1];
      CopiesOfConcat(fs, a, b[..|b| - 1], resolved, target);
    }
  }

  /** One path taken out of the middle takes what it holds. */
  lemma CopiesWithout(fs: Files, a: seq<Path>, p: Path, b: seq<Path>, resolved: Naming, target: Path)
    ensures multiset(CopiesOf(fs, a + [p] + b, resolved, target))
            == multiset(CopiesOf(fs, a + b, resolved, target)) + multiset(CopyOf(fs, resolved, target, p))
  {
    CopiesOfConcat(fs, a + [p], b, resolved, target);
    CopiesOfConcat(fs, a, [p], resolved, target);
    CopiesOfConcat(fs, a, b, resolved, target);
    assert [p][..0] == [];
  }

  lemma CopiesOneMore(fs: Files, earlier: seq<Path>, p: Path, resolved: Naming, target: Path)
    ensures CopiesOf(fs, earlier + [p], resolved, target)
            == CopiesOf(fs, earlier, resolved, target) + CopyOf(fs, resolved, target, p)
    ensures multiset(earlier + [p]) == multiset(earlier) + multiset{p}
  {
    assert (earlier + [p])[..|earlier|] == earlier;
  }

  lemma TakeOut(s: seq<Path>, i: nat)
    requires i < |s|
    ensures s == s[..i] + [s[i]] + s[i + 1..]
    ensures multiset(s) == multiset(s[..i] + s[i + 1..]) + multiset{s[i]}
  {
    assert s == s[..i] + [s[i]] + s[i + 1..];
  }

  lemma LastOut(s: seq<Path>)
    requires s != []
    ensures multiset(s) == multiset(s[..|s| - 1]) + multiset{s[|s| - 1]}
  {
    assert s == s[..|s| - 1] + [s[|s| - 1]];
  }

  /** Another order of the same paths holds the same copies. */
  lemma {:induction false} SameCopies(fs: Files, order: seq<Path>, conflicts: seq<Path>, resolved: Naming, target: Path)
    requires multiset(order) == multiset(conflicts)
    ensures multiset(CopiesOf(fs, order, resolved, target)) == multiset(CopiesOf(fs, conflicts, resolved, target))
    decreases |order|
  {
    if order == [] {
      assert |multiset(conflicts)| == |conflicts|;
    } else {
      var p := order[|order| - 1];
      assert p in multiset(conflicts);
      var i :| 0 <= i < |conflicts| && conflicts[i] == p;
      TakeOut(conflicts, i);
      LastOut(order);
      Cancel(multiset(order[..|order| - 1]), multiset(conflicts[..i] + conflicts[i + 1..]), multiset{p});
      SameCopies(fs, order[..|order| - 1], conflicts[..i] + conflicts[i + 1..], resolved, target);
      assert multiset(CopiesOf(fs, order, resolved, target))
             == multiset(CopiesOf(fs, order[..|order| - 1], resolved, target))
                + multiset(CopyOf(fs, resolved, target, p));
      CopiesWithout(fs, conflicts[..i], p, conflicts[i + 1..], resolved, target);
    }
  }

  lemma {:induction false} HolderOf(fs: Files, conflicts: seq<Path>, resolved: Naming, target: Path, f: File)
    returns (i: nat)
    requires f in CopiesOf(fs, conflicts, resolved, target)
    ensures i < |conflicts| && CopyOf(fs, resolved, target, conflicts[i]) == [f]
  {
    var n := |conflicts| - 1;
    if f in CopiesOf(fs, conflicts[..n], resolved, target) {
      i := HolderOf(fs, conflicts[..n], resolved, target, f);
    } else {
      i := n;
    }
  }

  /** The last of the files is held by one of the paths; the other files, by the other paths. */
  lemma LastHolder(fs: Files, conflicts: seq<Path>, resolved: Naming, target: Path, files: seq<File>)
    returns (p: Path, others: seq<Path>)
    requires files != [] && multiset(files) == multiset(CopiesOf(fs, conflicts, resolved, target))
    ensures CopyOf(fs, resolved, target, p) == [files[|files| - 1]]
    ensures multiset(conflicts) == multiset(others) + multiset{p}
    ensures multiset(files[..|files| - 1]) == multiset(CopiesOf(fs, others, resolved, target))
  {
    var n := |files| - 1;
    var f := files[n];
    assert files == files[..n] + [f];
    assert f in multiset(CopiesOf(fs, conflicts, resolved, target));
    var i := HolderOf(fs, conflicts, resolved, target, f);
    p, others := conflicts[i], conflicts[..i] + conflicts[i + 1..];
    TakeOut(conflicts, i);
    CopiesWithout(fs, conflicts[..i], p, conflicts[i + 1..], resolved, target);
    Cancel(multiset(files[..n]), multiset(CopiesOf(fs, others, resolved, target)), multiset{f});
  }

  lemma NoneLeft(s: seq<File>)
    requires multiset(s) == multiset{}
    ensures s == []
  {
    assert |multiset(s)| == |s|;
  }

  lemma LastPutBack(fs: Files, earlier: seq<Path>, p: Path, conflicts: seq<Path>, resolved: Naming, target: Path,
                    files: seq<File>)
    requires files != [] && CopiesOf(fs, earlier, resolved, target) == files[..|files| - 1]
    requires CopyOf(fs, resolved, target, p) == [files[|files| - 1]]
    requires multiset(conflicts) == multiset(earlier) + multiset{p}
    ensures multiset(earlier + [p]) == multiset(conflicts) && CopiesOf(fs, earlier + [p], resolved, target) == files
  {
    CopiesOneMore(fs, earlier, p, resolved, target);
    assert files == files[..|files| - 1] + [files[|files| - 1]];
  }

  /** Every order of what the copies hold comes from an order of the paths. */
  lemma {:induction false} OrderOfPaths(fs: Files, conflicts: seq<Path>, resolved: Naming, target: Path,
                                        files: seq<File>)
    returns (order: seq<Path>)
    requires multiset(files) == multiset(CopiesOf(fs, conflicts, resolved, target))
    ensures multiset(order) == multiset(conflicts) && CopiesOf(fs, order, resolved, target) == files
    decreases |files|
  {
    if files == [] {
      NoneLeft(CopiesOf(fs, conflicts, resolved, target));
      order := conflicts;
    } else {
      var p, others := LastHolder(fs, conflicts, resolved, target, files);
      var earlier := OrderOfPaths(fs, others, resolved, target, files[..|files| - 1]);
      LastPutBack(fs, earlier, p, conflicts, resolved, target, files);
      order := earlier + [p];
    }
  }

  lemma DistinctByCount(s: seq<Path>)
    ensures Distinct(s) <==> forall p :: multiset(s)[p] <= 1
  {
    if Distinct(s) {
      forall p ensures multiset(s)[p] <= 1 { DistinctCountsOnce(s, p); }
    }
    if forall p :: multiset(s)[p] <= 1 {
      forall i, j | 0 <= i < j < |s| ensures s[i] != s[j] { OnceIsDistinct(s, i, j); }
    }
  }

  lemma OnceIsDistinct(s: seq<Path>, i: nat, j: nat)
    requires i < j < |s|
    ensures s[i] == s[j] ==> multiset(s)[s[i]] >= 2
  {
    TakeOut(s, i);
    var others := s[..i] + s[i + 1..];
    assert others[j - 1] == s[j];
    assert s[j] in multiset(others);
  }

  lemma {:induction false} DistinctCountsOnce(s: seq<Path>, p: Path)
    requires Distinct(s)
    ensures multiset(s)[p] <= 1
  {
    if s != [] {
      var n := |s| - 1;
      LastOut(s);
      DistinctCountsOnce(s[..n], p);
      if p == s[n] { assert p !in s[..n]; }
    }
  }

  lemma ReorderedIsPlain(order: seq<Path>, conflicts: seq<Path>, resolved: Naming, target: Path)
    requires multiset(order) == multiset(conflicts) && Distinct(conflicts) && Plain(conflicts, resolved, target)
    ensures Distinct(order) && Plain(order, resolved, target)
  {
    DistinctByCount(order);
    DistinctByCount(conflicts);
    assert forall p :: p in order <==> p in multiset(order);
    assert forall p :: p in conflicts <==> p in multiset(conflicts);
    forall p <- order | resolved(p.name).Some? && Real(resolved, p) == target ensures !Awaited(order, resolved, p) {
      assert p in conflicts && !Awaited(conflicts, resolved, p);
    }
  }

  /** If it is an order of the copies, settling them in it leaves one of the newest versions under the name. */
  ghost predicate NewestStaysIn(fs: Files, conflicts: seq<Path>, resolved: Naming, target: Path, t: nat,
                                order: seq<Path>) {
    multiset(order) == multiset(conflicts) ==>
      var end := SettledAll(fs, order, resolved);
      target in end && end[target].mtime == t
  }

  lemma PathsAndFiles(fs: Files, conflicts: seq<Path>, resolved: Naming, target: Path, t: nat, order: seq<Path>)
    requires multiset(order) == multiset(conflicts) && Distinct(conflicts) && Plain(conflicts, resolved, target)
    ensures NewestStaysIn(fs, conflicts, resolved, target, t, order)
            <==> StaysIn(Own(fs, target), multiset(CopiesOf(fs, conflicts, resolved, target)), t,
                         CopiesOf(fs, order, resolved, target))
  {
    ReorderedIsPlain(order, conflicts, resolved, target);
    PlainNameKeepsTheLast(fs, order, resolved, target);
    OwnComesFirst(fs, order, resolved, target);
    SameCopies(fs, order, conflicts, resolved, target);
  }

  /** All the versions of the name, in no order. */
  ghost function VersionsAt(fs: Files, conflicts: seq<Path>, resolved: Naming, target: Path): multiset<File> {
    multiset(Versions(fs, conflicts, resolved, target))
  }

  lemma EveryOrder(fs: Files, conflicts: seq<Path>, resolved: Naming, target: Path, t: nat)
    requires Distinct(conflicts) && Plain(conflicts, resolved, target)
    ensures (forall order :: NewestStaysIn(fs, conflicts, resolved, target, t, order))
            <==> forall files ::
                   StaysIn(Own(fs, target), multiset(CopiesOf(fs, conflicts, resolved, target)), t, files)
  {
    var own, copies := Own(fs, target), CopiesOf(fs, conflicts, resolved, target);
    if order :| !NewestStaysIn(fs, conflicts, resolved, target, t, order) {
      PathsAndFiles(fs, conflicts, resolved, target, t, order);
    }
    if files :| !StaysIn(own, multiset(copies), t, files) {
      var order := OrderOfPaths(fs, conflicts, resolved, target, files);
      PathsAndFiles(fs, conflicts, resolved, target, t, order);
    }
  }

  /** The newest version of a file stays under its name, in whatever order its copies are settled, exactly when no older
      twins, the file's own version the first of them, can keep it out. */
  lemma NewestStaysExactly(fs: Files, conflicts: seq<Path>, resolved: Naming, target: Path, t: nat)
    requires Distinct(conflicts) && Plain(conflicts, resolved, target)
    requires IsNewest(VersionsAt(fs, conflicts, resolved, target), t)
    ensures (forall order :: NewestStaysIn(fs, conflicts, resolved, target, t, order))
            <==> !exists twins ::
                   KeepsOutFrom(Own(fs, target), VersionsAt(fs, conflicts, resolved, target), t, twins)
  {
    OwnComesFirst(fs, conflicts, resolved, target);
    EveryOrder(fs, conflicts, resolved, target, t);
    VersionsKeepTheNewest(Own(fs, target), multiset(CopiesOf(fs, conflicts, resolved, target)), t);
  }

  /** The version is older than t, and the file itself or, unless the file is not there, later than it. */
  predicate CanReign(own: seq<File>, g: File, t: nat) {
    g.mtime < t && (own != [] ==> own[0] == g || own[0].mtime < g.mtime)
  }

  lemma HasOneTwin(versions: multiset<File>, t: nat, content: string, twins: seq<File>, g: File)
    requires g in twins && g.content == content && (forall f <- twins :: f in versions)
    requires AllBefore(twins, t) && Rising(twins)
    requires forall f: File <- versions :: f.mtime == t ==> f.content == content
    ensures KeepsOut(versions, t, twins)
  {
    assert HasTwin(twins, content);
  }

  lemma OneTwinIsEnough(own: seq<File>, versions: multiset<File>, t: nat, content: string, g: File)
    returns (twins: seq<File>)
    requires |own| <= 1 && (own != [] ==> own[0] in versions) && g in versions && g.content == content
    requires CanReign(own, g, t) && forall f: File <- versions :: f.mtime == t ==> f.content == content
    ensures KeepsOutFrom(own, versions, t, twins)
  {
    if own == [] || own[0] == g {
      twins := [g];
      assert own <= [g];
    } else {
      twins := [own[0], g];
      assert own <= [own[0], g];
    }
    HasOneTwin(versions, t, content, twins, g);
  }

  lemma SomeTwinReigns(own: seq<File>, versions: multiset<File>, t: nat, content: string, twins: seq<File>)
    returns (g: File)
    requires KeepsOutFrom(own, versions, t, twins) && IsNewest(versions, t)
    requires forall f: File <- versions :: f.mtime == t ==> f.content == content
    ensures g in versions && g.content == content && CanReign(own, g, t)
  {
    var f :| f in versions && f.mtime == t;
    assert HasTwin(twins, f.content);
    var i :| 0 <= i < |twins| && twins[i].content == content;
    g := twins[i];
    assert own != [] ==> own[0] == twins[0];
  }

  /** When the newest versions all hold the same: exactly when no older version of that content is the file's own or
      later than it; when the file is not there, exactly when no version of that content is older. */
  lemma OneNewestContent(fs: Files, conflicts: seq<Path>, resolved: Naming, target: Path, t: nat, content: string)
    requires Distinct(conflicts) && Plain(conflicts, resolved, target)
    requires IsNewest(VersionsAt(fs, conflicts, resolved, target), t)
    requires forall f: File <- VersionsAt(fs, conflicts, resolved, target) :: f.mtime == t ==> f.content == content
    ensures (forall order :: NewestStaysIn(fs, conflicts, resolved, target, t, order))
            <==> !exists g ::
                   g in VersionsAt(fs, conflicts, resolved, target) && g.content == content
                   && CanReign(Own(fs, target), g, t)
  {
    var own, versions := Own(fs, target), VersionsAt(fs, conflicts, resolved, target);
    OwnComesFirst(fs, conflicts, resolved, target);
    NewestStaysExactly(fs, conflicts, resolved, target, t);
    if g :| g in versions && g.content == content && CanReign(own, g, t) {
      var twins := OneTwinIsEnough(own, versions, t, content, g);
    }
    if twins: seq<File> :| KeepsOutFrom(own, versions, t, twins) {
      var g := SomeTwinReigns(own, versions, t, content, twins);
    }
  }

  // ----- the same on disk

  const REAL := Path(["Author", "Title (1)"], "notes.txt")

  const FIRST := REAL.(name := "notes.sync-conflict-20240101-000000-AAAAAAA.txt")

  const SECOND := REAL.(name := "notes.sync-conflict-20240102-000000-BBBBBBB.txt")

  const DISK: Files := map[REAL := File("draft", 1), FIRST := File("draft", 5), SECOND := File("other", 3)]

  function NameOf(name: string): Option<string> {
    if name == FIRST.name || name == SECOND.name then Some(REAL.name) else None
  }

  lemma NamesDiffer()
    ensures FIRST != SECOND && FIRST != REAL && SECOND != REAL && Shortens(NameOf)
  {
    assert FIRST.name[27] != SECOND.name[27];
  }

  lemma NotesSettled()
    ensures SettledAll(DISK, [FIRST, SECOND], NameOf) == map[REAL := File("other", 3)]
  {
    NamesDiffer();
    var one := SettledOne(DISK, NameOf, FIRST);
    assert one == map[REAL := File("draft", 1), SECOND := File("other", 3)];
    assert SettledOne(one, NameOf, SECOND) == map[REAL := File("other", 3)];
    assert [FIRST, SECOND][..1] == [FIRST] && [FIRST][..0] == [];
    assert SettledAll(DISK, [FIRST], NameOf) == one;
  }

  /** A draft, a copy of it touched later, and another text written in between: the later copy is dropped as identical,
      and the text in between then displaces the draft, although the draft is what was written last. */
  method TheNewerCopyLoses() returns (library: Library)
    ensures library.states != [] && library.states[0] == DISK && IsNewest(multiset(DISK.Values), 5)
    ensures Outside(library.files) == map[REAL := File("other", 3)]
  {
    NamesDiffer();
    NotesSettled();
    library := new Library(DISK);
    assert Outside(DISK) - SetOf([]) == DISK;
    assert DISK[FIRST] in DISK.Values && DISK[FIRST].mtime == 5;
    var changed := library.ResolveConflicts([], [FIRST, SECOND], NameOf);
  }
}
