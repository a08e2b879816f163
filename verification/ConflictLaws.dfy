/** What settling one conflict copy does, case by case (scripts/calibre-audit.py, `resolve_conflicts`). */
module ConflictLaws {
  import opened Wrappers
  import opened ConflictAudit

  /** The copy is gone; the name it stands in for holds the copy if nothing was there or if the copy differs and is
      later, and what it held otherwise; nothing else changes. */
  lemma SettledIs(fs: Files, resolved: Naming, p: Path, target: Path)
    requires p in fs && resolved(p.name).Some? && target == Path(p.dir, resolved(p.name).value) && target != p
    ensures var b := SettledOne(fs, resolved, p);
            && b.Keys == fs.Keys - {p} + {target}
            && (forall q | q in fs && q != p && q != target :: b[q] == fs[q])
            && (target !in fs ==> b[target] == fs[p])
            && (target in fs && fs[target].content == fs[p].content ==> b[target] == fs[target])
            && (target in fs && fs[target].content != fs[p].content && fs[p].mtime > fs[target].mtime ==>
                  b[target] == fs[p])
            && (target in fs && fs[p].mtime <= fs[target].mtime ==> b[target] == fs[target])
  {
  }

  /** A name nobody recognises stays. */
  lemma UnknownStays(fs: Files, resolved: Naming, p: Path)
    requires resolved(p.name) == None
    ensures SettledOne(fs, resolved, p) == fs
  {
  }

  /** The copies are settled one after the other. */
  lemma {:induction false} InTurn(fs: Files, first: Path, rest: seq<Path>, resolved: Naming)
    ensures SettledAll(fs, [first] + rest, resolved) == SettledAll(SettledOne(fs, resolved, first), rest, resolved)
  {
    var all := [first] + rest;
    if rest == [] {
      assert all == [first] && [first][..0] == [];
    } else {
      assert all[..|all| - 1] == [first] + rest[..|rest| - 1];
      InTurn(fs, first, rest[..|rest| - 1], resolved);
    }
  }

  /** What a decimal is worth. */
  function Worth(s: string): int {
    if s == "" then 0 else 10 * Worth(s[..|s| - 1]) + (s[|s| - 1] as int - 48)
  }

  lemma {:induction false} DigitsAre(n: nat)
    ensures var s := Digits(n);
            && Worth(s) == n && s != "" && (n > 0 ==> s[0] != '0') && forall i | 0 <= i < |s| :: '0' <= s[i] <= '9'
  {
    var s := Digits(n);
    if n < 10 {
      assert s[..0] == "";
    } else {
      DigitsAre(n / 10);
      DigitsAre(n % 10);
      assert Digits(n % 10) == [('0' as int + n % 10) as char];
      assert s[..|s| - 1] == Digits(n / 10) && s[|s| - 1] as int == 48 + n % 10;
    }
  }
}
