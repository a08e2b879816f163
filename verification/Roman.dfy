/** Roman numerals as chapter titles spell them (internal/audiomap/audiomap.go, `roman` and `toRoman`).

  Numerals are unbounded: a thousand is one `m`, so 4000 is "mmmm".
*/
module Roman {

  const ROWS: nat := 13

  /** The value in row k of the table `toRoman` walks, largest first. */
  function RowValue(k: nat): (v: int)
    requires k < ROWS
  {
    match k
    case 0 => 1000 case 1 => 900 case 2 => 500 case 3 => 400
    case 4 => 100 case 5 => 90 case 6 => 50 case 7 => 40
    case 8 => 10 case 9 => 9 case 10 => 5 case 11 => 4 case _ => 1
  }

  function RowText(k: nat): (s: string)
    requires k < ROWS
  {
    match k
    case 0 => "m" case 1 => "cm" case 2 => "d" case 3 => "cd"
    case 4 => "c" case 5 => "xc" case 6 => "l" case 7 => "xl"
    case 8 => "x" case 9 => "ix" case 10 => "v" case 11 => "iv" case _ => "i"
  }

  /** The value of one letter; a missing map key reads as 0. */
  function Letter(c: char): (v: int) {
    match c
    case 'i' => 1 case 'v' => 5 case 'x' => 10 case 'l' => 50
    case 'c' => 100 case 'd' => 500 case 'm' => 1000 case _ => 0
  }

  /** What rows k and later still write for n. */
  function Greedy(n: int, k: nat): (s: string)
    requires k <= ROWS
    decreases ROWS - k, n
  {
    if k == ROWS then ""
    else if n >= RowValue(k) then RowText(k) + Greedy(n - RowValue(k), k)
    else Greedy(n, k + 1)
  }

  function Numeral(n: int): (s: string) { Greedy(n, 0) }

  /** The subtractive reading of a word, left to right. */
  function Reading(s: string): (v: int) {
    if s == "" then 0
    else if |s| > 1 && Letter(s[1]) > Letter(s[0]) then Reading(s[1..]) - Letter(s[0])
    else Reading(s[1..]) + Letter(s[0])
  }

  /** `roman`: the value of a well-formed numeral, 0 for anything else. */
  function Value(s: string): (v: int) {
    var total := Reading(s);
    if total <= 0 || Numeral(total) != s then 0 else total
  }

  /** `toRoman`, as its two loops run. */
  method ToRoman(number: int) returns (text: string)
    ensures text == Numeral(number)
  {
    text := "";
    var n := number;
    for k := 0 to ROWS
      invariant text + Greedy(n, k) == Numeral(number)
    {
      while n >= RowValue(k)
        invariant text + Greedy(n, k) == Numeral(number)
      {
        assert text + (RowText(k) + Greedy(n - RowValue(k), k)) == text + RowText(k) + Greedy(n - RowValue(k), k);
        text := text + RowText(k);
        n := n - RowValue(k);
      }
    }
  }

  /** `roman`, as its loop runs. */
  method FromRoman(s: string) returns (v: int)
    ensures v == Value(s)
  {
    var total := 0;
    for i := 0 to |s|
      invariant total + Reading(s[i..]) == Reading(s)
    {
      assert s[i..][1..] == s[i + 1..];
      if i + 1 < |s| && Letter(s[i + 1]) > Letter(s[i]) {
        total := total - Letter(s[i]);
      } else {
        total := total + Letter(s[i]);
      }
    }
    var again := ToRoman(total);
    v := if total <= 0 || again != s then 0 else total;
  }

  /** Reading a letter or a subtractive pair off the front, when nothing after it outranks it. */
  lemma ReadRow(k: nat, rest: string)
    requires k < ROWS
    requires rest != "" ==> Letter(rest[0]) <= Letter(RowText(k)[|RowText(k)| - 1])
    ensures Reading(RowText(k) + rest) == RowValue(k) + Reading(rest)
    ensures Letter(RowText(k)[0]) <= RowValue(k)
  {
    var s := RowText(k) + rest;
    if |RowText(k)| == 1 {
      assert s[1..] == rest;
    } else {
      assert s[1..][1..] == rest;
    }
  }

  /** A letter no greater than what row k leaves never outranks the last letter of row k. */
  lemma LetterFits(k: nat, rest: int, c: char)
    requires k < ROWS && 0 < Letter(c) <= rest && (k > 0 ==> rest + RowValue(k) < RowValue(k - 1))
    ensures Letter(c) <= Letter(RowText(k)[|RowText(k)| - 1])
  {
  }

  /** Rows at and after k, on a remainder below the row before k, are read back exactly. */
  lemma {:induction false} GreedyReads(n: int, k: nat)
    requires 0 <= n && k <= ROWS
    requires k > 0 ==> n < RowValue(k - 1)
    ensures Reading(Greedy(n, k)) == n
    ensures var s := Greedy(n, k); s != "" ==> 0 < Letter(s[0]) <= n
    decreases ROWS - k, n
  {
    if k == ROWS {
    } else if n >= RowValue(k) {
      GreedyReads(n - RowValue(k), k);
      var rest := Greedy(n - RowValue(k), k);
      if rest != "" { LetterFits(k, n - RowValue(k), rest[0]); }
      ReadRow(k, rest);
    } else {
      GreedyReads(n, k + 1);
    }
  }

  /** Every number is read back from its own numeral. */
  lemma RoundTrip(n: int)
    requires n >= 1
    ensures Value(Numeral(n)) == n
  {
    GreedyReads(n, 0);
  }

  lemma NumeralInjective(n: int, m: int)
    requires n >= 1 && m >= 1 && Numeral(n) == Numeral(m)
    ensures n == m
  {
    RoundTrip(n);
    RoundTrip(m);
  }

  /** `roman` accepts exactly the words `toRoman` writes, each with the number it was written for. */
  lemma AcceptsExactlyNumerals(s: string)
    ensures forall n | n >= 1 :: Value(s) == n <==> s == Numeral(n)
    ensures Value(s) == 0 <==> forall n | n >= 1 :: s != Numeral(n)
  {
    forall n | n >= 1
      ensures Value(s) == n <==> s == Numeral(n)
    {
      RoundTrip(n);
    }
  }
}
