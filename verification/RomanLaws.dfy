/** What numerals look like, digit by decimal digit (internal/audiomap/audiomap.go, `toRoman`). */
module RomanLaws {
  import opened Roman

  /** One decimal digit, written with the letters for one, five and ten of its place. */
  function Digit(d: nat, one: string, five: string, ten: string): string
    requires d < 10
  {
    match d
    case 0 => "" case 1 => one case 2 => one + one case 3 => one + one + one case 4 => one + five
    case 5 => five case 6 => five + one case 7 => five + one + one case 8 => five + one + one + one
    case _ => one + ten
  }

  function Thousands(n: nat): string { if n == 0 then "" else "m" + Thousands(n - 1) }

  lemma Take(n: int, k: nat)
    requires k < ROWS && n >= RowValue(k)
    ensures Greedy(n, k) == RowText(k) + Greedy(n - RowValue(k), k)
  {
  }

  lemma Skip(n: int, k: nat)
    requires k < ROWS && n < RowValue(k)
    ensures Greedy(n, k) == Greedy(n, k + 1)
  {
  }

  /** The rows of one place: nine, five, four and one of it. */
  ghost predicate Place(k: nat, u: int, one: string, five: string, ten: string) {
    && k + 3 < ROWS
    && RowValue(k) == 9 * u && RowText(k) == one + ten && RowValue(k + 1) == 5 * u && RowText(k + 1) == five
    && RowValue(k + 2) == 4 * u && RowText(k + 2) == one + five && RowValue(k + 3) == u && RowText(k + 3) == one
  }

  lemma OneMore(d: nat, one: string, five: string, ten: string, t: string)
    requires 1 <= d <= 3
    ensures one + (Digit(d - 1, one, five, ten) + t) == Digit(d, one, five, ten) + t
  {
    assert one + (Digit(d - 1, one, five, ten) + t) == (one + Digit(d - 1, one, five, ten)) + t;
    assert (one + one) + one == one + (one + one);
  }

  lemma FiveMore(d: nat, one: string, five: string, ten: string, t: string)
    requires 5 <= d <= 8
    ensures five + (Digit(d - 5, one, five, ten) + t) == Digit(d, one, five, ten) + t
  {
    var e := Digit(d - 5, one, five, ten);
    assert five + (e + t) == (five + e) + t;
    assert five + (one + one) == five + one + one;
    assert five + (one + one + one) == five + one + one + one;
  }

  /** Up to three ones of a place. */
  lemma OnesWritten(k: nat, u: int, one: string, five: string, ten: string, d: nat, n: int, rest: int)
    requires Place(k, u, one, five, ten) && d <= 3 && 0 <= rest < u && n == d * u + rest
    ensures Greedy(n, k + 3) == Digit(d, one, five, ten) + Greedy(rest, k + 4)
    decreases d
  {
    if d == 0 {
      Skip(n, k + 3);
    } else {
      var m := n - u;
      assert m == (d - 1) * u + rest;
      assert n >= u;
      Take(n, k + 3);
      OnesWritten(k, u, one, five, ten, d - 1, m, rest);
      OneMore(d, one, five, ten, Greedy(rest, k + 4));
    }
  }

  lemma UpToFour(k: nat, u: int, one: string, five: string, ten: string, d: nat, n: int, rest: int)
    requires Place(k, u, one, five, ten) && d <= 4 && 0 <= rest < u && n == d * u + rest
    ensures Greedy(n, k + 2) == Digit(d, one, five, ten) + Greedy(rest, k + 4)
  {
    if d == 4 {
      Take(n, k + 2);
      Skip(rest, k + 2);
      Skip(rest, k + 3);
    } else {
      Below(d, 4, u, n, rest);
      Skip(n, k + 2);
      OnesWritten(k, u, one, five, ten, d, n, rest);
    }
  }

  lemma {:induction false} Below(d: nat, e: nat, u: int, n: int, rest: int)
    requires d < e && 0 <= rest < u && n == d * u + rest
    ensures n < e * u
    decreases e
  {
    assert e * u == (e - 1) * u + u;
    if d + 1 < e { Below(d, e - 1, u, n, rest); }
  }

  lemma DigitWritten(k: nat, u: int, one: string, five: string, ten: string, d: nat, n: int, rest: int)
    requires Place(k, u, one, five, ten) && d < 10 && 0 <= rest < u && n == d * u + rest
    ensures Greedy(n, k) == Digit(d, one, five, ten) + Greedy(rest, k + 4)
  {
    if d == 9 {
      Take(n, k);
      Skip(rest, k);
      Skip(rest, k + 1);
      Skip(rest, k + 2);
      Skip(rest, k + 3);
    } else {
      Below(d, 9, u, n, rest);
      Skip(n, k);
      if d >= 5 {
        FivesWritten(k, u, one, five, ten, d, n, rest);
      } else {
        Below(d, 5, u, n, rest);
        Skip(n, k + 1);
        UpToFour(k, u, one, five, ten, d, n, rest);
      }
    }
  }

  lemma FivesWritten(k: nat, u: int, one: string, five: string, ten: string, d: nat, n: int, rest: int)
    requires Place(k, u, one, five, ten) && 5 <= d <= 8 && 0 <= rest < u && n == d * u + rest
    ensures Greedy(n, k + 1) == Digit(d, one, five, ten) + Greedy(rest, k + 4)
  {
    var e, m := d - 5, n - 5 * u;
    assert m == e * u + rest && m >= 0;
    Take(n, k + 1);
    Below(e, 5, u, m, rest);
    Skip(m, k + 1);
    UpToFour(k, u, one, five, ten, e, m, rest);
    FiveMore(d, one, five, ten, Greedy(rest, k + 4));
  }

  lemma {:induction false} ThousandsWritten(q: nat, rest: int)
    requires 0 <= rest < 1000
    ensures Greedy(1000 * q + rest, 0) == Thousands(q) + Greedy(rest, 1)
    decreases q
  {
    if q == 0 {
      Skip(rest, 0);
    } else {
      Take(1000 * q + rest, 0);
      ThousandsWritten(q - 1, rest);
      var t := Greedy(rest, 1);
      assert "m" + (Thousands(q - 1) + t) == ("m" + Thousands(q - 1)) + t;
    }
  }

  lemma TensWritten(x: nat, i: nat, n: int)
    requires x < 10 && i < 10 && n == 10 * x + i
    ensures Greedy(n, 5) == Digit(x, "x", "l", "c") + Digit(i, "i", "v", "x")
  {
    DigitWritten(5, 10, "x", "l", "c", x, n, i);
    DigitWritten(9, 1, "i", "v", "x", i, i, 0);
    assert Digit(i, "i", "v", "x") + Greedy(0, 13) == Digit(i, "i", "v", "x");
  }

  /** A numeral: an m for each thousand, then hundreds, tens and ones, each by the one pattern of ones, fives and
      tens. */
  lemma NumeralIs(q: nat, c: nat, x: nat, i: nat)
    requires c < 10 && x < 10 && i < 10
    ensures Numeral(1000 * q + 100 * c + 10 * x + i)
            == Thousands(q) + (Digit(c, "c", "d", "m") + (Digit(x, "x", "l", "c") + Digit(i, "i", "v", "x")))
  {
    ThousandsWritten(q, 100 * c + 10 * x + i);
    DigitWritten(1, 100, "c", "d", "m", c, 100 * c + 10 * x + i, 10 * x + i);
    TensWritten(x, i, 10 * x + i);
  }

  /** So it is read back as that number. */
  lemma NumeralReads(q: nat, c: nat, x: nat, i: nat)
    requires c < 10 && x < 10 && i < 10 && q + c + x + i > 0
    ensures Value(Thousands(q) + (Digit(c, "c", "d", "m") + (Digit(x, "x", "l", "c") + Digit(i, "i", "v", "x"))))
            == 1000 * q + 100 * c + 10 * x + i
  {
    NumeralIs(q, c, x, i);
    RoundTrip(1000 * q + 100 * c + 10 * x + i);
  }
}
