/** Screenshot file names, `%09d.jpg`: when two of them collide, and when their
    lexicographic order is the order of the times they stand for. The directory is
    sorted by name later on, so that order decides which picture comes first in the
    notes; the format takes 32 bits of a 64-bit time. */
module FileNames {
  import opened Decimals
  import opened Sorting

  const WRAP: nat := 0x1_0000_0000
  const BILLION: nat := 1_000_000_000

  /** Filled with zeros on the left to the given width. */
  function Padded(s: string, width: nat): (r: string)
    decreases width - |s|
  {
    if |s| >= width then s else Padded("0" + s, width)
  }

  /** The 32-bit argument that `%d` takes out of a 64-bit value. */
  function Int32(ms: nat): (v: int)
    ensures -(WRAP / 2) <= v < WRAP / 2
  {
    if ms % WRAP < WRAP / 2 then ms % WRAP else ms % WRAP - WRAP
  }

  function Formatted(v: int): (r: string)
  {
    if v >= 0 then Padded(Decimal(v), 9) else "-" + Padded(Decimal(-v), 8)
  }

  function NameOf(ms: nat): (r: string)
  {
    Formatted(Int32(ms)) + ".jpg"
  }

  /** The name of a time below 2^31: its numeral, nine digits or more, and the extension.
      From there to 2^32 the number printed is negative. */
  lemma NameShows(ms: nat)
    requires ms < 0x1_0000_0000
    ensures |NameOf(ms)| >= 13 && NameOf(ms)[|NameOf(ms)| - 4..] == ".jpg"
    ensures ms < 0x8000_0000 ==>
      var digits := NameOf(ms)[..|NameOf(ms)| - 4];
      AllDigits(digits) && Value(digits) == ms && (|digits| > 9 ==> digits[0] != '0')
    ensures ms >= 0x8000_0000 ==>
      var digits := NameOf(ms)[1..|NameOf(ms)| - 4];
      && NameOf(ms)[0] == '-' && AllDigits(digits) && Value(digits) == 0x1_0000_0000 - ms
      && (|digits| > 8 ==> digits[0] != '0')
  {
    Low32(ms);
    var text := Formatted(Int32(ms));
    FormattedShows(Int32(ms));
    assert NameOf(ms)[..|NameOf(ms)| - 4] == text;
    assert NameOf(ms)[1..|NameOf(ms)| - 4] == text[1..];
  }

  lemma Low32(ms: nat)
    requires ms < 0x1_0000_0000
    ensures Int32(ms) == if ms < 0x8000_0000 then ms else ms - 0x1_0000_0000
  {
  }

  /** At least nine characters: the numeral filled with zeros, after a sign if negative. */
  lemma FormattedShows(v: int)
    ensures var text := Formatted(v);
      && |text| >= 9
      && (v >= 0 ==> AllDigits(text) && Value(text) == v && (|text| > 9 ==> text[0] != '0'))
      && (v < 0 ==>
            text[0] == '-' && AllDigits(text[1..]) && Value(text[1..]) == -v && (|text[1..]| > 8 ==> text[1] != '0'))
  {
    if v >= 0 {
      DecimalIs(v);
      PaddedValue(Decimal(v), 9);
      PaddedStart(Decimal(v), 9);
    } else {
      DecimalIs(-v);
      PaddedValue(Decimal(-v), 8);
      PaddedStart(Decimal(-v), 8);
      assert Formatted(v)[1..] == Padded(Decimal(-v), 8);
    }
  }

  lemma PaddedStart(s: string, width: nat)
    requires AllDigits(s)
    ensures |Padded(s, width)| > width ==> Padded(s, width) == s
  {
    PaddedValue(s, width);
  }

  // ---------------------------------------------------------------- what a name tells

  lemma {:induction false} ZeroInFront(s: string)
    requires AllDigits(s)
    ensures AllDigits("0" + s) && Value("0" + s) == Value(s)
  {
    if s == [] {
      assert "0"[..0] == "";
    } else {
      ZeroInFront(s[..|s| - 1]);
      assert ("0" + s)[..|s|] == "0" + s[..|s| - 1];
    }
  }

  lemma {:induction false} PaddedValue(s: string, width: nat)
    requires AllDigits(s)
    ensures AllDigits(Padded(s, width)) && Value(Padded(s, width)) == Value(s)
    ensures |Padded(s, width)| == if |s| >= width then |s| else width
    decreases width - |s|
  {
    if |s| < width {
      ZeroInFront(s);
      PaddedValue("0" + s, width);
    }
  }

  lemma FormattedInjective(v: int, w: int)
    requires Formatted(v) == Formatted(w)
    ensures v == w
  {
    var x, y := if v >= 0 then v else -v, if w >= 0 then w else -w;
    ValueOfDecimal(x);
    ValueOfDecimal(y);
    PaddedValue(Decimal(x), 9);
    PaddedValue(Decimal(y), 9);
    PaddedValue(Decimal(x), 8);
    PaddedValue(Decimal(y), 8);
    assert v >= 0 ==> '0' <= Formatted(v)[0] <= '9';
    assert w >= 0 ==> '0' <= Formatted(w)[0] <= '9';
    assert v < 0 ==> Formatted(v)[1..] == Padded(Decimal(x), 8);
    assert w < 0 ==> Formatted(w)[1..] == Padded(Decimal(y), 8);
  }

  /** Two frames share a file exactly when their times agree in the low 32 bits. */
  lemma NamesCollideIff(a: nat, b: nat)
    ensures NameOf(a) == NameOf(b) <==> a % WRAP == b % WRAP
  {
    if NameOf(a) == NameOf(b) {
      assert NameOf(a)[..|NameOf(a)| - 4] == Formatted(Int32(a));
      assert NameOf(b)[..|NameOf(b)| - 4] == Formatted(Int32(b));
      FormattedInjective(Int32(a), Int32(b));
    }
  }

  // ------------------------------------------------------------------------- order

  lemma {:induction false} SnocOrder(x: string, y: string, c: char, d: char)
    requires |x| == |y|
    ensures StrLe(x + [c], y + [d]) <==> if x == y then c <= d else StrLe(x, y)
  {
    if x == [] {
      assert x + [c] == [c] && y + [d] == [d];
    } else {
      assert (x + [c])[1..] == x[1..] + [c] && (y + [d])[1..] == y[1..] + [d];
      assert x == [x[0]] + x[1..] && y == [y[0]] + y[1..];
      SnocOrder(x[1..], y[1..], c, d);
    }
  }

  /** Among numerals of one length, lexicographic order is numeric order. */
  lemma {:induction false} NumeralOrder(x: string, y: string)
    requires AllDigits(x) && AllDigits(y) && |x| == |y|
    ensures StrLe(x, y) <==> Value(x) <= Value(y)
    ensures Value(x) == Value(y) ==> x == y
  {
    if x != [] {
      var p, q := x[..|x| - 1], y[..|y| - 1];
      var c, d := x[|x| - 1], y[|y| - 1];
      assert x == p + [c] && y == q + [d];
      NumeralOrder(p, q);
      SnocOrder(p, q, c, d);
    }
  }

  lemma {:induction false} SuffixOrder(x: string, y: string, suffix: string)
    requires |x| == |y|
    ensures StrLe(x + suffix, y + suffix) <==> StrLe(x, y)
  {
    if x == [] {
      StrLeTotal(x + suffix, y + suffix);
      assert x + suffix == suffix && y + suffix == suffix;
    } else {
      assert (x + suffix)[1..] == x[1..] + suffix && (y + suffix)[1..] == y[1..] + suffix;
      SuffixOrder(x[1..], y[1..], suffix);
    }
  }

  function Power(k: nat): (p: nat)
    ensures p >= 1
  {
    if k == 0 then 1 else 10 * Power(k - 1)
  }

  lemma {:induction false} NumeralLength(n: nat, k: nat)
    requires n < Power(k) && k >= 1
    ensures |Decimal(n)| <= k
  {
    if n >= 10 {
      assert k >= 2 by {
        assert Power(1) == 10 * Power(0);
      }
      NumeralLength(n / 10, k - 1);
    }
  }

  lemma NineDigits(n: nat)
    requires n < BILLION
    ensures |Padded(Decimal(n), 9)| == 9
    ensures AllDigits(Padded(Decimal(n), 9)) && Value(Padded(Decimal(n), 9)) == n
  {
    assert Power(9) == BILLION;
    NumeralLength(n, 9);
    PaddedValue(Decimal(n), 9);
    ValueOfDecimal(n);
  }

  lemma NameBelowBillion(n: nat)
    requires n < BILLION
    ensures NameOf(n) == Padded(Decimal(n), 9) + ".jpg"
  {
    Positive(n);
  }

  lemma Positive(n: nat)
    requires n < WRAP / 2
    ensures Int32(n) == n
  {
    assert n % WRAP == n;
  }

  lemma PaddedOrder(x: string, y: string, a: nat, b: nat)
    requires AllDigits(x) && AllDigits(y) && |x| == |y| && Value(x) == a && Value(y) == b
    ensures StrLe(x + ".jpg", y + ".jpg") <==> a <= b
  {
    NumeralOrder(x, y);
    SuffixOrder(x, y, ".jpg");
  }

  /** Below 10^9 ms, about eleven and a half days, the order of the names is the order
      of the times. */
  lemma ChronologicalBelowBillion(a: nat, b: nat)
    requires a < BILLION && b < BILLION
    ensures StrLe(NameOf(a), NameOf(b)) <==> a <= b
  {
    NameBelowBillion(a);
    NameBelowBillion(b);
    NineDigits(a);
    NineDigits(b);
    PaddedOrder(Padded(Decimal(a), 9), Padded(Decimal(b), 9), a, b);
  }

  /** The names of all times below the bound sort in time order. */
  ghost predicate OrderedBelow(bound: nat)
  {
    forall a: nat, b: nat | a < bound && b < bound :: StrLe(NameOf(a), NameOf(b)) <==> a <= b
  }

  lemma {:induction false} PowerNumeral(k: nat)
    ensures |Decimal(Power(k))| == k + 1 && Decimal(Power(k))[0] == '1'
  {
    if k > 0 {
      PowerNumeral(k - 1);
      assert Power(k) / 10 == Power(k - 1);
    }
  }

  lemma {:induction false} NinesNumeral(k: nat)
    requires k >= 1
    ensures |Decimal(Power(k) - 1)| == k && Decimal(Power(k) - 1)[0] == '9'
  {
    if k > 1 {
      NinesNumeral(k - 1);
      assert (Power(k) - 1) / 10 == Power(k - 1) - 1;
      assert Power(k - 1) >= 10 by {
        assert Power(k - 1) == 10 * Power(k - 2);
      }
    } else {
      assert Power(1) == 10 * Power(0);
    }
  }

  lemma NextNameSortsFirst()
    ensures StrLe(NameOf(BILLION), NameOf(BILLION - 1))
  {
    PowerNumeral(9);
    NinesNumeral(9);
    assert Power(9) == BILLION;
    NameBelowBillion(BILLION - 1);
    Positive(BILLION);
    var x, y := Decimal(BILLION), Decimal(BILLION - 1);
    assert |x| == 10 && x[0] == '1' && |y| == 9 && y[0] == '9';
    assert NameOf(BILLION) == x + ".jpg" && NameOf(BILLION - 1) == y + ".jpg";
    assert NameOf(BILLION)[0] == '1' && NameOf(BILLION - 1)[0] == '9';
  }

  /** 10^9 is the exact limit: the next name sorts before its predecessor. */
  lemma OrderedBelowIff(bound: nat)
    ensures OrderedBelow(bound) <==> bound <= BILLION
  {
    if bound <= BILLION {
      forall a: nat, b: nat | a < bound && b < bound
        ensures StrLe(NameOf(a), NameOf(b)) <==> a <= b
      {
        ChronologicalBelowBillion(a, b);
      }
    } else {
      NextNameSortsFirst();
      assert StrLe(NameOf(BILLION), NameOf(BILLION - 1)) && !(BILLION <= BILLION - 1);
    }
  }
}
