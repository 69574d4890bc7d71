/** Which values a YAML 1.2.2 reader would not take for strings, and whether the
    reserved-word and number tests of `markdown_exporter.rs` recognise them. The tests
    are considered here without the plain pattern, which by itself already keeps
    everything that begins with a digit, a sign or a dot from being printed plain. */
module YamlNumbers {
  import opened Decimals
  import opened YamlPrinter
  import opened YamlReader

  lemma TrimFixed(s: string)
    requires s != [] && !IsWhite(s[0]) && !IsWhite(s[|s| - 1])
    ensures Trim(s) == s
  {
  }

  lemma {:induction false} RunStops(s: string, n: nat)
    requires n <= |s| && AllDigits(s[..n]) && (n < |s| ==> !IsDigit(s[n]))
    ensures DigitRun(s) == n
  {
    if n > 0 {
      assert s[..n][0] == s[0];
      assert s[1..][..n - 1] == s[..n][1..];
      RunStops(s[1..], n - 1);
    }
  }

  lemma MantissaIsFloat(b: string, k: nat)
    requires FloatAt(b, k)
    ensures IsDecimalFloat(b)
  {
    assert IsExponent(b[k..]);
    if IsDigits(b[..k]) {
      RunStops(b, k);
    } else {
      var dot :| 0 <= dot < k && DottedAt(b[..k], dot);
      DottedIsFloat(b, dot, k);
    }
  }

  lemma DottedIsFloat(b: string, dot: nat, k: nat)
    requires k <= |b| && DottedAt(b[..k], dot) && IsExponent(b[k..])
    ensures IsDecimalFloat(b)
  {
    RunToTheDot(b, dot, k);
    AfterTheDot(b, dot, k);
    FractionIsFloat(b, dot);
  }

  lemma FractionIsFloat(b: string, dot: nat)
    requires dot < |b| && b[dot] == '.' && DigitRun(b) == dot && IsFraction(dot, b[dot + 1..])
    ensures IsDecimalFloat(b)
  {
  }

  lemma RunToTheDot(b: string, dot: nat, k: nat)
    requires k <= |b| && DottedAt(b[..k], dot)
    ensures dot < |b| && b[dot] == '.' && DigitRun(b) == dot
  {
    assert b[..dot] == b[..k][..dot] && b[dot] == b[..k][dot];
    RunStops(b, dot);
  }

  lemma AfterTheDot(b: string, dot: nat, k: nat)
    requires k <= |b| && DottedAt(b[..k], dot) && IsExponent(b[k..])
    ensures IsFraction(dot, b[dot + 1..])
  {
    var n, after := k - dot - 1, b[dot + 1..];
    assert after[..n] == b[..k][dot + 1..];
    assert after[n..] == b[k..];
    assert dot == 0 ==> b[..k][1..] != [];
    assert k < |b| ==> after[n] == b[k..][0];
    RunStops(after, n);
  }

  predicate IsNumberEnd(c: char)
  {
    IsDigit(c) || c == '.'
  }

  lemma MantissaEnds(x: string)
    requires IsMantissa(x)
    ensures x != [] && IsNumberEnd(x[0]) && IsNumberEnd(x[|x| - 1])
  {
    if !IsDigits(x) {
      var dot :| 0 <= dot < |x| && DottedAt(x, dot);
      assert dot < |x| - 1 ==> x[dot + 1..][|x| - dot - 2] == x[|x| - 1];
      assert dot > 0 ==> x[..dot][0] == x[0];
    }
  }

  /** A core-schema number without its sign begins and ends in a digit or a dot. */
  lemma FloatEnds(b: string, k: nat)
    requires FloatAt(b, k)
    ensures b != [] && IsNumberEnd(b[0]) && IsNumberEnd(b[|b| - 1])
  {
    MantissaEnds(b[..k]);
    assert b[..k][0] == b[0];
    if k == |b| {
      assert b[..k] == b;
    } else {
      var e := b[k..];
      var digits := AfterSign(e[1..]);
      assert e[|e| - 1] == b[|b| - 1];
      assert digits[|digits| - 1] == e[|e| - 1];
    }
  }

  /** A string whose body after the sign is a decimal float looks like a number. */
  lemma FloatIsSeen(s: string)
    requires s != [] && IsDecimalFloat(AfterSign(s))
    requires !IsWhite(s[0]) && !IsWhite(s[|s| - 1])
    ensures LooksLikeNumber(s)
  {
    TrimFixed(s);
    assert StripSign(s) == AfterSign(s);
    assert ParsesAsF64(s);
  }

  lemma IntIsSeen(s: string)
    requires IsDigits(AfterSign(s))
    ensures LooksLikeNumber(s)
  {
    var b := AfterSign(s);
    assert b[..|b|] == b;
    RunStops(b, |b|);
    assert s[|s| - 1] == b[|b| - 1];
    FloatIsSeen(s);
  }

  lemma RadixDigits(s: string, radix: nat)
    requires |s| > 2 && (radix == 8 || radix == 16)
    requires forall i | 2 <= i < |s| :: if radix == 8 then '0' <= s[i] <= '7' else HexValue(s[i]).Some?
    ensures RadixBody(Lower(s)[2..], radix)
    ensures !IsWhite(s[|s| - 1])
  {
    var tail := Lower(s)[2..];
    forall i | 0 <= i < |tail|
      ensures IsRadixDigit(tail[i], radix)
    {
      assert tail[i] == LowerChar(s[i + 2]);
      RadixDigit(s[i + 2], radix);
    }
    RadixDigit(s[|s| - 1], radix);
  }

  lemma RadixDigit(c: char, radix: nat)
    requires radix == 8 || radix == 16
    requires if radix == 8 then '0' <= c <= '7' else HexValue(c).Some?
    ensures IsRadixDigit(LowerChar(c), radix) && !IsWhite(c)
  {
  }

  lemma RadixPrefix(s: string, x: char)
    requires |s| > 2 && s[..2] == ['0', x] && 'a' <= x <= 'z'
    ensures s[0] == '0' && Lower(s)[..2] == ['0', x] && Lower(s) == ['0', x] + Lower(s)[2..]
  {
    assert s[0] == s[..2][0] && s[1] == s[..2][1];
  }

  lemma RadixIsSeen(s: string)
    requires RadixForm(s)
    ensures LooksLikeNumber(s)
  {
    var octal := s[..2] == "0o";
    RadixPrefix(s, if octal then 'o' else 'x');
    RadixDigits(s, if octal then 8 else 16);
    TrimFixed(s);
    assert StripSign(s) == s;
  }

  lemma CoreFloatEnds(s: string, k: nat)
    requires FloatAt(AfterSign(s), k)
    ensures s != [] && !IsWhite(s[0]) && !IsWhite(s[|s| - 1])
  {
    var b := AfterSign(s);
    FloatEnds(b, k);
    assert s[|s| - 1] == b[|b| - 1];
  }

  lemma CoreFloatIsSeen(s: string, k: nat)
    requires FloatAt(AfterSign(s), k)
    ensures LooksLikeNumber(s)
  {
    MantissaIsFloat(AfterSign(s), k);
    CoreFloatEnds(s, k);
    FloatIsSeen(s);
  }

  lemma DotLetterIsNoFloat(b: string)
    requires |b| > 1 && b[0] == '.' && !IsDigit(b[1])
    ensures !IsDecimalFloat(b) && !AllDigits(b) && Lower(b)[0] == '.'
  {
    RunStops(b, 0);
    RunStops(b[1..], 0);
  }

  lemma SpelledPlusInfinity(s: string, t: string)
    requires t == Lower(s) && |t| == 5 && t[0] == '+' && t[1] == '.'
    requires t[2] == 'i' && t[3] == 'n' && t[4] == 'f'
    ensures |s| == 5 && s[0] == '+' && s[1] == '.' && IsLetter(s[2]) && IsLetter(s[3]) && IsLetter(s[4])
  {
    assert LowerChar(s[0]) == t[0] && LowerChar(s[1]) == t[1] && LowerChar(s[2]) == t[2];
    assert LowerChar(s[3]) == t[3] && LowerChar(s[4]) == t[4];
  }

  /** The word with a plus sign that neither test knows. */
  lemma PlusInfinityIsNotSeen(s: string)
    requires Lower(s) == "+.inf"
    ensures !IsYamlReserved(s) && !LooksLikeNumber(s)
  {
    SpelledPlusInfinity(s, "+.inf");
    PlusDotIsNoNumber(s);
  }

  lemma PlusDotIsNoNumber(s: string)
    requires |s| == 5 && s[0] == '+' && s[1] == '.' && IsLetter(s[2]) && IsLetter(s[3]) && IsLetter(s[4])
    ensures !LooksLikeNumber(s)
  {
    TrimFixed(s);
    var body := s[1..];
    assert StripSign(s) == body;
    DotLetterIsNoFloat(body);
    assert '_' !in s;
  }

  lemma NullIsSeen(s: string)
    requires s in {"null", "Null", "NULL"}
    ensures Lower(s) == "null"
  {
    LowerIs(s, "null");
  }

  lemma TrueIsSeen(s: string)
    requires s in {"true", "True", "TRUE"}
    ensures Lower(s) == "true"
  {
    LowerIs(s, "true");
  }

  lemma FalseIsSeen(s: string)
    requires s in {"false", "False", "FALSE"}
    ensures Lower(s) == "false"
  {
    LowerIs(s, "false");
  }

  /** Every word that the core schema resolves is reserved. */
  lemma WordIsSeen(s: string)
    requires s in WORDS
    ensures IsYamlReserved(s)
  {
    if s == "~" {
      LowerIs(s, "~");
    } else if s in {"null", "Null", "NULL"} {
      NullIsSeen(s);
    } else if s in {"true", "True", "TRUE"} {
      TrueIsSeen(s);
    } else {
      FalseIsSeen(s);
    }
  }

  lemma LowerIs(s: string, t: string)
    requires |s| == |t| && forall i | 0 <= i < |s| :: LowerChar(s[i]) == t[i]
    ensures Lower(s) == t
  {
  }

  lemma InfinityIsSeen(s: string)
    requires AfterSign(s) in {".inf", ".Inf", ".INF"}
    ensures IsYamlReserved(s) || Lower(s) == "+.inf"
  {
    if |s| == 4 {
      LowerIs(s, ".inf");
    } else {
      assert s[1..] in {".inf", ".Inf", ".INF"};
      assert forall i | 1 <= i < 5 :: s[i] == s[1..][i - 1];
      if s[0] == '-' {
        LowerIs(s, "-.inf");
      } else {
        LowerIs(s, "+.inf");
      }
    }
  }

  /** Apart from the plain pattern, the two tests recognise exactly the non-strings of
      the core schema other than the empty value and `+.inf` in its spellings. */
  lemma NonStringsSeen(s: string)
    requires !Resolve(s).Str?
    ensures IsYamlReserved(s) || LooksLikeNumber(s) <==> s != "" && Lower(s) != "+.inf"
  {
    if s == "" {
      assert Lower(s) == "";
    } else if Lower(s) == "+.inf" {
      PlusInfinityIsNotSeen(s);
    } else {
      NonStringIsSeen(s);
    }
  }

  const WORDS: set<string> := {"~", "null", "Null", "NULL", "true", "True", "TRUE", "false", "False", "FALSE"}

  predicate RadixForm(s: string)
  {
    && |s| > 2
    && ((s[..2] == "0o" && forall i | 2 <= i < |s| :: '0' <= s[i] <= '7')
        || (s[..2] == "0x" && forall i | 2 <= i < |s| :: HexValue(s[i]).Some?))
  }

  predicate FloatAt(b: string, k: nat)
  {
    k <= |b| && IsMantissa(b[..k]) && (k == |b| || IsExponentPart(b[k..]))
  }

  predicate InfinityForm(b: string)
  {
    b in {".inf", ".Inf", ".INF"}
  }

  predicate NanForm(s: string)
  {
    s in {".nan", ".NaN", ".NAN"}
  }

  lemma KindsOfNonStrings(s: string)
    requires !Resolve(s).Str? && s != ""
    ensures
      || s in WORDS || IsDigits(AfterSign(s)) || RadixForm(s)
      || InfinityForm(AfterSign(s)) || NanForm(s)
      || exists k :: FloatAt(AfterSign(s), k)
  {
    if IsCoreFloat(s) && !InfinityForm(AfterSign(s)) && !NanForm(s) {
      var b := AfterSign(s);
      var k :| 0 <= k <= |b| && IsMantissa(b[..k]) && (k == |b| || IsExponentPart(b[k..]));
      assert FloatAt(b, k);
    }
  }

  lemma NanIsSeen(s: string)
    requires NanForm(s)
    ensures IsYamlReserved(s) || LooksLikeNumber(s)
  {
    LowerIs(s, ".nan");
  }

  lemma NonStringIsSeen(s: string)
    requires !Resolve(s).Str? && s != "" && Lower(s) != "+.inf"
    ensures IsYamlReserved(s) || LooksLikeNumber(s)
  {
    KindsOfNonStrings(s);
    if s in WORDS {
      WordIsSeen(s);
    } else if IsDigits(AfterSign(s)) {
      IntIsSeen(s);
    } else if RadixForm(s) {
      RadixIsSeen(s);
    } else if InfinityForm(AfterSign(s)) {
      InfinityIsSeen(s);
    } else if NanForm(s) {
      NanIsSeen(s);
    } else {
      var k :| FloatAt(AfterSign(s), k);
      CoreFloatIsSeen(s, k);
    }
  }
}
