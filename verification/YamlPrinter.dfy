/** Printing strings as YAML, `markdown_exporter.rs`: `yaml_scalar`, `yaml_list` and the
    tests that decide between a plain and a quoted scalar. A string is printed plain only
    when it matches a strict pattern and neither test takes it for something else. */
module YamlPrinter {
  import opened Decimals

  // ------------------------------------------------------------------- characters

  predicate IsLetter(c: char)
  {
    'a' <= c <= 'z' || 'A' <= c <= 'Z'
  }

  predicate IsDigit(c: char)
  {
    '0' <= c <= '9'
  }

  predicate IsPlainChar(c: char)
  {
    IsLetter(c) || IsDigit(c) || c == ' ' || c == '.' || c == '_' || c == '/' || c == '-'
  }

  function LowerChar(c: char): (r: char)
  {
    if 'A' <= c <= 'Z' then c - 'A' + 'a' else c
  }

  /** Lower case of ASCII letters. No other letter has a lower case in the words below. */
  function Lower(s: string): (r: string)
    ensures |r| == |s| && forall i | 0 <= i < |s| :: r[i] == LowerChar(s[i])
  {
    if s == [] then [] else [LowerChar(s[0])] + Lower(s[1..])
  }

  /** Unicode White_Space. */
  predicate IsWhite(c: char)
  {
    var n := c as int;
    9 <= n <= 13 || n == 32 || n == 0x85 || n == 0xA0 || n == 0x1680 || 0x2000 <= n <= 0x200A
    || n == 0x2028 || n == 0x2029 || n == 0x202F || n == 0x205F || n == 0x3000
  }

  function TrimStart(s: string): (r: string)
    ensures |r| <= |s|
  {
    if s != [] && IsWhite(s[0]) then TrimStart(s[1..]) else s
  }

  function TrimEnd(s: string): (r: string)
    ensures |r| <= |s|
  {
    if s != [] && IsWhite(s[|s| - 1]) then TrimEnd(s[..|s| - 1]) else s
  }

  function Trim(s: string): (r: string)
  {
    TrimEnd(TrimStart(s))
  }

  // ------------------------------------------------------------- number-like strings

  function StripSign(s: string): (r: string)
    ensures |r| <= |s|
  {
    if s != [] && (s[0] == '+' || s[0] == '-') then s[1..] else s
  }

  /** How many digits the string begins with. */
  function DigitRun(s: string): (n: nat)
    ensures n <= |s|
  {
    if s == [] || !IsDigit(s[0]) then 0 else 1 + DigitRun(s[1..])
  }

  predicate IsExponent(s: string)
  {
    s == [] || ((s[0] == 'e' || s[0] == 'E') && StripSign(s[1..]) != [] && AllDigits(StripSign(s[1..])))
  }

  /** Digits with at most one dot among or around them, and an optional exponent. */
  predicate IsDecimalFloat(s: string)
  {
    var n := DigitRun(s);
    if n < |s| && s[n] == '.' then IsFraction(n, s[n + 1..]) else n > 0 && IsExponent(s[n..])
  }

  /** What may follow the dot after so many digits. */
  predicate IsFraction(before: nat, after: string)
  {
    var m := DigitRun(after);
    before + m > 0 && IsExponent(after[m..])
  }

  /** `parse::<f64>()` succeeds. */
  predicate ParsesAsF64(s: string)
  {
    var body := StripSign(s);
    Lower(body) in {"inf", "infinity", "nan"} || IsDecimalFloat(body)
  }

  /** `parse::<i64>()` succeeds. */
  predicate ParsesAsI64(s: string)
  {
    var body := StripSign(s);
    && body != [] && AllDigits(body)
    && Value(body) < (if s[0] == '-' then 0x8000_0000_0000_0001 else 0x8000_0000_0000_0000)
  }

  /** `is_digit(radix)` on a lower-case character. */
  predicate IsRadixDigit(c: char, radix: nat)
  {
    if IsDigit(c) then (c - '0') as nat < radix else 'a' <= c <= 'f' && radix == 16
  }

  predicate RadixBody(s: string, radix: nat)
  {
    s != [] && forall i | 0 <= i < |s| :: s[i] == '_' || IsRadixDigit(s[i], radix)
  }

  function Without(s: string, c: char): (r: string)
    ensures |r| <= |s|
  {
    if s == [] then [] else (if s[0] == c then [] else [s[0]]) + Without(s[1..], c)
  }

  predicate IsGroupedNumber(body: string)
  {
    var cleaned := Without(body, '_');
    var digits := Without(cleaned, '.');
    |cleaned| - |digits| <= 1 && digits != [] && AllDigits(digits)
  }

  predicate LooksLikeNumber(s: string)
  {
    var trimmed := Trim(s);
    if trimmed == [] then false
    else if ParsesAsI64(trimmed) || ParsesAsF64(trimmed) then true
    else
      var body := StripSign(trimmed);
      var lower := Lower(body);
      if "0x" <= lower then RadixBody(lower[2..], 16)
      else if "0o" <= lower then RadixBody(lower[2..], 8)
      else if "0b" <= lower then RadixBody(lower[2..], 2)
      else '_' in trimmed && IsGroupedNumber(body)
  }

  // -------------------------------------------------------------------- safe scalars

  const KEYWORDS: set<string> :=
    {"true", "false", "null", "yes", "no", "on", "off", "y", "n", "~", ".inf", "-.inf", ".nan"}

  predicate IsYamlReserved(s: string)
  {
    Lower(s) in KEYWORDS
  }

  predicate MatchesPlainPattern(s: string)
  {
    && s != []
    && s[|s| - 1] != ' '
    && IsLetter(s[0])
    && forall i | 0 < i < |s| :: IsPlainChar(s[i])
  }

  predicate IsSafePlainScalar(s: string)
  {
    MatchesPlainPattern(s) && !IsYamlReserved(s) && !LooksLikeNumber(s)
  }

  function HexDigit(d: nat): (c: char)
    requires d < 16
  {
    if d < 10 then '0' + d as char else 'a' + (d - 10) as char
  }

  function Hex4(n: nat): (s: string)
    requires n < 0x10000
  {
    [HexDigit(n / 0x1000), HexDigit(n / 0x100 % 16), HexDigit(n / 16 % 16), HexDigit(n % 16)]
  }

  function EscapedChar(c: char): (r: string)
  {
    if c == '\\' then "\\\\"
    else if c == '"' then "\\\""
    else if c == '\n' then "\\n"
    else if c == '\r' then "\\r"
    else if c == '\t' then "\\t"
    else if (c as int) < 0x20 || c as int == 0x7f then "\\u" + Hex4(c as nat)
    else [c]
  }

  function Escaped(s: string): (r: string)
  {
    if s == [] then [] else EscapedChar(s[0]) + Escaped(s[1..])
  }

  function Written(s: string, plain: bool): (r: string)
  {
    if plain then s else "\"" + Escaped(s) + "\""
  }

  function Scalar(s: string): (r: string)
  {
    Written(s, IsSafePlainScalar(s))
  }

  lemma {:induction false} EscapedAppend(s: string, c: char)
    ensures Escaped(s + [c]) == Escaped(s) + EscapedChar(c)
  {
    if s == [] {
      assert [c][1..] == [];
      assert EscapedChar(c) + [] == EscapedChar(c);
    } else {
      assert (s + [c])[1..] == s[1..] + [c];
      EscapedAppend(s[1..], c);
    }
  }

  /** `yaml_scalar`. */
  method YamlScalar(s: string) returns (r: string)
    ensures r == Scalar(s)
  {
    if IsSafePlainScalar(s) {
      return s;
    }
    var escaped := "";
    for i := 0 to |s|
      invariant escaped == Escaped(s[..i])
    {
      var c := s[i];
      assert s[..i + 1] == s[..i] + [c];
      EscapedAppend(s[..i], c);
      match c {
        case '\\' => escaped := escaped + "\\\\";
        case '"' => escaped := escaped + "\\\"";
        case '\n' => escaped := escaped + "\\n";
        case '\r' => escaped := escaped + "\\r";
        case '\t' => escaped := escaped + "\\t";
        case _ =>
          if (c as int) < 0x20 || c as int == 0x7f {
            escaped := escaped + ("\\u" + Hex4(c as nat));
          } else {
            escaped := escaped + [c];
          }
      }
    }
    assert s[..|s|] == s;
    r := "\"" + escaped + "\"";
  }

  function Scalars(items: seq<string>): (r: seq<string>)
    ensures |r| == |items|
  {
    if items == [] then [] else [Scalar(items[0])] + Scalars(items[1..])
  }

  /** `join(", ")`. */
  function Joined(texts: seq<string>): (r: string)
  {
    if texts == [] then []
    else if |texts| == 1 then texts[0]
    else texts[0] + ", " + Joined(texts[1..])
  }

  /** `yaml_list`. */
  function List(items: seq<string>): (r: string)
  {
    if items == [] then "[]" else "[" + Joined(Scalars(items)) + "]"
  }

  // ------------------------------------------------------------------- exactly when

  /** Words that other readers take for truth values or null. */
  predicate TruthWord(lower: string)
  {
    lower in {"true", "false", "null", "yes", "no", "on", "off", "y", "n"}
  }

  predicate NumberWord(lower: string)
  {
    lower in {"inf", "infinity", "nan"}
  }

  /** A letter, then letters, digits, spaces, dots, underscores, slashes and hyphens, the
      last of them no space. */
  predicate LooksPlain(s: string)
  {
    && s != [] && (('a' <= s[0] <= 'z') || ('A' <= s[0] <= 'Z')) && s[|s| - 1] != ' '
    && forall i | 0 < i < |s| ::
         ('a' <= s[i] <= 'z') || ('A' <= s[i] <= 'Z') || ('0' <= s[i] <= '9') || s[i] in " ._/-"
  }

  /** A string is printed as it is exactly when it looks plain and is none of the words, in
      any mixture of capitals; among such strings no other test for numbers ever bites. */
  lemma PrintedPlainIff(s: string)
    ensures Scalar(s) == s <==> LooksPlain(s) && !TruthWord(Lower(s)) && !NumberWord(Lower(s))
  {
    SafeIff(s);
    EscapedLonger(s);
    assert !IsSafePlainScalar(s) ==> |Scalar(s)| > |s|;
  }

  lemma SafeIff(s: string)
    ensures IsSafePlainScalar(s) <==> LooksPlain(s) && !TruthWord(Lower(s)) && !NumberWord(Lower(s))
  {
    PlainAlike(s);
    if LooksPlain(s) {
      OnlyWordsLookLikeNumbers(s);
      KeywordWithLetter(s);
    }
  }

  lemma PlainAlike(s: string)
    ensures MatchesPlainPattern(s) <==> LooksPlain(s)
  {
  }

  lemma {:induction false} EscapedLonger(s: string)
    ensures |Escaped(s)| >= |s|
  {
    if s != [] {
      EscapedLonger(s[1..]);
    }
  }

  lemma KeywordWithLetter(s: string)
    requires LooksPlain(s)
    ensures IsYamlReserved(s) <==> TruthWord(Lower(s))
  {
    assert Lower(s)[0] == LowerChar(s[0]);
    KeywordOfLetter(Lower(s));
  }

  lemma KeywordOfLetter(l: string)
    requires l != [] && 'a' <= l[0] <= 'z'
    ensures l in KEYWORDS <==> TruthWord(l)
  {
    assert "~"[0] == '~' && ".inf"[0] == '.' && "-.inf"[0] == '-' && ".nan"[0] == '.';
  }

  lemma NothingToTrim(s: string)
    requires s != [] && !IsWhite(s[0]) && !IsWhite(s[|s| - 1])
    ensures Trim(s) == s
  {
  }

  lemma OnlyWordsLookLikeNumbers(s: string)
    requires LooksPlain(s)
    ensures LooksLikeNumber(s) <==> NumberWord(Lower(s))
  {
    NothingToTrim(s);
    LetterNoDecimal(s);
    LetterNoRadix(s);
    LetterStays(s);
  }

  lemma LetterNoDecimal(s: string)
    requires s != [] && IsLetter(s[0])
    ensures StripSign(s) == s && !ParsesAsI64(s) && !IsDecimalFloat(s)
  {
    assert !AllDigits(s) by {
      assert !('0' <= s[0] <= '9');
    }
    assert DigitRun(s) == 0;
  }

  lemma LetterNoRadix(s: string)
    requires s != [] && IsLetter(s[0])
    ensures var lower := Lower(s); !("0x" <= lower) && !("0o" <= lower) && !("0b" <= lower)
  {
    assert Lower(s)[0] == LowerChar(s[0]) != '0';
    assert "0x"[0] == '0' && "0o"[0] == '0' && "0b"[0] == '0';
  }

  lemma LetterStays(s: string)
    requires s != [] && IsLetter(s[0])
    ensures !IsGroupedNumber(s)
  {
    var cleaned := Without(s, '_');
    assert cleaned[0] == s[0];
    var digits := Without(cleaned, '.');
    assert digits[0] == s[0];
  }

  /** The escapes: a backslash before a backslash or a quote, letters for line feed, return
      and tab, four hexadecimal digits for any other control, and the character itself. */
  lemma EscapesAre(c: char)
    ensures c == '\\' ==> EscapedChar(c) == "\\\\"
    ensures c == '"' ==> EscapedChar(c) == "\\\""
    ensures c == '\n' ==> EscapedChar(c) == "\\n"
    ensures c == '\r' ==> EscapedChar(c) == "\\r"
    ensures c == '\t' ==> EscapedChar(c) == "\\t"
    ensures ((c as int) < 0x20 && c != '\n' && c != '\r' && c != '\t') || c as int == 0x7f ==>
      && |EscapedChar(c)| == 6 && EscapedChar(c)[..4] == "\\u00"
      && EscapedChar(c)[4] == "0123456789abcdef"[(c as int) / 16]
      && EscapedChar(c)[5] == "0123456789abcdef"[(c as int) % 16]
    ensures (c as int) >= 0x20 && c as int != 0x7f && c != '\\' && c != '"' ==> EscapedChar(c) == [c]
  {
    if (c as int) < 0x20 || c as int == 0x7f {
      HexDigitIs((c as int) / 16);
      HexDigitIs((c as int) % 16);
    }
  }

  lemma HexDigitIs(d: nat)
    requires d < 16
    ensures HexDigit(d) == "0123456789abcdef"[d]
  {
  }

  /** Quoted, the escapes stand between quotes, in order. */
  lemma QuotedIs(s: string, c: char)
    ensures Escaped("") == "" && Escaped([c] + s) == EscapedChar(c) + Escaped(s)
    ensures Scalar(s) == s || Scalar(s) == "\"" + Escaped(s) + "\""
  {
    assert ([c] + s)[1..] == s;
  }

  /** A list: its scalars between brackets, a comma and a space between two. */
  lemma ListIs(first: string, second: string, rest: seq<string>)
    ensures List([]) == "[]" && List([first]) == "[" + Scalar(first) + "]"
    ensures Joined(Scalars([first, second] + rest)) == Scalar(first) + ", " + Joined(Scalars([second] + rest))
    ensures List([second] + rest) == "[" + Joined(Scalars([second] + rest)) + "]"
  {
    assert [first][1..] == [];
    var items := [first, second] + rest;
    assert items[1..] == [second] + rest;
    assert ([Scalar(first)] + Scalars(items[1..]))[1..] == Scalars(items[1..]);
  }
}
