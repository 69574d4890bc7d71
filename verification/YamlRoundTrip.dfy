/** Every printed string reads back as itself, alone and in a list. */
module YamlRoundTrip {
  import opened Options
  import opened YamlPrinter
  import opened YamlReader
  import YamlNumbers

  // ------------------------------------------------------------------ quoted scalars

  lemma HexDigitValue(d: nat)
    requires d < 16
    ensures HexValue(HexDigit(d)) == Some(d)
  {
  }

  lemma HexAppend(h: string, d: nat)
    requires d < 16 && HexNumber(h).Some?
    ensures HexNumber(h + [HexDigit(d)]) == Some(16 * HexNumber(h).value + d)
  {
    HexDigitValue(d);
    assert (h + [HexDigit(d)])[..|h|] == h;
  }

  lemma FourDigits(n: nat)
    requires n < 0x10000
    ensures n == 16 * (16 * (16 * (n / 0x1000) + n / 0x100 % 16) + n / 16 % 16) + n % 16
  {
    assert n / 16 / 16 == n / 0x100 && n / 0x100 / 16 == n / 0x1000;
  }

  lemma Hex4Value(n: nat)
    requires n < 0x10000
    ensures HexNumber(Hex4(n)) == Some(n)
  {
    var a, b, c, d := n / 0x1000, n / 0x100 % 16, n / 16 % 16, n % 16;
    FourDigits(n);
    var x1 := "" + [HexDigit(a)];
    var x2 := x1 + [HexDigit(b)];
    var x3 := x2 + [HexDigit(c)];
    HexAppend("", a);
    HexAppend(x1, b);
    HexAppend(x2, c);
    HexAppend(x3, d);
    assert x3 + [HexDigit(d)] == Hex4(n);
  }

  /** The printed form of a character reads as that character. */
  lemma CharReads(c: char, tail: string)
    requires ReadQuoted(tail).Some?
    ensures ReadQuoted(EscapedChar(c) + tail)
         == Some(Quoted([c] + ReadQuoted(tail).value.text, ReadQuoted(tail).value.rest))
  {
    if c == '\\' {
      EscapeReads('\\', c, tail);
    } else if c == '"' {
      EscapeReads('"', c, tail);
    } else if c == '\n' {
      EscapeReads('n', c, tail);
    } else if c == '\r' {
      EscapeReads('r', c, tail);
    } else if c == '\t' {
      EscapeReads('t', c, tail);
    } else if (c as int) < 0x20 || c as int == 0x7f {
      HexCharReads(c, tail);
    } else {
      assert ([c] + tail)[1..] == tail;
    }
  }

  lemma EscapeReads(e: char, c: char, tail: string)
    requires ReadQuoted(tail).Some?
    requires ReadEscape([e] + tail) == Some(Piece(c, ([e] + tail)[1..]))
    ensures ReadQuoted(['\\', e] + tail)
         == Some(Quoted([c] + ReadQuoted(tail).value.text, ReadQuoted(tail).value.rest))
  {
    assert (['\\', e] + tail)[1..] == [e] + tail;
    assert ([e] + tail)[1..] == tail;
  }

  lemma HexCharReads(c: char, tail: string)
    requires ReadQuoted(tail).Some? && (c as int) < 0xD800
    ensures ReadQuoted("\\u" + Hex4(c as nat) + tail)
         == Some(Quoted([c] + ReadQuoted(tail).value.text, ReadQuoted(tail).value.rest))
  {
    var h := Hex4(c as nat);
    var t := "\\u" + h + tail;
    assert t[1..][1..] == h + tail;
    assert (h + tail)[..4] == h && (h + tail)[4..] == tail;
    Hex4Value(c as nat);
    assert ReadEscape(t[1..]) == Some(Piece(c, tail));
  }

  lemma QuotedStep(s: string, tail: string, rest: string)
    requires s != [] && ReadQuoted(tail) == Some(Quoted(s[1..], rest))
    ensures ReadQuoted(EscapedChar(s[0]) + tail) == Some(Quoted(s, rest))
  {
    CharReads(s[0], tail);
    assert [s[0]] + s[1..] == s;
  }

  lemma EscapedStep(s: string, more: string)
    requires s != []
    ensures Escaped(s) + more == EscapedChar(s[0]) + (Escaped(s[1..]) + more)
  {
  }

  lemma ClosingQuote(rest: string)
    ensures ReadQuoted("\"" + rest) == Some(Quoted("", rest))
  {
    assert ("\"" + rest)[1..] == rest;
  }

  lemma {:induction false} QuotedReads(s: string, rest: string)
    ensures ReadQuoted(Escaped(s) + ("\"" + rest)) == Some(Quoted(s, rest))
  {
    var close := "\"" + rest;
    if s == [] {
      assert Escaped(s) + close == close;
      ClosingQuote(rest);
    } else {
      QuotedReads(s[1..], rest);
      QuotedStep(s, Escaped(s[1..]) + close, rest);
      EscapedStep(s, close);
    }
  }

  // ------------------------------------------------------------------- plain scalars

  lemma LetterFirstIsNoNumber(s: string)
    requires s != [] && IsLetter(s[0])
    ensures !IsCoreInt(s) && !IsCoreFloat(s)
  {
    forall k | 0 <= k <= |s|
      ensures !IsMantissa(s[..k])
    {
      LetterFirstIsNoMantissa(s[..k]);
    }
  }

  lemma LetterFirstIsNoMantissa(s: string)
    requires s == [] || IsLetter(s[0])
    ensures !IsMantissa(s)
  {
    forall dot | 0 < dot < |s|
      ensures !IsDigits(s[..dot])
    {
      assert s[..dot][0] == s[0];
    }
  }

  lemma LetterFirstIsAString(s: string)
    requires s != [] && IsLetter(s[0]) && !IsYamlReserved(s)
    ensures Resolve(s) == Str(s)
  {
    LetterFirstIsNoNumber(s);
    if !Resolve(s).Str? {
      YamlNumbers.WordIsSeen(s);
    }
  }

  lemma PatternIsPlain(s: string, inFlow: bool)
    requires MatchesPlainPattern(s)
    ensures IsPlain(s, inFlow)
    ensures forall i | 0 <= i < |s| :: IsPlainChar(s[i]) && !IsFlowIndicator(s[i])
  {
    assert forall i | 0 <= i < |s| :: IsPlainChar(s[i]);
  }

  /** What a caller may rely on when a string is printed plain. */
  predicate MayBePlain(s: string, plain: bool)
  {
    plain ==> MatchesPlainPattern(s) && !IsYamlReserved(s)
  }

  /** A string printed plain is a well-formed plain scalar, in and out of a flow
      sequence, and the core schema makes a string of it. */
  lemma PlainReads(s: string, inFlow: bool)
    requires MayBePlain(s, true)
    ensures s != [] && s[0] != '"' && !IsBlank(s[0]) && !IsBlank(s[|s| - 1])
    ensures IsPlain(s, inFlow) && Resolve(s) == Str(s)
    ensures forall i | 0 <= i < |s| :: IsPlainChar(s[i]) && !IsFlowIndicator(s[i])
  {
    PatternIsPlain(s, inFlow);
    LetterFirstIsAString(s);
  }

  /** Text that neither begins nor ends with a blank is read as it stands. */
  lemma NothingToStrip(t: string)
    requires t != [] && !IsBlank(t[0]) && !IsBlank(t[|t| - 1])
    ensures StripBlanks(SkipBlanks(t)) == t
  {
  }

  // ------------------------------------------------------------------------- scalars

  lemma WrittenReads(s: string, plain: bool)
    requires MayBePlain(s, plain)
    ensures ReadScalar(Written(s, plain)) == Some(Str(s))
  {
    var t := Written(s, plain);
    if plain {
      PlainReads(s, false);
      NothingToStrip(t);
    } else {
      NothingToStrip(t);
      assert t[1..] == Escaped(s) + ("\"" + "");
      QuotedReads(s, "");
    }
  }

  /** Every string, printed and read back, is the same string. */
  lemma ScalarRoundTrip(s: string)
    ensures ReadScalar(Scalar(s)) == Some(Str(s))
  {
    WrittenReads(s, IsSafePlainScalar(s));
  }

  /** No control character is printed raw, so neither is a line break. */
  predicate OneLine(t: string)
  {
    forall i | 0 <= i < |t| :: (t[i] as int) >= 0x20 && t[i] as int != 0x7f
  }

  lemma OneLineHasNoBreak(t: string)
    requires OneLine(t)
    ensures '\n' !in t && '\r' !in t
  {
  }

  lemma {:induction false} EscapedIsOneLine(s: string)
    ensures OneLine(Escaped(s))
  {
    if s != [] {
      EscapedIsOneLine(s[1..]);
      assert OneLine(EscapedChar(s[0]));
    }
  }

  lemma WrittenIsOneLine(s: string, plain: bool)
    requires MayBePlain(s, plain)
    ensures OneLine(Written(s, plain))
  {
    if plain {
      assert forall i | 0 <= i < |s| :: IsPlainChar(s[i]);
    } else {
      EscapedIsOneLine(s);
    }
  }

  lemma ScalarIsOneLine(s: string)
    ensures OneLine(Scalar(s))
  {
    WrittenIsOneLine(s, IsSafePlainScalar(s));
  }

  // --------------------------------------------------------------------------- lists

  function StringNodes(items: seq<string>): (r: seq<Node>)
  {
    if items == [] then [] else [Str(items[0])] + StringNodes(items[1..])
  }

  lemma {:induction false} FlowRunStops(x: string, more: string)
    requires forall i | 0 <= i < |x| :: !IsFlowIndicator(x[i])
    requires more != [] && IsFlowIndicator(more[0])
    ensures FlowRun(x + more) == |x|
  {
    if x == [] {
      assert x + more == more;
    } else {
      assert (x + more)[1..] == x[1..] + more;
      FlowRunStops(x[1..], more);
    }
  }

  lemma PlainEntryReads(s: string, more: string)
    requires IsPlain(s, true) && Resolve(s) == Str(s) && s[0] != '"'
    requires forall i | 0 <= i < |s| :: !IsFlowIndicator(s[i])
    requires more != [] && IsFlowIndicator(more[0])
    ensures ReadEntry(s + more) == Some(Entry(Str(s), more))
  {
    FlowRunStops(s, more);
    assert (s + more)[..|s|] == s && (s + more)[|s|..] == more;
    assert StripBlanks(s) == s;
  }

  lemma QuotedEntryReads(s: string, more: string)
    ensures ReadEntry("\"" + Escaped(s) + "\"" + more) == Some(Entry(Str(s), more))
  {
    assert ("\"" + Escaped(s) + "\"" + more)[1..] == Escaped(s) + ("\"" + more);
    QuotedReads(s, more);
  }

  lemma EntryReads(s: string, plain: bool, more: string)
    requires MayBePlain(s, plain)
    requires more != [] && (more[0] == ',' || more[0] == ']')
    ensures ReadEntry(Written(s, plain) + more) == Some(Entry(Str(s), more))
  {
    if plain {
      PlainReads(s, true);
      PlainEntryReads(s, more);
    } else {
      QuotedEntryReads(s, more);
    }
  }

  lemma EntryStarts(s: string, plain: bool, more: string)
    requires MayBePlain(s, plain)
    ensures SkipBlanks(Written(s, plain) + more) == Written(s, plain) + more
    ensures (Written(s, plain) + more)[0] != ']'
  {
  }

  /** The text reads as the string wherever a comma or a bracket follows it. */
  ghost predicate ReadsAs(text: string, s: string)
  {
    forall more: string | more != [] && (more[0] == ',' || more[0] == ']') ::
      && SkipBlanks(text + more) == text + more
      && (text + more)[0] != ']'
      && ReadEntry(text + more) == Some(Entry(Str(s), more))
  }

  lemma WrittenReadsAs(s: string, plain: bool)
    requires MayBePlain(s, plain)
    ensures ReadsAs(Written(s, plain), s)
  {
    var t := Written(s, plain);
    forall more: string | more != [] && (more[0] == ',' || more[0] == ']')
      ensures SkipBlanks(t + more) == t + more && (t + more)[0] != ']'
      ensures ReadEntry(t + more) == Some(Entry(Str(s), more))
    {
      EntryReads(s, plain, more);
      EntryStarts(s, plain, more);
    }
  }

  lemma ScalarReadsAs(s: string)
    ensures ReadsAs(Scalar(s), s)
  {
    WrittenReadsAs(s, IsSafePlainScalar(s));
  }

  lemma LastItem(t: string, e: Entry)
    requires t != [] && SkipBlanks(t) == t && t[0] != ']' && ReadEntry(t) == Some(e)
    requires e.rest != [] && e.rest[0] == ']'
    ensures ReadItems(t) == Some(Items([e.node], e.rest[1..]))
  {
  }

  lemma NextItem(t: string, e: Entry)
    requires t != [] && SkipBlanks(t) == t && t[0] != ']' && ReadEntry(t) == Some(e)
    requires e.rest != [] && e.rest[0] == ',' && ReadItems(e.rest[1..]).Some?
    ensures var tail := ReadItems(e.rest[1..]).value;
      ReadItems(t) == Some(Items([e.node] + tail.nodes, tail.rest))
  {
  }

  lemma LastText(text: string, s: string, tail: string)
    requires ReadsAs(text, s)
    ensures ReadItems(text + ("]" + tail)) == Some(Items([Str(s)], tail))
  {
    var more := "]" + tail;
    assert more[1..] == tail;
    assert text + more != [];
    LastItem(text + more, Entry(Str(s), more));
  }

  lemma NextText(text: string, s: string, others: string)
    requires ReadsAs(text, s) && ReadItems(others).Some?
    ensures ReadItems(text + (", " + others))
         == Some(Items([Str(s)] + ReadItems(others).value.nodes, ReadItems(others).value.rest))
  {
    var more := ", " + others;
    assert more[1..] == " " + others;
    BlankInFront(others);
    assert text + more != [];
    NextItem(text + more, Entry(Str(s), more));
  }

  lemma JoinedStep(texts: seq<string>, tail: string)
    requires |texts| > 1
    ensures Joined(texts) + "]" + tail == texts[0] + (", " + (Joined(texts[1..]) + "]" + tail))
  {
  }

  lemma StringsStep(items: seq<string>)
    requires items != []
    ensures StringNodes(items) == [Str(items[0])] + StringNodes(items[1..])
  {
  }

  /** The texts read as the items, with anything after the bracket. */
  ghost predicate TextsRead(t: string, items: seq<string>, tail: string)
  {
    ReadItems(t) == Some(Items(StringNodes(items), tail))
  }

  lemma ItemsStep(text: string, items: seq<string>, others: string, tail: string)
    requires items != [] && ReadsAs(text, items[0]) && TextsRead(others, items[1..], tail)
    ensures TextsRead(text + (", " + others), items, tail)
  {
    NextText(text, items[0], others);
    StringsStep(items);
  }

  lemma {:induction false} ItemsRead(texts: seq<string>, items: seq<string>, tail: string)
    requires |texts| == |items| > 0 && forall i | 0 <= i < |texts| :: ReadsAs(texts[i], items[i])
    ensures TextsRead(Joined(texts) + "]" + tail, items, tail)
    decreases texts
  {
    if |texts| == 1 {
      LastText(texts[0], items[0], tail);
      assert Joined(texts) + "]" + tail == texts[0] + ("]" + tail);
      assert items[1..] == [] && StringNodes(items) == [Str(items[0])];
    } else {
      ItemsRead(texts[1..], items[1..], tail);
      ItemsStep(texts[0], items, Joined(texts[1..]) + "]" + tail, tail);
      JoinedStep(texts, tail);
    }
  }

  lemma {:induction false} ScalarsRead(items: seq<string>)
    ensures forall i | 0 <= i < |items| :: ReadsAs(Scalars(items)[i], items[i])
  {
    if items != [] {
      ScalarReadsAs(items[0]);
      ScalarsRead(items[1..]);
    }
  }

  lemma BlankInFront(t: string)
    ensures ReadItems(" " + t) == ReadItems(t)
  {
    assert (" " + t)[1..] == t;
    assert SkipBlanks(" " + t) == SkipBlanks(t);
  }

  lemma BracketsRead(inner: string, nodes: seq<Node>)
    requires ReadItems(inner + "]") == Some(Items(nodes, ""))
    ensures ReadFlow("[" + inner + "]") == Some(nodes)
  {
    var t := "[" + inner + "]";
    assert t[1..] == inner + "]";
    NothingToStrip(t);
  }

  /** Every list of strings, printed and read back as a flow sequence, is the same list. */
  lemma ListRoundTrip(items: seq<string>)
    ensures ReadFlow(List(items)) == Some(StringNodes(items))
  {
    if items == [] {
      assert ""  + "]" == "]" && "[" + "" + "]" == "[]";
      assert "]"[1..] == "";
      BracketsRead("", []);
    } else {
      ScalarsRead(items);
      ItemsRead(Scalars(items), items, "");
      var inner := Joined(Scalars(items));
      assert inner + "]" + "" == inner + "]";
      BracketsRead(inner, StringNodes(items));
    }
  }

  lemma {:induction false} JoinedIsOneLine(items: seq<string>)
    ensures OneLine(Joined(Scalars(items)))
    decreases items
  {
    if items != [] {
      ScalarIsOneLine(items[0]);
      JoinedIsOneLine(items[1..]);
      assert Scalars(items)[1..] == Scalars(items[1..]);
      assert OneLine(", ");
    }
  }

  lemma ListIsOneLine(items: seq<string>)
    ensures OneLine(List(items))
  {
    JoinedIsOneLine(items);
    assert OneLine("[") && OneLine("]");
  }

  /** Neither a scalar nor a list can add a line to the file it is printed into. */
  lemma NoValueAddsALine(s: string, items: seq<string>)
    ensures '\n' !in Scalar(s) && '\r' !in Scalar(s)
    ensures '\n' !in List(items) && '\r' !in List(items)
  {
    ScalarIsOneLine(s);
    OneLineHasNoBreak(Scalar(s));
    ListIsOneLine(items);
    OneLineHasNoBreak(List(items));
  }
}
