/** The printed frontmatter reads back field by field, whatever the values are. */
module FrontmatterRoundTrip {
  import opened Options
  import opened Decimals
  import YamlPrinter
  import opened YamlReader
  import opened YamlRoundTrip
  import opened Frontmatter

  // ------------------------------------------------------------------------- lines

  predicate NoFeed(t: string)
  {
    forall i | 0 <= i < |t| :: t[i] != '\n'
  }

  lemma {:induction false} FirstLine(line: string, more: string)
    requires NoFeed(line)
    ensures LineEnd(line + "\n" + more) == |line|
  {
    if line == [] {
      assert line + "\n" + more == "\n" + more;
    } else {
      assert (line + "\n" + more)[1..] == line[1..] + "\n" + more;
      FirstLine(line[1..], more);
    }
  }

  lemma LineSplit(line: string, more: string)
    requires NoFeed(line)
    ensures SplitLines(line + "\n" + more) == [line] + SplitLines(more)
  {
    var t := line + "\n" + more;
    FirstLine(line, more);
    assert t[..|line|] == line && t[|line| + 1..] == more;
  }

  lemma UnlinesStep(lines: seq<string>, rest: string)
    requires lines != []
    ensures Unlines(lines) + rest == lines[0] + "\n" + (Unlines(lines[1..]) + rest)
  {
  }

  lemma SplitStep(lines: seq<string>, text: string, tail: string, split: seq<string>)
    requires lines != [] && NoFeed(lines[0])
    requires text == lines[0] + "\n" + tail && SplitLines(tail) == lines[1..] + split
    ensures SplitLines(text) == lines + split
  {
    LineSplit(lines[0], tail);
    assert [lines[0]] + (lines[1..] + split) == lines + split;
  }

  lemma {:induction false} LinesSplit(lines: seq<string>, rest: string)
    requires forall i | 0 <= i < |lines| :: NoFeed(lines[i])
    ensures SplitLines(Unlines(lines) + rest) == lines + SplitLines(rest)
  {
    if lines == [] {
      assert Unlines(lines) + rest == rest;
    } else {
      UnlinesStep(lines, rest);
      LinesSplit(lines[1..], rest);
      SplitStep(lines, Unlines(lines) + rest, Unlines(lines[1..]) + rest, SplitLines(rest));
    }
  }

  // ------------------------------------------------------------------------- fields

  /** A key that cannot be mistaken for anything else on its line. */
  predicate IsKey(key: string)
  {
    key != [] && key[0] != ' ' && key[0] != '-' && forall i | 0 <= i < |key| :: key[i] != ':' && key[i] != '\n'
  }

  lemma {:induction false} KeyFound(key: string, more: string)
    requires forall i | 0 <= i < |key| :: key[i] != ':'
    ensures KeyEnd(key + ":" + more) == |key|
  {
    if key == [] {
      assert key + ":" + more == ":" + more;
    } else {
      assert (key + ":" + more)[1..] == key[1..] + ":" + more;
      KeyFound(key[1..], more);
    }
  }

  lemma InlineReads(key: string, text: string, more: seq<string>)
    requires IsKey(key) && ReadFields(more).Some?
    ensures ReadFields([key + ": " + text] + more) == Some([Field(key, Inline(text))] + ReadFields(more).value)
  {
    var line := key + ": " + text;
    KeyFound(key, " " + text);
    assert line == key + ":" + (" " + text);
    assert line[..|key|] == key && line[|key| + 1..] == " " + text;
    assert ([line] + more)[1..][0..] == more;
    assert (" " + text)[1..] == text;
  }

  lemma DashedItem(item: string)
    ensures IsItemLine(ItemLine(item)) && ItemLine(item)[4..] == item
  {
  }

  lemma {:induction false} DashesDropped(items: seq<string>)
    ensures forall i | 0 <= i < |items| :: IsItemLine(ItemLines(items)[i])
    ensures DropDashes(ItemLines(items)) == items
  {
    if items != [] {
      DashedItem(items[0]);
      DashesDropped(items[1..]);
      assert ItemLines(items)[1..] == ItemLines(items[1..]);
      assert [items[0]] + items[1..] == items;
    }
  }

  lemma {:induction false} ItemsCounted(items: seq<string>, more: seq<string>)
    requires more == [] || !IsItemLine(more[0])
    ensures ItemCount(ItemLines(items) + more) == |items|
  {
    if items == [] {
      assert ItemLines(items) + more == more;
    } else {
      ItemsCounted(items[1..], more);
      OneMoreItem(items[0], ItemLines(items[1..]) + more);
      assert ItemLines(items) + more == [ItemLine(items[0])] + (ItemLines(items[1..]) + more);
    }
  }

  lemma OneMoreItem(item: string, lines: seq<string>)
    ensures ItemCount([ItemLine(item)] + lines) == 1 + ItemCount(lines)
  {
    DashedItem(item);
    assert ([ItemLine(item)] + lines)[1..] == lines;
  }

  /** A line that ends in its colon, and the entries below it. */
  lemma SequenceStep(line: string, key: string, items: seq<string>, entries: seq<string>, more: seq<string>)
    requires KeyEnd(line) == |key| == |line| - 1 && line[..|key|] == key
    requires ItemCount(entries + more) == |entries| && ReadFields(more).Some?
    requires (forall i | 0 <= i < |entries| :: IsItemLine(entries[i])) && DropDashes(entries) == items
    ensures ReadFields([line] + (entries + more))
         == Some([Field(key, Sequence(items))] + ReadFields(more).value)
  {
    var lines := [line] + (entries + more);
    assert lines[1..] == entries + more;
    assert (entries + more)[|entries|..] == more && (entries + more)[..|entries|] == entries;
    assert line[|key| + 1..] == [];
  }

  lemma SequenceReads(key: string, items: seq<string>, more: seq<string>)
    requires IsKey(key) && ReadFields(more).Some? && (more == [] || !IsItemLine(more[0]))
    ensures ReadFields([key + ":"] + (ItemLines(items) + more))
         == Some([Field(key, Sequence(items))] + ReadFields(more).value)
  {
    KeyFound(key, "");
    assert key + ":" == key + ":" + "";
    ItemsCounted(items, more);
    DashesDropped(items);
    SequenceStep(key + ":", key, items, ItemLines(items), more);
  }

  predicate GoodBlock(b: Block)
  {
    match b
    case Inline(text) => NoFeed(text)
    case Sequence(items) => forall i | 0 <= i < |items| :: NoFeed(items[i])
  }

  predicate GoodField(f: Field)
  {
    IsKey(f.key) && GoodBlock(f.block)
  }

  /** Lines of good fields are neither entries nor fences. */
  lemma FieldLinesStart(f: Field)
    requires GoodField(f)
    ensures FieldLines(f) != [] && !IsItemLine(FieldLines(f)[0])
    ensures forall i | 0 <= i < |FieldLines(f)| :: NoFeed(FieldLines(f)[i]) && FieldLines(f)[i] != "---"
  {
    var first := FieldLines(f)[0];
    assert first[0] == f.key[0];
    assert "  - "[0] == ' ' && "---"[0] == '-';
    assert NoFeed(": ") && NoFeed("  - ") && NoFeed(f.key);
    if f.block.Sequence? {
      forall i | 0 < i < |FieldLines(f)|
        ensures NoFeed(FieldLines(f)[i]) && FieldLines(f)[i] != "---"
      {
        ItemLineAt(f.block.items, i - 1);
        assert FieldLines(f)[i] == ItemLine(f.block.items[i - 1]);
        assert FieldLines(f)[i][0] == ' ';
      }
    }
  }

  ghost predicate GoodFields(fields: seq<Field>)
  {
    forall i | 0 <= i < |fields| :: GoodField(fields[i])
  }

  lemma {:induction false} AllLinesGood(fields: seq<Field>)
    requires GoodFields(fields)
    ensures fields != [] ==> AllLines(fields) != [] && !IsItemLine(AllLines(fields)[0])
    ensures forall i | 0 <= i < |AllLines(fields)| :: NoFeed(AllLines(fields)[i]) && AllLines(fields)[i] != "---"
  {
    if fields != [] {
      FieldLinesStart(fields[0]);
      AllLinesGood(fields[1..]);
    }
  }

  lemma FieldReads(f: Field, more: seq<string>)
    requires GoodField(f) && ReadFields(more).Some? && (more == [] || !IsItemLine(more[0]))
    ensures ReadFields(FieldLines(f) + more) == Some([f] + ReadFields(more).value)
  {
    match f.block {
      case Inline(text) => InlineReads(f.key, text, more);
      case Sequence(items) =>
        SequenceReads(f.key, items, more);
        assert FieldLines(f) + more == [f.key + ":"] + (ItemLines(items) + more);
    }
  }

  /** Printing fields and reading the lines gives the same fields. */
  lemma {:induction false} FieldsRead(fields: seq<Field>)
    requires GoodFields(fields)
    ensures ReadFields(AllLines(fields)) == Some(fields)
  {
    if fields != [] {
      assert GoodField(fields[0]);
      FieldsRead(fields[1..]);
      AllLinesGood(fields[1..]);
      FieldReads(fields[0], AllLines(fields[1..]));
      assert [fields[0]] + fields[1..] == fields;
    }
  }

  lemma {:induction false} FenceFound(lines: seq<string>, more: seq<string>)
    requires forall i | 0 <= i < |lines| :: lines[i] != "---"
    ensures FenceAt(lines + ["---"] + more) == |lines|
  {
    if lines == [] {
      assert lines + ["---"] + more == ["---"] + more;
    } else {
      assert (lines + ["---"] + more)[1..] == lines[1..] + ["---"] + more;
      FenceFound(lines[1..], more);
    }
  }

  lemma PartFound(inner: seq<string>, after: seq<string>)
    requires forall i | 0 <= i < |inner| :: inner[i] != "---"
    ensures FencedPart(["---"] + inner + ["---"] + after) == Some(inner)
  {
    var lines := ["---"] + inner + ["---"] + after;
    var behind := inner + ["---"] + after;
    assert lines[1..] == behind;
    FenceFound(inner, after);
    assert behind[..|inner|] == inner;
  }

  lemma Fenced(fields: seq<Field>, body: string)
    requires GoodFields(fields)
    ensures ReadFrontmatter("---\n" + Unlines(AllLines(fields)) + "---\n" + body) == Some(fields)
  {
    AllLinesGood(fields);
    FencedText(AllLines(fields), body);
    FenceSplit(AllLines(fields), body);
    PartFound(AllLines(fields), SplitLines(body));
    FieldsRead(fields);
  }

  lemma FenceSplit(inner: seq<string>, body: string)
    requires forall i | 0 <= i < |inner| :: NoFeed(inner[i])
    ensures SplitLines(Unlines(["---"] + inner + ["---"]) + body) == ["---"] + inner + ["---"] + SplitLines(body)
  {
    assert NoFeed("---");
    LinesSplit(["---"] + inner + ["---"], body);
  }

  lemma FencedText(inner: seq<string>, body: string)
    ensures "---\n" + Unlines(inner) + "---\n" + body == Unlines(["---"] + inner + ["---"]) + body
  {
    UnlinesConcat(["---"] + inner, ["---"]);
    UnlinesConcat(["---"], inner);
    assert ["---"][1..] == [];
    assert Unlines(["---"]) == "---\n";
  }

  // ------------------------------------------------------------- the whole frontmatter

  lemma OneLineNoFeed(t: string)
    requires OneLine(t)
    ensures NoFeed(t)
  {
  }

  lemma {:induction false} DigitsNoFeed(s: string)
    requires AllDigits(s)
    ensures NoFeed(s)
  {
  }

  lemma {:induction false} ScalarsNoFeed(items: seq<string>)
    ensures forall i | 0 <= i < |YamlPrinter.Scalars(items)| :: NoFeed(YamlPrinter.Scalars(items)[i])
  {
    if items != [] {
      ScalarIsOneLine(items[0]);
      OneLineNoFeed(YamlPrinter.Scalar(items[0]));
      ScalarsNoFeed(items[1..]);
    }
  }

  lemma ListFieldGood(key: string, items: seq<string>)
    requires IsKey(key)
    ensures GoodField(ListField(key, items))
  {
    ScalarsNoFeed(items);
  }

  lemma ScalarFieldGood(key: string, s: string)
    requires IsKey(key)
    ensures GoodField(Field(key, Inline(YamlPrinter.Scalar(s))))
  {
    ScalarIsOneLine(s);
    OneLineNoFeed(YamlPrinter.Scalar(s));
  }

  lemma KeysAreKeys()
    ensures IsKey("title") && IsKey("date") && IsKey("started_at") && IsKey("duration_ms") && IsKey("languages")
    ensures IsKey("speakers") && IsKey("tags") && IsKey("template") && IsKey("dialect")
    ensures IsKey("panops_version") && IsKey("source_audio")
  {
  }

  lemma HeadGood(n: Notes)
    requires NoFeed(n.date) && NoFeed(n.startedAt)
    ensures GoodFields(HeadOf(n))
  {
    KeysAreKeys();
    ScalarFieldGood("title", n.title);
    ListIsOneLine(n.languages);
    OneLineNoFeed(YamlPrinter.List(n.languages));
    DigitsNoFeed(Decimal(n.durationMs));
    FiveGood(Field("title", Inline(YamlPrinter.Scalar(n.title))), Field("date", Inline(n.date)),
             Field("started_at", Inline(n.startedAt)), Field("duration_ms", Inline(Decimal(n.durationMs))),
             Field("languages", Inline(YamlPrinter.List(n.languages))));
  }

  lemma FiveGood(a: Field, b: Field, c: Field, d: Field, e: Field)
    requires GoodField(a) && GoodField(b) && GoodField(c) && GoodField(d) && GoodField(e)
    ensures GoodFields([a, b, c, d, e])
  {
  }

  lemma ThreeGood(a: Field, b: Field, c: Field, more: seq<Field>)
    requires GoodField(a) && GoodField(b) && GoodField(c) && GoodFields(more)
    ensures GoodFields([a, b, c] + more)
  {
  }

  lemma DialectGood(d: Dialect)
    ensures NoFeed(DialectName(d))
  {
  }

  lemma AudioGood(n: Notes)
    ensures GoodFields(AudioOf(n))
  {
    KeysAreKeys();
    if n.sourceAudio.Some? {
      ScalarFieldGood("source_audio", n.sourceAudio.value);
    }
  }

  lemma TailGood(n: Notes)
    ensures GoodFields(TailOf(n))
  {
    KeysAreKeys();
    ScalarFieldGood("template", n.template);
    ScalarFieldGood("panops_version", n.version);
    DialectGood(n.dialect);
    AudioGood(n);
    ThreeGood(Field("template", Inline(YamlPrinter.Scalar(n.template))),
              Field("dialect", Inline(DialectName(n.dialect))),
              Field("panops_version", Inline(YamlPrinter.Scalar(n.version))), AudioOf(n));
  }

  lemma AllGood(n: Notes)
    requires NoFeed(n.date) && NoFeed(n.startedAt)
    ensures GoodFields(FieldsOf(n))
  {
    KeysAreKeys();
    HeadGood(n);
    TailGood(n);
    ListFieldGood("speakers", Humanized(n.speakers));
    ListFieldGood("tags", n.tags);
    TwoGood(HeadOf(n), ListField("speakers", Humanized(n.speakers)), ListField("tags", n.tags), TailOf(n));
  }

  lemma TwoGood(head: seq<Field>, a: Field, b: Field, tail: seq<Field>)
    requires GoodFields(head) && GoodField(a) && GoodField(b) && GoodFields(tail)
    ensures GoodFields(head + [a] + [b] + tail)
  {
  }

  /** Whatever the title, the tags and the rest contain, and whatever the notes after it
      are, a reader finds the fields that were printed, no more and no others. */
  lemma FrontmatterReadsBack(n: Notes, body: string)
    requires NoFeed(n.date) && NoFeed(n.startedAt)
    ensures ReadFrontmatter(Rendered(n) + body) == Some(FieldsOf(n))
  {
    AllGood(n);
    Fenced(FieldsOf(n), body);
    assert Rendered(n) + body == "---\n" + Unlines(AllLines(FieldsOf(n))) + "---\n" + body;
  }

  // ------------------------------------------------------------------ their meaning

  function ReadAll(texts: seq<string>): (r: Option<seq<Node>>)
  {
    if texts == [] then Some([])
    else
      var head, tail := ReadScalar(texts[0]), ReadAll(texts[1..]);
      if head.Some? && tail.Some? then Some([head.value] + tail.value) else None
  }

  /** A list, written as a block sequence or a flow sequence. */
  function ReadList(b: Block): (r: Option<seq<Node>>)
  {
    match b
    case Inline(text) => ReadFlow(text)
    case Sequence(items) => ReadAll(items)
  }

  function ReadText(b: Block): (r: Option<Node>)
  {
    if b.Inline? then ReadScalar(b.text) else None
  }

  lemma {:induction false} ScalarsReadBack(items: seq<string>)
    ensures ReadAll(YamlPrinter.Scalars(items)) == Some(StringNodes(items))
  {
    if items != [] {
      ScalarRoundTrip(items[0]);
      ScalarsReadBack(items[1..]);
    }
  }

  lemma ListFieldReads(key: string, items: seq<string>)
    ensures ReadList(ListField(key, items).block) == Some(StringNodes(items))
  {
    if items == [] {
      ListRoundTrip(items);
    } else {
      ScalarsReadBack(items);
    }
  }

  lemma DigitsArePlain(t: string)
    requires IsDigits(t)
    ensures IsPlain(t, false) && t[0] != '"' && StripBlanks(SkipBlanks(t)) == t
  {
    NothingToStrip(t);
    assert '0' <= t[0] <= '9';
  }

  lemma DigitsAreAnInt(t: string)
    requires IsDigits(t)
    ensures Resolve(t) == Int(t)
  {
    assert '0' <= t[0] <= '9';
    assert AfterSign(t) == t;
  }

  predicate IsTimeChar(c: char)
  {
    '0' <= c <= '9' || c == '-' || c == ':' || c == '+' || c == '.' || c == 'T'
  }

  /** The shape of a date and of a time: a year of four digits, then a hyphen. */
  predicate IsTime(t: string)
  {
    && |t| > 5 && (forall i | 0 <= i < 4 :: '0' <= t[i] <= '9') && t[4] == '-'
    && (forall i | 0 <= i < |t| :: IsTimeChar(t[i])) && '0' <= t[|t| - 1] <= '9'
  }

  lemma TimeIsPlain(t: string)
    requires IsTime(t)
    ensures IsPlain(t, false) && t[0] != '"' && StripBlanks(SkipBlanks(t)) == t
  {
    assert '0' <= t[0] <= '9';
    NothingToStrip(t);
    TimeIsSafe(t);
  }

  lemma TimeIsSafe(t: string)
    requires IsTime(t)
    ensures IsPlain(t, false)
  {
    assert !IsIndicator(t[0]) && !IsBlank(t[0]) && !IsBlank(t[|t| - 1]);
    forall i | 0 <= i < |t|
      ensures IsPlainSafe(t[i], false) && !IsBlank(t[i]) && t[i] != '#'
    {
      assert IsTimeChar(t[i]);
    }
  }

  /** The hyphen behind the year ends every number. */
  lemma NoMantissa(x: string)
    requires |x| > 4 && x[4] == '-' && forall i | 0 <= i < 4 :: '0' <= x[i] <= '9'
    ensures !IsMantissa(x)
  {
    forall dot | 0 <= dot < |x|
      ensures !DottedAt(x, dot)
    {
      assert dot > 4 ==> x[..dot][4] == '-';
    }
  }

  lemma TimeIsNoFloat(t: string)
    requires IsTime(t)
    ensures !IsCoreFloat(t)
  {
    assert '0' <= t[0] <= '9' && AfterSign(t) == t;
    forall k | 0 <= k <= |t|
      ensures !(IsMantissa(t[..k]) && (k == |t| || IsExponentPart(t[k..])))
    {
      if k > 4 {
        NoMantissa(t[..k]);
      } else {
        assert t[k..][0] == t[k];
      }
    }
  }

  /** A date or a time reads as a string: the core schema has no other type for it. */
  lemma TimeReads(t: string)
    requires IsTime(t)
    ensures ReadScalar(t) == Some(Str(t))
  {
    TimeIsPlain(t);
    TimeResolves(t);
    PlainScalarReads(t);
  }

  lemma PlainScalarReads(t: string)
    requires IsPlain(t, false) && t[0] != '"' && StripBlanks(SkipBlanks(t)) == t
    ensures ReadScalar(t) == Some(Resolve(t))
  {
  }

  lemma TimeResolves(t: string)
    requires IsTime(t)
    ensures Resolve(t) == Str(t)
  {
    TimeIsNoFloat(t);
    assert '0' <= t[0] <= '9' && '0' <= t[1] <= '9' && t[4] == '-';
    assert AfterSign(t) == t && !IsDigits(t);
    assert |t| > 2 ==> t[..2][1] == t[1];
    assert "0o"[1] == 'o' && "0x"[1] == 'x';
  }

  predicate IsWord(t: string)
  {
    t != [] && (forall i | 0 <= i < |t| :: 'a' <= t[i] <= 'z' || t[i] == '-') && 'a' <= t[0] <= 'z'
    && 'a' <= t[|t| - 1] <= 'z'
  }

  lemma WordIsNoNumber(t: string)
    requires IsWord(t)
    ensures !IsCoreFloat(t) && !IsCoreInt(t)
  {
    assert 'a' <= t[0] <= 'z' && AfterSign(t) == t;
    forall k | 0 <= k <= |t|
      ensures !IsMantissa(t[..k])
    {
      if k > 0 {
        assert t[..k][0] == t[0];
        assert forall dot | 0 < dot < k :: t[..k][..dot][0] == t[0];
      }
    }
  }

  lemma WordReads(t: string)
    requires IsWord(t) && t != "null" && t != "true" && t != "false"
    ensures ReadScalar(t) == Some(Str(t))
  {
    WordIsPlain(t);
    WordIsNoNumber(t);
    WordResolves(t);
    PlainScalarReads(t);
  }

  lemma WordIsPlain(t: string)
    requires IsWord(t)
    ensures IsPlain(t, false) && t[0] != '"' && StripBlanks(SkipBlanks(t)) == t
  {
    NothingToStrip(t);
    assert 'a' <= t[0] <= 'z' && !IsIndicator(t[0]);
  }

  lemma WordResolves(t: string)
    requires IsWord(t) && t != "null" && t != "true" && t != "false" && !IsCoreFloat(t) && !IsCoreInt(t)
    ensures Resolve(t) == Str(t)
  {
    assert 'a' <= t[0] <= 'z';
    assert "~"[0] == '~' && "Null"[0] == "NULL"[0] == 'N' && "True"[0] == "TRUE"[0] == 'T';
    assert "False"[0] == "FALSE"[0] == 'F';
  }

  lemma DialectReads(d: Dialect)
    ensures ReadScalar(DialectName(d)) == Some(Str(DialectName(d)))
  {
    assert |"notion-enhanced"| == 15 && "basic"[0] == 'b';
    WordReads(DialectName(d));
  }

  /** A string of digits reads as an integer. */
  lemma DigitsRead(t: string)
    requires IsDigits(t)
    ensures ReadScalar(t) == Some(Int(t))
  {
    DigitsArePlain(t);
    DigitsAreAnInt(t);
  }

  ghost predicate HoldsText(f: Field, key: string, s: string)
  {
    f.key == key && ReadText(f.block) == Some(Str(s))
  }

  ghost predicate HoldsList(f: Field, key: string, items: seq<string>)
  {
    f.key == key && ReadList(f.block) == Some(StringNodes(items))
  }

  lemma ScalarHolds(key: string, s: string)
    ensures HoldsText(Field(key, Inline(YamlPrinter.Scalar(s))), key, s)
  {
    ScalarRoundTrip(s);
  }

  lemma FlowHolds(key: string, items: seq<string>)
    ensures HoldsList(Field(key, Inline(YamlPrinter.List(items))), key, items)
  {
    ListRoundTrip(items);
  }

  lemma ListHolds(key: string, items: seq<string>)
    ensures HoldsList(ListField(key, items), key, items)
  {
    ListFieldReads(key, items);
  }

  lemma HeadMeans(n: Notes)
    ensures var f := HeadOf(n);
      && HoldsText(f[0], "title", n.title)
      && (IsTime(n.date) ==> HoldsText(f[1], "date", n.date))
      && (IsTime(n.startedAt) ==> HoldsText(f[2], "started_at", n.startedAt))
      && f[3].key == "duration_ms" && ReadText(f[3].block) == Some(Int(Decimal(n.durationMs)))
      && HoldsList(f[4], "languages", n.languages)
  {
    if IsTime(n.date) {
      TimeReads(n.date);
    }
    if IsTime(n.startedAt) {
      TimeReads(n.startedAt);
    }
    ScalarHolds("title", n.title);
    DigitsRead(Decimal(n.durationMs));
    FlowHolds("languages", n.languages);
  }

  lemma TailMeans(n: Notes)
    ensures var f := TailOf(n);
      && |f| == (if n.sourceAudio.Some? then 4 else 3)
      && HoldsText(f[0], "template", n.template)
      && HoldsText(f[1], "dialect", DialectName(n.dialect))
      && HoldsText(f[2], "panops_version", n.version)
      && (n.sourceAudio.Some? ==> HoldsText(f[3], "source_audio", n.sourceAudio.value))
  {
    ScalarHolds("template", n.template);
    DialectReads(n.dialect);
    ScalarHolds("panops_version", n.version);
    if n.sourceAudio.Some? {
      ScalarHolds("source_audio", n.sourceAudio.value);
    }
  }

  /** Each field holds the value it was printed from: strings, dates and times as strings,
      lists as lists of strings, the duration as an integer. */
  lemma FieldsMeanTheNotes(n: Notes)
    ensures var f := FieldsOf(n);
      && |f| == (if n.sourceAudio.Some? then 11 else 10)
      && HoldsText(f[0], "title", n.title)
      && (IsTime(n.date) ==> HoldsText(f[1], "date", n.date))
      && (IsTime(n.startedAt) ==> HoldsText(f[2], "started_at", n.startedAt))
      && f[3].key == "duration_ms" && ReadText(f[3].block) == Some(Int(Decimal(n.durationMs)))
      && HoldsList(f[4], "languages", n.languages)
      && HoldsList(f[5], "speakers", Humanized(n.speakers))
      && HoldsList(f[6], "tags", n.tags)
      && HoldsText(f[7], "template", n.template)
      && HoldsText(f[8], "dialect", if n.dialect == NotionEnhanced then "notion-enhanced" else "basic")
      && HoldsText(f[9], "panops_version", n.version)
      && (n.sourceAudio.Some? ==> HoldsText(f[10], "source_audio", n.sourceAudio.value))
  {
    HeadMeans(n);
    TailMeans(n);
    ListHolds("speakers", Humanized(n.speakers));
    ListHolds("tags", n.tags);
    Placed(HeadOf(n), ListField("speakers", Humanized(n.speakers)), ListField("tags", n.tags), TailOf(n));
  }

  lemma Placed(head: seq<Field>, a: Field, b: Field, tail: seq<Field>)
    requires |head| == 5
    ensures var f := head + [a] + [b] + tail;
      && |f| == 7 + |tail| && f[5] == a && f[6] == b
      && (forall i | 0 <= i < 5 :: f[i] == head[i])
      && (forall i | 7 <= i < |f| :: f[i] == tail[i - 7])
  {
  }
}
