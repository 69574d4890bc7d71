/** The YAML frontmatter of exported notes, `render_frontmatter`: its lines, and a
    reader of the file that finds the fields in them again. The reader knows block
    mappings whose values stand on the line of their key or are block sequences below
    it; it does not know how the lines were printed, and takes any text after the
    second fence. */
module Frontmatter {
  import opened Options
  import opened Decimals
  import YamlPrinter

  datatype Dialect = NotionEnhanced | Basic

  /** `date` and `startedAt` are the formatted times. */
  datatype Notes = Notes(
    title: string, date: string, startedAt: string, durationMs: nat, languages: seq<string>,
    speakers: seq<string>, tags: seq<string>, template: string, dialect: Dialect,
    version: string, sourceAudio: Option<string>)

  const MAX_U32: nat := 0xFFFF_FFFF

  function DialectName(d: Dialect): (r: string)
  {
    match d
    case NotionEnhanced => "notion-enhanced"
    case Basic => "basic"
  }

  /** `parse::<u32>()`. */
  function ParseU32(s: string): (r: Option<nat>)
  {
    var digits := if s != [] && s[0] == '+' then s[1..] else s;
    if digits != [] && AllDigits(digits) && Value(digits) <= MAX_U32 then Some(Value(digits)) else None
  }

  function HumanizeSpeakerId(raw: string): (r: string)
  {
    var id := if "speaker_" <= raw then ParseU32(raw[8..]) else None;
    if id.None? then raw
    else "Speaker " + Decimal(if id.value == MAX_U32 then MAX_U32 else id.value + 1)
  }

  function Humanized(speakers: seq<string>): (r: seq<string>)
    ensures |r| == |speakers|
  {
    if speakers == [] then [] else [HumanizeSpeakerId(speakers[0])] + Humanized(speakers[1..])
  }

  /** `speaker_` and a number below 2^32 - 1 is the speaker with the next number; the last
      number stays, and a greater one is no speaker. */
  lemma SpeakerIs(digits: string, n: nat)
    requires digits != [] && AllDigits(digits) && Value(digits) == n
    ensures n < 0xFFFF_FFFF ==> HumanizeSpeakerId("speaker_" + digits) == "Speaker " + Decimal(n + 1)
    ensures n == 0xFFFF_FFFF ==> HumanizeSpeakerId("speaker_" + digits) == "Speaker " + Decimal(n)
    ensures n > 0xFFFF_FFFF ==> HumanizeSpeakerId("speaker_" + digits) == "speaker_" + digits
  {
    Prefixed(digits);
    assert '0' <= digits[0] <= '9';
  }

  lemma Prefixed(digits: string)
    ensures "speaker_" <= "speaker_" + digits && ("speaker_" + digits)[8..] == digits
  {
  }

  /** Everything else is left as it is: without the prefix, without a number behind it, or
      with anything but digits there, an optional plus sign in front of them aside. */
  lemma NoSpeaker(raw: string)
    requires !("speaker_" <= raw) || raw == "speaker_" || exists i | 9 <= i < |raw| :: !('0' <= raw[i] <= '9')
    ensures HumanizeSpeakerId(raw) == raw
  {
    if "speaker_" <= raw {
      NoNumber(raw);
    }
  }

  lemma NoNumber(raw: string)
    requires "speaker_" <= raw && (raw == "speaker_" || exists i | 9 <= i < |raw| :: !('0' <= raw[i] <= '9'))
    ensures HumanizeSpeakerId(raw) == raw
  {
    var s := raw[8..];
    var digits := if s != [] && s[0] == '+' then s[1..] else s;
    if raw != "speaker_" {
      var i :| 9 <= i < |raw| && !('0' <= raw[i] <= '9');
      assert digits[|digits| - (|raw| - i)] == raw[i];
    }
  }

  // ------------------------------------------------------------------------ printing

  datatype Block = Inline(text: string) | Sequence(items: seq<string>)

  datatype Field = Field(key: string, block: Block)

  function ItemLines(items: seq<string>): (r: seq<string>)
    ensures |r| == |items|
  {
    if items == [] then [] else [ItemLine(items[0])] + ItemLines(items[1..])
  }

  function ItemLine(item: string): (r: string)
  {
    "  - " + item
  }

  /** The line is an entry of a block sequence. */
  predicate IsItemLine(line: string)
  {
    "  - " <= line
  }

  lemma {:induction false} ItemLineAt(items: seq<string>, i: nat)
    requires i < |items|
    ensures ItemLines(items)[i] == ItemLine(items[i])
  {
    if i > 0 {
      ItemLineAt(items[1..], i - 1);
    }
  }

  lemma {:induction false} ItemLinesConcat(a: seq<string>, b: seq<string>)
    ensures ItemLines(a + b) == ItemLines(a) + ItemLines(b)
  {
    if a == [] {
      assert a + b == b;
    } else {
      assert (a + b)[1..] == a[1..] + b;
      ItemLinesConcat(a[1..], b);
    }
  }

  function FieldLines(f: Field): (r: seq<string>)
  {
    match f.block
    case Inline(text) => [f.key + ": " + text]
    case Sequence(items) => [f.key + ":"] + ItemLines(items)
  }

  function AllLines(fields: seq<Field>): (r: seq<string>)
  {
    if fields == [] then [] else FieldLines(fields[0]) + AllLines(fields[1..])
  }

  /** The lines, each with its line feed. */
  function Unlines(lines: seq<string>): (r: string)
  {
    if lines == [] then "" else lines[0] + "\n" + Unlines(lines[1..])
  }

  function ListField(key: string, items: seq<string>): (r: Field)
  {
    Field(key, if items == [] then Inline("[]") else Sequence(YamlPrinter.Scalars(items)))
  }

  function HeadOf(n: Notes): (r: seq<Field>)
  {
    [ Field("title", Inline(YamlPrinter.Scalar(n.title))),
      Field("date", Inline(n.date)),
      Field("started_at", Inline(n.startedAt)),
      Field("duration_ms", Inline(Decimal(n.durationMs))),
      Field("languages", Inline(YamlPrinter.List(n.languages))) ]
  }

  function TailOf(n: Notes): (r: seq<Field>)
  {
    [ Field("template", Inline(YamlPrinter.Scalar(n.template))),
      Field("dialect", Inline(DialectName(n.dialect))),
      Field("panops_version", Inline(YamlPrinter.Scalar(n.version))) ]
    + AudioOf(n)
  }

  function AudioOf(n: Notes): (r: seq<Field>)
  {
    if n.sourceAudio.Some? then [Field("source_audio", Inline(YamlPrinter.Scalar(n.sourceAudio.value)))] else []
  }

  function FieldsOf(n: Notes): (r: seq<Field>)
  {
    HeadOf(n) + [ListField("speakers", Humanized(n.speakers))] + [ListField("tags", n.tags)] + TailOf(n)
  }

  function Rendered(n: Notes): (r: string)
  {
    "---\n" + Unlines(AllLines(FieldsOf(n))) + "---\n"
  }

  lemma {:induction false} UnlinesConcat(a: seq<string>, b: seq<string>)
    ensures Unlines(a + b) == Unlines(a) + Unlines(b)
  {
    if a == [] {
      assert a + b == b;
    } else {
      assert (a + b)[1..] == a[1..] + b;
      UnlinesConcat(a[1..], b);
    }
  }

  lemma {:induction false} AllLinesConcat(a: seq<Field>, b: seq<Field>)
    ensures AllLines(a + b) == AllLines(a) + AllLines(b)
  {
    if a == [] {
      assert a + b == b;
    } else {
      assert (a + b)[1..] == a[1..] + b;
      AllLinesConcat(a[1..], b);
    }
  }

  /** What the fields before the end of a list print. */
  function Text(fields: seq<Field>): (r: string)
  {
    Unlines(AllLines(fields))
  }

  lemma TextAppend(fields: seq<Field>, f: Field)
    ensures Text(fields + [f]) == Text(fields) + Unlines(FieldLines(f))
  {
    AllLinesConcat(fields, [f]);
    assert [f][1..] == [];
    assert AllLines([f]) == FieldLines(f);
    UnlinesConcat(AllLines(fields), FieldLines(f));
  }

  lemma InlineText(fields: seq<Field>, key: string, text: string)
    ensures Text(fields + [Field(key, Inline(text))]) == Text(fields) + (key + ": " + text + "\n")
  {
    TextAppend(fields, Field(key, Inline(text)));
    assert [key + ": " + text][1..] == [];
    assert Unlines([key + ": " + text]) == key + ": " + text + "\n";
  }

  /** One `key: text` line. */
  method PushField(s0: string, ghost before: seq<Field>, key: string, text: string)
      returns (s: string, ghost after: seq<Field>)
    requires s0 == Text(before)
    ensures after == before + [Field(key, Inline(text))] && s == Text(after)
  {
    s, after := s0 + (key + ": " + text + "\n"), before + [Field(key, Inline(text))];
    InlineText(before, key, text);
  }

  /** The speakers, or the tags. */
  method PushList(s0: string, ghost before: seq<Field>, key: string, items: seq<string>)
      returns (s: string, ghost after: seq<Field>)
    requires s0 == Text(before)
    ensures after == before + [ListField(key, items)] && s == Text(after)
  {
    if |items| == 0 {
      s, after := PushField(s0, before, key, "[]");
    } else {
      var text := PushItems(items);
      s, after := s0 + (key + ":" + "\n" + text), before + [ListField(key, items)];
      TextAppend(before, ListField(key, items));
      SequenceText(key, YamlPrinter.Scalars(items));
    }
  }

  lemma SequenceText(key: string, texts: seq<string>)
    ensures Unlines(FieldLines(Field(key, Sequence(texts)))) == key + ":" + "\n" + Unlines(ItemLines(texts))
  {
    assert ([key + ":"] + ItemLines(texts))[1..] == ItemLines(texts);
  }

  method PushItems(items: seq<string>) returns (s: string)
    ensures s == Unlines(ItemLines(YamlPrinter.Scalars(items)))
  {
    s := "";
    ghost var texts := YamlPrinter.Scalars(items);
    for i := 0 to |items|
      invariant s == Unlines(ItemLines(texts[..i]))
    {
      var text := YamlPrinter.YamlScalar(items[i]);
      s := s + ("  - " + text + "\n");
      ScalarsAt(items, i);
      ItemAppended(texts, i);
    }
    assert texts[..|items|] == texts;
  }

  lemma {:induction false} ScalarsAt(items: seq<string>, i: nat)
    requires i < |items|
    ensures YamlPrinter.Scalars(items)[i] == YamlPrinter.Scalar(items[i])
  {
    if i > 0 {
      ScalarsAt(items[1..], i - 1);
    }
  }

  lemma ItemAppended(texts: seq<string>, i: nat)
    requires i < |texts|
    ensures Unlines(ItemLines(texts[..i + 1])) == Unlines(ItemLines(texts[..i])) + ("  - " + texts[i] + "\n")
  {
    var line := ItemLine(texts[i]);
    assert texts[..i + 1] == texts[..i] + [texts[i]];
    ItemLinesConcat(texts[..i], [texts[i]]);
    assert [texts[i]][1..] == [];
    assert ItemLines([texts[i]]) == [line];
    UnlinesConcat(ItemLines(texts[..i]), [line]);
    assert [line][1..] == [];
  }

  method RenderHead(n: Notes) returns (s: string, ghost f: seq<Field>)
    ensures f == HeadOf(n) && s == Text(f)
  {
    var title := YamlPrinter.YamlScalar(n.title);
    s, f := PushField("", [], "title", title);
    s, f := PushField(s, f, "date", n.date);
    s, f := PushField(s, f, "started_at", n.startedAt);
    s, f := PushField(s, f, "duration_ms", Decimal(n.durationMs));
    s, f := PushField(s, f, "languages", YamlPrinter.List(n.languages));
  }

  method RenderTail(n: Notes, s0: string, ghost before: seq<Field>) returns (s: string, ghost f: seq<Field>)
    requires s0 == Text(before)
    ensures f == before + TailOf(n) && s == Text(f)
  {
    var template := YamlPrinter.YamlScalar(n.template);
    var version := YamlPrinter.YamlScalar(n.version);
    s, f := PushField(s0, before, "template", template);
    s, f := PushField(s, f, "dialect", DialectName(n.dialect));
    s, f := PushField(s, f, "panops_version", version);
    if n.sourceAudio.Some? {
      var audio := YamlPrinter.YamlScalar(n.sourceAudio.value);
      s, f := PushField(s, f, "source_audio", audio);
    }
  }

  /** `render_frontmatter`. */
  method RenderFrontmatter(n: Notes) returns (s: string)
    ensures s == Rendered(n)
  {
    ghost var f;
    s, f := RenderHead(n);
    s, f := PushList(s, f, "speakers", Humanized(n.speakers));
    s, f := PushList(s, f, "tags", n.tags);
    s, f := RenderTail(n, s, f);
    assert f == FieldsOf(n);
    s := "---\n" + s + "---\n";
  }

  // ------------------------------------------------------------------------- reading

  function LineEnd(t: string): (n: nat)
    ensures n <= |t|
    ensures n < |t| ==> t[n] == '\n'
    ensures forall i | 0 <= i < n :: t[i] != '\n'
  {
    if t == [] || t[0] == '\n' then 0 else 1 + LineEnd(t[1..])
  }

  function SplitLines(t: string): (r: seq<string>)
    decreases |t|
  {
    var n := LineEnd(t);
    if n == |t| then [t] else [t[..n]] + SplitLines(t[n + 1..])
  }

  function KeyEnd(line: string): (n: nat)
    ensures n <= |line|
  {
    if line == [] || line[0] == ':' then 0 else 1 + KeyEnd(line[1..])
  }

  /** How many lines from here on are entries of a block sequence. */
  function ItemCount(lines: seq<string>): (n: nat)
    ensures n <= |lines|
    ensures forall i | 0 <= i < n :: IsItemLine(lines[i])
  {
    if lines == [] || !IsItemLine(lines[0]) then 0 else 1 + ItemCount(lines[1..])
  }

  function DropDashes(lines: seq<string>): (r: seq<string>)
    requires forall i | 0 <= i < |lines| :: IsItemLine(lines[i])
  {
    if lines == [] then []
    else
      assert IsItemLine(lines[0]);
      [lines[0][4..]] + DropDashes(lines[1..])
  }

  /** A block mapping whose values are inline or block sequences. */
  function ReadFields(lines: seq<string>): (r: Option<seq<Field>>)
    decreases |lines|
  {
    if lines == [] then Some([])
    else
      var k := KeyEnd(lines[0]);
      if k == |lines[0]| then None
      else
        var key, text := lines[0][..k], lines[0][k + 1..];
        var n := if text == [] then ItemCount(lines[1..]) else 0;
        var tail := ReadFields(lines[1..][n..]);
        if tail.None? || (text != [] && text[0] != ' ') then None
        else if text == [] then Some([Field(key, Sequence(DropDashes(lines[1..][..n])))] + tail.value)
        else Some([Field(key, Inline(text[1..]))] + tail.value)
  }

  /** The number of lines before the first fence. */
  function FenceAt(lines: seq<string>): (n: nat)
    ensures n <= |lines|
  {
    if lines == [] || lines[0] == "---" then 0 else 1 + FenceAt(lines[1..])
  }

  /** The lines between two fences, of which the first is the first line. */
  function FencedPart(lines: seq<string>): (r: Option<seq<string>>)
    requires lines != []
  {
    if lines[0] != "---" then None
    else
      var n := FenceAt(lines[1..]);
      if n == |lines| - 1 then None else Some(lines[1..][..n])
  }

  /** The fields between the two fences at the start of a file. */
  function ReadFrontmatter(t: string): (r: Option<seq<Field>>)
  {
    var inner := FencedPart(SplitLines(t));
    if inner.Some? then ReadFields(inner.value) else None
  }
}
