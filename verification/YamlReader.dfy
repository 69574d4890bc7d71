/** A reader for the part of YAML 1.2.2 that frontmatter uses. */
module YamlReader {
  import opened Options

  // Double-quoted scalars (sections 5.7 and 7.3.1), plain scalars on one line (7.3.3)
  // resolved by the core schema (10.3.2), and flow sequences of scalars (7.4.1).

  datatype Node = Str(text: string) | Null | Bool(truth: bool) | Int(text: string) | Float(text: string)

  // ------------------------------------------------------------ characters (5.3 to 5.6)

  predicate IsBlank(c: char)
  {
    c == ' ' || c == '\t'
  }

  predicate IsFlowIndicator(c: char)
  {
    c in ",[]{}"
  }

  predicate IsIndicator(c: char)
  {
    c in "-?:,[]{}#&*!|>'\"%@`"
  }

  function SkipBlanks(t: string): (r: string)
    ensures |r| <= |t|
  {
    if t != [] && IsBlank(t[0]) then SkipBlanks(t[1..]) else t
  }

  function StripBlanks(t: string): (r: string)
    ensures |r| <= |t|
  {
    if t != [] && IsBlank(t[|t| - 1]) then StripBlanks(t[..|t| - 1]) else t
  }

  // ------------------------------------------------------- double-quoted scalars (7.3.1)

  function HexValue(c: char): (v: Option<nat>)
  {
    if '0' <= c <= '9' then Some((c - '0') as nat)
    else if 'a' <= c <= 'f' then Some((c - 'a') as nat + 10)
    else if 'A' <= c <= 'F' then Some((c - 'A') as nat + 10)
    else None
  }

  function HexNumber(s: string): (v: Option<nat>)
  {
    if s == [] then Some(0)
    else
      var high, low := HexNumber(s[..|s| - 1]), HexValue(s[|s| - 1]);
      if high.Some? && low.Some? then Some(16 * high.value + low.value) else None
  }

  datatype Piece = Piece(c: char, rest: string)

  /** A hexadecimal escape with the given number of digits. */
  function ReadHex(t: string, digits: nat): (r: Option<Piece>)
    ensures r.Some? ==> |r.value.rest| <= |t|
  {
    if |t| < digits then None
    else
      var v := HexNumber(t[..digits]);
      if v.Some? && (v.value < 0xD800 || 0xE000 <= v.value < 0x11_0000) then
        Some(Piece(v.value as char, t[digits..]))
      else None
  }

  /** What follows a backslash (5.7). */
  function ReadEscape(t: string): (r: Option<Piece>)
    ensures r.Some? ==> |r.value.rest| < |t|
  {
    if t == [] then None
    else
      match t[0]
      case '0' => Some(Piece(0 as char, t[1..]))
      case 'a' => Some(Piece(7 as char, t[1..]))
      case 'b' => Some(Piece(8 as char, t[1..]))
      case 't' => Some(Piece(9 as char, t[1..]))
      case '\t' => Some(Piece(9 as char, t[1..]))
      case 'n' => Some(Piece(10 as char, t[1..]))
      case 'v' => Some(Piece(11 as char, t[1..]))
      case 'f' => Some(Piece(12 as char, t[1..]))
      case 'r' => Some(Piece(13 as char, t[1..]))
      case 'e' => Some(Piece(27 as char, t[1..]))
      case ' ' => Some(Piece(' ', t[1..]))
      case '"' => Some(Piece('"', t[1..]))
      case '/' => Some(Piece('/', t[1..]))
      case '\\' => Some(Piece('\\', t[1..]))
      case 'N' => Some(Piece(0x85 as char, t[1..]))
      case '_' => Some(Piece(0xA0 as char, t[1..]))
      case 'L' => Some(Piece(0x2028 as char, t[1..]))
      case 'P' => Some(Piece(0x2029 as char, t[1..]))
      case 'x' => ReadHex(t[1..], 2)
      case 'u' => ReadHex(t[1..], 4)
      case 'U' => ReadHex(t[1..], 8)
      case _ => None
  }

  datatype Quoted = Quoted(text: string, rest: string)

  /** The content after an opening quote, and what follows the closing one. A raw
      control character other than a tab is not allowed (nb-json). */
  function ReadQuoted(t: string): (r: Option<Quoted>)
    ensures r.Some? ==> |r.value.rest| < |t|
    decreases |t|
  {
    if t == [] then None
    else if t[0] == '"' then Some(Quoted("", t[1..]))
    else
      var piece :=
        if t[0] == '\\' then ReadEscape(t[1..])
        else if (t[0] as int) < 0x20 && t[0] != '\t' then None
        else Some(Piece(t[0], t[1..]));
      if piece.None? then None
      else
        var tail := ReadQuoted(piece.value.rest);
        if tail.None? then None else Some(Quoted([piece.value.c] + tail.value.text, tail.value.rest))
  }

  // -------------------------------------------------------------- plain scalars (7.3.3)

  /** The character may stand in a plain scalar: not a break or a control, and inside a
      flow collection not a flow indicator. */
  predicate IsPlainSafe(c: char, inFlow: bool)
  {
    (c as int) >= 0x20 && c as int != 0x7f && !(inFlow && IsFlowIndicator(c))
  }

  predicate IsPlain(t: string, inFlow: bool)
  {
    && t != []
    && !IsBlank(t[0]) && !IsBlank(t[|t| - 1])
    && (IsIndicator(t[0]) ==> t[0] in "?:-" && |t| > 1 && !IsBlank(t[1]) && IsPlainSafe(t[1], inFlow))
    && (forall i | 0 <= i < |t| :: IsPlainSafe(t[i], inFlow) || t[i] == '\t')
    && (forall i | 0 <= i < |t| :: t[i] == ':' ==> i + 1 < |t| && !IsBlank(t[i + 1]))
    && (forall i | 0 < i < |t| :: t[i] == '#' ==> !IsBlank(t[i - 1]))
  }

  // ---------------------------------------------------------------- core schema (10.3.2)

  predicate IsDigits(s: string)
  {
    s != [] && forall i | 0 <= i < |s| :: '0' <= s[i] <= '9'
  }

  function AfterSign(s: string): (r: string)
  {
    if s != [] && (s[0] == '-' || s[0] == '+') then s[1..] else s
  }

  predicate IsCoreInt(s: string)
  {
    || IsDigits(AfterSign(s))
    || (|s| > 2 && s[..2] == "0o" && forall i | 2 <= i < |s| :: '0' <= s[i] <= '7')
    || (|s| > 2 && s[..2] == "0x" && forall i | 2 <= i < |s| :: HexValue(s[i]).Some?)
  }

  /** A dot before some digits, or after some digits and possibly before more. */
  predicate DottedAt(s: string, dot: nat)
  {
    && dot < |s| && s[dot] == '.'
    && if dot == 0 then IsDigits(s[1..]) else IsDigits(s[..dot]) && (s[dot + 1..] == [] || IsDigits(s[dot + 1..]))
  }

  predicate IsMantissa(s: string)
  {
    IsDigits(s) || exists dot | 0 <= dot < |s| :: DottedAt(s, dot)
  }

  predicate IsExponentPart(s: string)
  {
    |s| > 1 && (s[0] == 'e' || s[0] == 'E') && IsDigits(AfterSign(s[1..]))
  }

  predicate IsCoreFloat(s: string)
  {
    var body := AfterSign(s);
    || (exists k | 0 <= k <= |body| :: IsMantissa(body[..k]) && (k == |body| || IsExponentPart(body[k..])))
    || body in {".inf", ".Inf", ".INF"}
    || s in {".nan", ".NaN", ".NAN"}
  }

  function Resolve(s: string): (r: Node)
  {
    if s in {"", "~", "null", "Null", "NULL"} then Null
    else if s in {"true", "True", "TRUE"} then Bool(true)
    else if s in {"false", "False", "FALSE"} then Bool(false)
    else if IsCoreInt(s) then Int(s)
    else if IsCoreFloat(s) then Float(s)
    else Str(s)
  }

  // ------------------------------------------------------------------------ whole values

  /** A block value on one line; `None` when it is not a scalar or not well formed. */
  function ReadScalar(t: string): (r: Option<Node>)
  {
    var u := StripBlanks(SkipBlanks(t));
    if u == [] then Some(Null)
    else if u[0] == '"' then
      var q := ReadQuoted(u[1..]);
      if q.Some? && q.value.rest == [] then Some(Str(q.value.text)) else None
    else if IsPlain(u, false) then Some(Resolve(u))
    else None
  }

  /** How far a plain scalar inside a flow sequence reaches. */
  function FlowRun(t: string): (n: nat)
    ensures n <= |t|
  {
    if t == [] || IsFlowIndicator(t[0]) then 0 else 1 + FlowRun(t[1..])
  }

  datatype Entry = Entry(node: Node, rest: string)

  function ReadEntry(u: string): (r: Option<Entry>)
    ensures r.Some? ==> |r.value.rest| < |u|
  {
    if u != [] && u[0] == '"' then
      var q := ReadQuoted(u[1..]);
      if q.Some? then Some(Entry(Str(q.value.text), q.value.rest)) else None
    else
      var n := FlowRun(u);
      var text := StripBlanks(u[..n]);
      if IsPlain(text, true) then Some(Entry(Resolve(text), u[n..])) else None
  }

  datatype Items = Items(nodes: seq<Node>, rest: string)

  /** The entries after an opening bracket; a trailing comma is allowed. */
  function ReadItems(t: string): (r: Option<Items>)
    decreases |t|
  {
    var u := SkipBlanks(t);
    if u == [] then None
    else if u[0] == ']' then Some(Items([], u[1..]))
    else
      var entry := ReadEntry(u);
      if entry.None? then None
      else
        var v := SkipBlanks(entry.value.rest);
        if v == [] then None
        else if v[0] == ']' then Some(Items([entry.value.node], v[1..]))
        else if v[0] == ',' then
          var tail := ReadItems(v[1..]);
          if tail.None? then None else Some(Items([entry.value.node] + tail.value.nodes, tail.value.rest))
        else None
  }

  /** A flow sequence that takes up the whole value. */
  function ReadFlow(t: string): (r: Option<seq<Node>>)
  {
    var u := StripBlanks(SkipBlanks(t));
    if u == [] || u[0] != '[' then None
    else
      var items := ReadItems(u[1..]);
      if items.Some? && items.value.rest == [] then Some(items.value.nodes) else None
  }
}
