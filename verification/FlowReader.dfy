// An independent reader of one-line flow text: flow collections of section 7.4 of
// YAML 1.2.2, the escapes of section 5.7, and the nulls, booleans and decimal
// integers of the core schema (section 10.3.2). It knows no tags, anchors,
// comments or single quotes.
module FlowReader {
  import opened Prelude
  import D = Decimal

  datatype Tree =
    | TNull
    | TBool(b: bool)
    | TInt(i: int)
    | TString(s: string)
    | TSequence(items: seq<Tree>)
    | TMapping(entries: seq<(Tree, Tree)>)

  // ----- Double-quoted strings (sections 5.7 and 7.3.1) -------------------------------------------

  function HexValue(c: char): Option<nat> {
    if '0' <= c <= '9' then Some(c as int - '0' as int)
    else if 'a' <= c <= 'f' then Some(c as int - 'a' as int + 10)
    else if 'A' <= c <= 'F' then Some(c as int - 'A' as int + 10)
    else None
  }

  function HexNumber(s: string): Option<nat> {
    if s == "" then Some(0)
    else
      match (HexNumber(s[..|s| - 1]), HexValue(s[|s| - 1]))
      case (Some(n), Some(d)) => Some(16 * n + d)
      case _ => None
  }

  function CodePoint(n: nat): Option<char> {
    if n < 0xD800 || 0xE000 <= n < 0x11_0000 then Some(n as char) else None
  }

  function SimpleEscape(c: char): Option<char> {
    match c
    case '0' => Some('\0')
    case 'a' => Some(0x07 as char)
    case 'b' => Some(0x08 as char)
    case 't' => Some('\t')
    case '\t' => Some('\t')
    case 'n' => Some('\n')
    case 'v' => Some(0x0b as char)
    case 'f' => Some(0x0c as char)
    case 'r' => Some('\r')
    case 'e' => Some(0x1b as char)
    case ' ' => Some(' ')
    case '"' => Some('"')
    case '/' => Some('/')
    case '\\' => Some('\\')
    case 'N' => Some(0x85 as char)
    case '_' => Some(0xa0 as char)
    case 'L' => Some(0x2028 as char)
    case 'P' => Some(0x2029 as char)
    case _ => None
  }

  function HexWidth(c: char): nat {
    if c == 'x' then 2 else if c == 'u' then 4 else if c == 'U' then 8 else 0
  }

  /** The character of an escape sequence, after the backslash. */
  function Unescape(s: string): (r: Option<(char, string)>)
    ensures r.Some? ==> |r.value.1| < |s|
  {
    if s == "" then None
    else if HexWidth(s[0]) > 0 then
      var width := HexWidth(s[0]);
      if |s| <= width then None
      else match HexNumber(s[1..1 + width])
        case None => None
        case Some(n) => match CodePoint(n) case None => None case Some(c) => Some((c, s[1 + width..]))
    else match SimpleEscape(s[0]) case None => None case Some(c) => Some((c, s[1..]))
  }

  /** The string up to the closing quote; a line break would need folding. */
  function ReadQuoted(s: string): (r: Option<(string, string)>)
    ensures r.Some? ==> |r.value.1| < |s|
    decreases |s|
  {
    if s == "" then None
    else if s[0] == '"' then Some(("", s[1..]))
    else if s[0] == '\n' || s[0] == '\r' then None
    else if s[0] == '\\' then
      match Unescape(s[1..])
      case None => None
      case Some((c, rest)) => Prefixed(c, ReadQuoted(rest))
    else Prefixed(s[0], ReadQuoted(s[1..]))
  }

  function Prefixed(c: char, r: Option<(string, string)>): Option<(string, string)> {
    match r case None => None case Some((s, rest)) => Some(([c] + s, rest))
  }

  // ----- Plain scalars (section 7.3.3, in a flow context) -----------------------------------------

  predicate FlowIndicator(c: char) {
    c in {',', '[', ']', '{', '}'}
  }

  // A plain scalar ends at a flow indicator, a value indicator, or a comment.
  predicate PlainEnds(s: string) {
    || s == "" || FlowIndicator(s[0]) || s[0] == '\n' || s[0] == '\r'
    || (s[0] == ':' && (|s| == 1 || s[1] == ' ' || FlowIndicator(s[1])))
    || (s[0] == ' ' && |s| > 1 && s[1] == '#')
  }

  function PlainLength(s: string): (n: nat)
    ensures n <= |s|
  {
    if PlainEnds(s) then 0 else 1 + PlainLength(s[1..])
  }

  predicate StartsPlain(c: char) {
    c !in {',', '[', ']', '{', '}', '"', '\'', '&', '*', '!', '|', '>', '%', '@', '`', '#', '?', ':'}
  }

  function TrimEnd(s: string): string {
    if s != "" && s[|s| - 1] == ' ' then TrimEnd(s[..|s| - 1]) else s
  }

  function Unsigned(s: string): string {
    if s != "" && (s[0] == '-' || s[0] == '+') then s[1..] else s
  }

  function Resolve(s: string): Tree {
    if s in {"", "~", "null", "Null", "NULL"} then TNull
    else if s in {"true", "True", "TRUE"} then TBool(true)
    else if s in {"false", "False", "FALSE"} then TBool(false)
    else if Unsigned(s) != "" && D.AllDigits(Unsigned(s)) then
      TInt(if s[0] == '-' then 0 - D.Number(Unsigned(s)) else D.Number(Unsigned(s)))
    else TString(s)
  }

  // ----- Flow nodes (section 7.4) -----------------------------------------------------------------

  function SkipSpaces(s: string): (r: string)
    ensures |r| <= |s|
  {
    if s != "" && s[0] == ' ' then SkipSpaces(s[1..]) else s
  }

  function ReadNode(text: string): (r: Option<(Tree, string)>)
    ensures r.Some? ==> |r.value.1| < |text|
    decreases |text|, 0
  {
    var s := SkipSpaces(text);
    if s == "" then None
    else if s[0] == '"' then
      match ReadQuoted(s[1..]) case None => None case Some((v, rest)) => Some((TString(v), rest))
    else if s[0] == '[' then
      match ReadItems(s[1..]) case None => None case Some((items, rest)) => Some((TSequence(items), rest))
    else if s[0] == '{' then
      match ReadEntries(s[1..]) case None => None case Some((entries, rest)) => Some((TMapping(entries), rest))
    else
      var n := PlainLength(s);
      if n == 0 || !StartsPlain(s[0]) then None else Some((Resolve(TrimEnd(s[..n])), s[n..]))
  }

  /** The items up to the closing bracket. */
  function ReadItems(text: string): (r: Option<(seq<Tree>, string)>)
    ensures r.Some? ==> |r.value.1| < |text|
    decreases |text|, 1
  {
    var s := SkipSpaces(text);
    if s != "" && s[0] == ']' then Some(([], s[1..]))
    else match ReadNode(s)
      case None => None
      case Some((item, after)) =>
        var next := SkipSpaces(after);
        if next != "" && next[0] == ']' then Some(([item], next[1..]))
        else if next != "" && next[0] == ',' then
          match ReadItems(next[1..]) case None => None case Some((items, rest)) => Some(([item] + items, rest))
        else None
  }

  function ReadEntry(text: string): (r: Option<((Tree, Tree), string)>)
    ensures r.Some? ==> |r.value.1| < |text|
    decreases |text|, 1
  {
    match ReadNode(text)
    case None => None
    case Some((key, after)) =>
      var colon := SkipSpaces(after);
      if colon == "" || colon[0] != ':' then None
      else match ReadNode(colon[1..]) case None => None case Some((value, rest)) => Some(((key, value), rest))
  }

  /** The entries up to the closing brace. */
  function ReadEntries(text: string): (r: Option<(seq<(Tree, Tree)>, string)>)
    ensures r.Some? ==> |r.value.1| < |text|
    decreases |text|, 2
  {
    var s := SkipSpaces(text);
    if s != "" && s[0] == '}' then Some(([], s[1..]))
    else match ReadEntry(s)
      case None => None
      case Some((entry, after)) =>
        var next := SkipSpaces(after);
        if next != "" && next[0] == '}' then Some(([entry], next[1..]))
        else if next != "" && next[0] == ',' then
          match ReadEntries(next[1..]) case None => None case Some((entries, rest)) => Some(([entry] + entries, rest))
        else None
  }

  /** A text that holds exactly one node. */
  function ReadFlow(text: string): Option<Tree> {
    match ReadNode(text)
    case None => None
    case Some((tree, rest)) => if SkipSpaces(rest) == "" then Some(tree) else None
  }
}
