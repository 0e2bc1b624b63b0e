/**
 * JSON text and values (RFC 8259): the printer with sorted object keys behind
 * drift hashing, and a parser that undoes it. A value is what decoding yields, so
 * an object is a map; a document is text-like, so an object is a member list.
 */
module Json {
  import opened Collections
  import opened Numerals
  import opened Ordering

  datatype Value =
    | Null
    | Bool(flag: bool)
    | Number(literal: string)
    | Text(chars: string)
    | Array(items: seq<Value>)
    | Object(fields: map<string, Value>)

  datatype Doc =
    | Leaf(value: Value)
    | List(items: seq<Doc>)
    | Members(members: seq<Member>)

  datatype Member = Member(key: string, doc: Doc)

  // ------------------------------------------------------------------ numbers

  /** End of the run of digits starting at i. */
  function DigitsEnd(s: string, i: nat): (j: nat)
    requires i <= |s|
    ensures i <= j <= |s|
    decreases |s| - i
  {
    if i < |s| && IsDigit(s[i]) then DigitsEnd(s, i + 1) else i
  }

  function IntegerEnd(s: string, i: nat): (j: Option<nat>)
    requires i <= |s|
    ensures j.Some? ==> i < j.value <= |s|
  {
    if i < |s| && s[i] == '0' then Some(i + 1)
    else if DigitsEnd(s, i) > i then Some(DigitsEnd(s, i))
    else None
  }

  function FractionEnd(s: string, i: nat): (j: Option<nat>)
    requires i <= |s|
    ensures j.Some? ==> i <= j.value <= |s|
  {
    if i < |s| && s[i] == '.' then
      if DigitsEnd(s, i + 1) > i + 1 then Some(DigitsEnd(s, i + 1)) else None
    else Some(i)
  }

  function ExponentEnd(s: string, i: nat): (j: Option<nat>)
    requires i <= |s|
    ensures j.Some? ==> i <= j.value <= |s|
  {
    if i < |s| && (s[i] == 'e' || s[i] == 'E') then
      var k := if i + 1 < |s| && (s[i + 1] == '+' || s[i + 1] == '-') then i + 2 else i + 1;
      if DigitsEnd(s, k) > k then Some(DigitsEnd(s, k)) else None
    else Some(i)
  }

  /** Where the number at the start of s ends; None if there is none. */
  function NumberEnd(s: string): (j: Option<nat>)
    ensures j.Some? ==> 0 < j.value <= |s|
  {
    var i := IntegerEnd(s, if s != [] && s[0] == '-' then 1 else 0);
    if i == None then None
    else
      var f := FractionEnd(s, i.value);
      if f == None then None else ExponentEnd(s, f.value)
  }

  predicate IsNumber(s: string) { NumberEnd(s) == Some(|s|) }

  predicate Blank(c: char) { c == ' ' || c == '\t' || c == '\n' || c == '\r' }

  /** What may follow a value inside a text. */
  predicate Delimited(rest: string) {
    rest == [] || rest[0] == ',' || rest[0] == ']' || rest[0] == '}' || Blank(rest[0])
  }

  lemma {:induction false} DigitsEndAppend(s: string, rest: string, i: nat)
    requires i <= |s| && Delimited(rest)
    ensures DigitsEnd(s + rest, i) == DigitsEnd(s, i)
    decreases |s| - i
  {
    if i < |s| {
      DigitsEndAppend(s, rest, i + 1);
    }
  }

  lemma IntegerEndAppend(s: string, rest: string, i: nat)
    requires i <= |s| && Delimited(rest)
    ensures IntegerEnd(s + rest, i) == IntegerEnd(s, i)
  {
    hide DigitsEnd;
    DigitsEndAppend(s, rest, i);
  }

  lemma FractionEndAppend(s: string, rest: string, i: nat)
    requires i <= |s| && Delimited(rest)
    ensures FractionEnd(s + rest, i) == FractionEnd(s, i)
  {
    hide DigitsEnd;
    if i < |s| {
      DigitsEndAppend(s, rest, i + 1);
    }
  }

  lemma ExponentEndAppend(s: string, rest: string, i: nat)
    requires i <= |s| && Delimited(rest)
    ensures ExponentEnd(s + rest, i) == ExponentEnd(s, i)
  {
    hide DigitsEnd;
    if i < |s| {
      DigitsEndAppend(s, rest, i + 1);
      if i + 1 < |s| {
        DigitsEndAppend(s, rest, i + 2);
      }
    }
  }

  lemma NumberEndAppend(s: string, rest: string)
    requires IsNumber(s) && Delimited(rest)
    ensures NumberEnd(s + rest) == Some(|s|)
  {
    hide IntegerEnd, FractionEnd, ExponentEnd, Delimited;
    var start := if s[0] == '-' then 1 else 0;
    IntegerEndAppend(s, rest, start);
    var i := IntegerEnd(s, start).value;
    FractionEndAppend(s, rest, i);
    ExponentEndAppend(s, rest, FractionEnd(s, i).value);
  }

  // ------------------------------------------------------------------ strings

  function HexDigit(n: nat): char
    requires n < 16
  {
    if n < 10 then '0' + n as char else 'a' + (n - 10) as char
  }

  function HexValue(c: char): Option<nat> {
    if '0' <= c <= '9' then Some(c as int - '0' as int)
    else if 'a' <= c <= 'f' then Some(c as int - 'a' as int + 10)
    else if 'A' <= c <= 'F' then Some(c as int - 'A' as int + 10)
    else None
  }

  /** The escapes of the printer; it also escapes <, >, & and the two Unicode line separators. */
  function EscapeChar(c: char): string {
    if c == '"' || c == '\\' then ['\\', c]
    else if c == '\U{8}' then "\\b"
    else if c == '\U{C}' then "\\f"
    else if c == '\n' then "\\n"
    else if c == '\r' then "\\r"
    else if c == '\t' then "\\t"
    else if c as int < 0x20 || c == '<' || c == '>' || c == '&' then
      "\\u00" + [HexDigit(c as int / 16), HexDigit(c as int % 16)]
    else if c == '\U{2028}' then "\\u2028"
    else if c == '\U{2029}' then "\\u2029"
    else [c]
  }

  function Escape(s: string): string {
    if s == [] then [] else EscapeChar(s[0]) + Escape(s[1..])
  }

  function Hex4(s: string): Option<nat> {
    if |s| < 4 then None
    else
      var a, b, c, d := HexValue(s[0]), HexValue(s[1]), HexValue(s[2]), HexValue(s[3]);
      if a == None || b == None || c == None || d == None then None
      else Some(((a.value * 16 + b.value) * 16 + c.value) * 16 + d.value)
  }

  const REPLACEMENT: char := '\U{FFFD}'

  /** A low surrogate escape at the start of s. */
  function LowSurrogate(s: string): Option<nat> {
    if |s| >= 6 && s[0] == '\\' && s[1] == 'u' && Hex4(s[2..]) != None
       && 0xDC00 <= Hex4(s[2..]).value < 0xE000
    then Hex4(s[2..]) else None
  }

  /** One character of a string literal: its value and how many characters spell it. */
  function UnescapeChar(s: string): (r: Option<(char, nat)>)
    requires s != []
    ensures r.Some? ==> 0 < r.value.1 <= |s|
  {
    if s[0] as int < 0x20 || s[0] == '"' then None
    else if s[0] != '\\' then Some((s[0], 1))
    else if |s| < 2 then None
    else match s[1]
      case '"' => Some(('"', 2))
      case '\\' => Some(('\\', 2))
      case '/' => Some(('/', 2))
      case 'b' => Some(('\U{8}', 2))
      case 'f' => Some(('\U{C}', 2))
      case 'n' => Some(('\n', 2))
      case 'r' => Some(('\r', 2))
      case 't' => Some(('\t', 2))
      case 'u' =>
        var n := Hex4(s[2..]);
        if n == None || |s| < 6 then None
        else if n.value < 0xD800 || 0xE000 <= n.value < 0x1_0000 then Some((n.value as char, 6))
        else
          var low := LowSurrogate(s[6..]);
          if n.value < 0xDC00 && low != None then
            Some(((0x1_0000 + (n.value - 0xD800) * 0x400 + (low.value - 0xDC00)) as char, 12))
          else Some((REPLACEMENT, 6))
      case _ => None
  }

  /** The characters up to the closing quote, and the text after it. */
  function ParseChars(s: string): (r: Option<(string, string)>)
    ensures r.Some? ==> |r.value.1| < |s|
  {
    if s == [] then None
    else if s[0] == '"' then Some(([], s[1..]))
    else
      var c := UnescapeChar(s);
      if c == None then None
      else
        var more := ParseChars(s[c.value.1..]);
        if more == None then None else Some(([c.value.0] + more.value.0, more.value.1))
  }

  lemma UnescapeEscape(c: char, rest: string)
    ensures EscapeChar(c) != [] && EscapeChar(c)[0] != '"'
    ensures UnescapeChar(EscapeChar(c) + rest) == Some((c, |EscapeChar(c)|))
  {
    var s := EscapeChar(c) + rest;
    if |EscapeChar(c)| == 6 {
      assert s[2..][..4] == EscapeChar(c)[2..];
      assert s[2..][0] == s[2] && s[2..][1] == s[3] && s[2..][2] == s[4] && s[2..][3] == s[5];
    }
  }

  lemma {:induction false} ParseEscaped(x: string, rest: string)
    ensures ParseChars(Escape(x) + "\"" + rest) == Some((x, rest))
  {
    var s := Escape(x) + "\"" + rest;
    if x == [] {
      assert s == ['"'] + rest;
    } else {
      var first, more := EscapeChar(x[0]), Escape(x[1..]) + "\"" + rest;
      assert s == first + more;
      UnescapeEscape(x[0], more);
      assert s[0] == first[0] && s[|first|..] == more;
      assert x == [x[0]] + x[1..];
      ParseEscaped(x[1..], rest);
    }
  }

  // ------------------------------------------------------------------ parsing

  function SkipSpace(s: string): (r: string)
    ensures |r| <= |s|
  {
    if s != [] && (s[0] == ' ' || s[0] == '\t' || s[0] == '\n' || s[0] == '\r') then SkipSpace(s[1..]) else s
  }

  function ParseWord(s: string, word: string, v: Value): (r: Option<(Value, string)>)
    ensures r.Some? ==> |r.value.1| == |s| - |word|
  {
    if word <= s then Some((v, s[|word|..])) else None
  }

  /** One value and the text after it. */
  function ParseValue(text: string): (r: Option<(Value, string)>)
    ensures r.Some? ==> |r.value.1| < |text|
    decreases |text|, 1
  {
    var s := SkipSpace(text);
    if s == [] then None
    else match s[0]
      case 'n' => ParseWord(s, "null", Null)
      case 't' => ParseWord(s, "true", Bool(true))
      case 'f' => ParseWord(s, "false", Bool(false))
      case '"' =>
        var chars := ParseChars(s[1..]);
        if chars == None then None else Some((Text(chars.value.0), chars.value.1))
      case '[' =>
        var u := SkipSpace(s[1..]);
        if u != [] && u[0] == ']' then Some((Array([]), u[1..])) else ParseItems(u, [])
      case '{' =>
        var u := SkipSpace(s[1..]);
        if u != [] && u[0] == '}' then Some((Object(map[]), u[1..])) else ParseMembers(u, map[])
      case _ =>
        var end := NumberEnd(s);
        if end == None then None else Some((Number(s[..end.value]), s[end.value..]))
  }

  function ParseItems(s: string, sofar: seq<Value>): (r: Option<(Value, string)>)
    ensures r.Some? ==> |r.value.1| < |s|
    decreases |s|, 2
  {
    var first := ParseValue(s);
    if first == None then None
    else
      var u := SkipSpace(first.value.1);
      var items := sofar + [first.value.0];
      if u != [] && u[0] == ',' then ParseItems(u[1..], items)
      else if u != [] && u[0] == ']' then Some((Array(items), u[1..]))
      else None
  }

  /** Members up to the closing brace; a repeated key keeps its last value. */
  function ParseMembers(s: string, sofar: map<string, Value>): (r: Option<(Value, string)>)
    ensures r.Some? ==> |r.value.1| < |s|
    decreases |s|, 2
  {
    var k := SkipSpace(s);
    if k == [] || k[0] != '"' then None
    else
      var key := ParseChars(k[1..]);
      if key == None then None
      else
        var c := SkipSpace(key.value.1);
        if c == [] || c[0] != ':' then None
        else
          var v := ParseValue(c[1..]);
          if v == None then None
          else
            var u := SkipSpace(v.value.1);
            var fields := sofar[key.value.0 := v.value.0];
            if u != [] && u[0] == ',' then ParseMembers(u[1..], fields)
            else if u != [] && u[0] == '}' then Some((Object(fields), u[1..]))
            else None
  }

  // ----------------------------------------------------------------- printing

  function Quote(s: string): string { "\"" + Escape(s) + "\"" }

  function ShowLeaf(v: Value): string {
    match v
    case Null => "null"
    case Bool(flag) => if flag then "true" else "false"
    case Number(literal) => literal
    case Text(chars) => Quote(chars)
    case Array(_) => "[]"
    case Object(_) => "{}"
  }

  /** A document as compact text, members in the order they are listed. */
  function Show(d: Doc): string {
    match d
    case Leaf(v) => ShowLeaf(v)
    case List(items) => "[" + ShowItems(items) + "]"
    case Members(members) => "{" + ShowMembers(members) + "}"
  }

  function ShowItems(items: seq<Doc>): string {
    if items == [] then ""
    else if |items| == 1 then Show(items[0])
    else Show(items[0]) + "," + ShowItems(items[1..])
  }

  function ShowMember(m: Member): string { Quote(m.key) + ":" + Show(m.doc) }

  function ShowMembers(members: seq<Member>): string {
    if members == [] then ""
    else if |members| == 1 then ShowMember(members[0])
    else ShowMember(members[0]) + "," + ShowMembers(members[1..])
  }

  /** Scalars carry the leaves, and every number literal is a number. */
  predicate Sound(d: Doc) {
    match d
    case Leaf(v) => !v.Array? && !v.Object? && (v.Number? ==> IsNumber(v.literal))
    case List(items) => forall i :: 0 <= i < |items| ==> Sound(items[i])
    case Members(members) => forall i :: 0 <= i < |members| ==> Sound(members[i].doc)
  }

  /** The value a document denotes. */
  function Denote(d: Doc): Value {
    match d
    case Leaf(v) => v
    case List(items) => Array(DenoteItems(items))
    case Members(members) => Object(DenoteMembers(members, map[]))
  }

  function DenoteItems(items: seq<Doc>): (vs: seq<Value>)
    ensures |vs| == |items|
  {
    if items == [] then [] else [Denote(items[0])] + DenoteItems(items[1..])
  }

  function DenoteMembers(members: seq<Member>, sofar: map<string, Value>): map<string, Value> {
    if members == [] then sofar
    else DenoteMembers(members[1..], sofar[members[0].key := Denote(members[0].doc)])
  }

  // ------------------------------------------------- the parser undoes the printer

  lemma ShowStarts(d: Doc)
    requires Sound(d)
    ensures Show(d) != []
    ensures var c := Show(d)[0]; c != ' ' && c != '\t' && c != '\n' && c != '\r' && c != ']' && c != '}'
    ensures d.Leaf? && d.value.Number? ==> Show(d)[0] == '-' || IsDigit(Show(d)[0])
  {
  }

  lemma {:induction false} ParseLeaf(v: Value, rest: string)
    requires Sound(Leaf(v)) && Delimited(rest)
    ensures ParseValue(ShowLeaf(v) + rest) == Some((v, rest))
  {
    match v {
      case Null => ParseShownWord("null", v, rest);
      case Bool(flag) => ParseShownWord(if flag then "true" else "false", v, rest);
      case Number(literal) => ParseShownNumber(literal, rest);
      case Text(chars) => ParseShownText(chars, rest);
    }
  }

  lemma ParseShownWord(word: string, v: Value, rest: string)
    requires (word == "null" && v == Null) || (word == "true" && v == Bool(true))
      || (word == "false" && v == Bool(false))
    ensures ParseValue(word + rest) == Some((v, rest))
  {
    hide NumberEnd, ParseChars, ParseItems, ParseMembers;
    var s := word + rest;
    assert SkipSpace(s) == s && s[0] == word[0];
    assert word <= s && s[|word|..] == rest;
  }

  lemma ParseShownNumber(literal: string, rest: string)
    requires IsNumber(literal) && Delimited(rest)
    ensures ParseValue(literal + rest) == Some((Number(literal), rest))
  {
    ShowStarts(Leaf(Number(literal)));
    var s := literal + rest;
    NumberEndAppend(literal, rest);
    assert s[..|literal|] == literal && s[|literal|..] == rest;
    hide NumberEnd, ParseChars, ParseItems, ParseMembers, ParseWord;
    assert SkipSpace(s) == s;
  }

  lemma ParseShownText(chars: string, rest: string)
    ensures ParseValue(Quote(chars) + rest) == Some((Text(chars), rest))
  {
    hide NumberEnd, ParseChars, ParseItems, ParseMembers, ParseWord, Escape;
    var s := Quote(chars) + rest;
    ParseEscaped(chars, rest);
    assert s[1..] == Escape(chars) + "\"" + rest;
    assert SkipSpace(s) == s;
  }

  /** The parser reads back any printed document, whatever delimiter follows it. */
  lemma {:induction false} ParseShow(d: Doc, rest: string)
    requires Sound(d) && Delimited(rest)
    ensures ParseValue(Show(d) + rest) == Some((Denote(d), rest))
    decreases d, 0
  {
    match d {
      case Leaf(v) => ParseLeaf(v, rest);
      case List(items) =>
        if items == [] {
          ParseBracketed('[', "", ']', rest);
        } else {
          ShowItemsStarts(items);
          ParseBracketed('[', ShowItems(items), ']', rest);
          ParseShowItems(items, rest, []);
          assert [] + DenoteItems(items) == DenoteItems(items);
        }
      case Members(members) =>
        if members == [] {
          ParseBracketed('{', "", '}', rest);
        } else {
          ParseShowMembers(members, rest, map[]);
          ParseBracketed('{', ShowMembers(members), '}', rest);
        }
    }
  }

  lemma ParseBracketed(open: char, inner: string, close: char, rest: string)
    requires (open == '[' && close == ']') || (open == '{' && close == '}')
    requires inner != [] ==> !Blank(inner[0]) && inner[0] != close
    ensures ParseValue([open] + inner + [close] + rest) ==
      if inner == [] then Some((if open == '[' then Array([]) else Object(map[]), rest))
      else if open == '[' then ParseItems(inner + [close] + rest, [])
      else ParseMembers(inner + [close] + rest, map[])
  {
    var s := [open] + inner + [close] + rest;
    BracketSplit(open, inner, close, rest);
    if inner == [] {
      assert SkipSpace(s[1..]) == s[1..] && s[1..][1..] == rest;
    } else {
      assert SkipSpace(s[1..]) == s[1..];
    }
  }

  lemma BracketSplit(open: char, inner: string, close: char, rest: string)
    requires !Blank(open)
    ensures var s := [open] + inner + [close] + rest;
      && SkipSpace(s) == s && s[0] == open && s[1..] == inner + [close] + rest
      && (inner != [] ==> s[1..][0] == inner[0])
      && (inner == [] ==> s[1..] == [close] + rest)
  {
  }

  lemma ShowItemsStarts(items: seq<Doc>)
    requires items != [] && Sound(items[0])
    ensures ShowItems(items) != [] && ShowItems(items)[0] == Show(items[0])[0]
    ensures var c := ShowItems(items)[0]; !Blank(c) && c != ']'
  {
    ShowStarts(items[0]);
  }

  /** What follows the first item of a listing, up to the closing bracket and beyond. */
  function Following(more: string, last: bool, close: char, rest: string): string {
    if last then [close] + rest else "," + (more + [close] + rest)
  }

  lemma FollowingSkips(more: string, last: bool, close: char, rest: string)
    requires close == ']' || close == '}'
    ensures var after := Following(more, last, close, rest);
      && Delimited(after) && SkipSpace(after) == after
      && after[0] == (if last then close else ',')
      && after[1..] == (if last then rest else more + [close] + rest)
  {
  }

  lemma ListSplit(first: string, more: string, last: bool, close: char, rest: string)
    ensures (if last then first else first + "," + more) + [close] + rest == first + Following(more, last, close, rest)
  {
  }

  lemma {:induction false} ParseShowItems(items: seq<Doc>, rest: string, sofar: seq<Value>)
    requires items != [] && forall i :: 0 <= i < |items| ==> Sound(items[i])
    ensures ParseItems(ShowItems(items) + "]" + rest, sofar) == Some((Array(sofar + DenoteItems(items)), rest))
    decreases items, 1
  {
    var last, next := |items| == 1, sofar + [Denote(items[0])];
    var more := if last then "" else ShowItems(items[1..]);
    ListSplit(Show(items[0]), more, last, ']', rest);
    FollowingSkips(more, last, ']', rest);
    ParseShow(items[0], Following(more, last, ']', rest));
    if last {
      assert next == sofar + DenoteItems(items);
    } else {
      ParseShowItems(items[1..], rest, next);
      assert next + DenoteItems(items[1..]) == sofar + DenoteItems(items);
    }
  }

  lemma MemberSplit(m: Member, tail: string)
    ensures ShowMember(m) + tail == "\"" + (Escape(m.key) + "\"" + (":" + (Show(m.doc) + tail)))
  {
  }

  // One member: the key, a colon, the value, then a comma or the closing brace.
  lemma {:induction false} ParseOneMember(m: Member, after: string, sofar: map<string, Value>)
    requires ParseValue(Show(m.doc) + after) == Some((Denote(m.doc), after))
    requires after != [] && !Blank(after[0])
    ensures var fields := sofar[m.key := Denote(m.doc)];
      ParseMembers(ShowMember(m) + after, sofar) ==
        if after[0] == ',' then ParseMembers(after[1..], fields)
        else if after[0] == '}' then Some((Object(fields), after[1..]))
        else None
  {
    var colon := ":" + (Show(m.doc) + after);
    MemberSplit(m, after);
    ParseEscaped(m.key, colon);
    assert colon[1..] == Show(m.doc) + after;
    var s := ShowMember(m) + after;
    assert s[0] == '"' && s[1..] == Escape(m.key) + "\"" + colon;
    assert SkipSpace(s) == s && SkipSpace(colon) == colon && SkipSpace(after) == after;
  }

  lemma {:induction false} ParseShowMembers(members: seq<Member>, rest: string, sofar: map<string, Value>)
    requires members != [] && forall i :: 0 <= i < |members| ==> Sound(members[i].doc)
    ensures ShowMembers(members) != [] && ShowMembers(members)[0] == '"'
    ensures ParseMembers(ShowMembers(members) + "}" + rest, sofar)
         == Some((Object(DenoteMembers(members, sofar)), rest))
    decreases members, 1
  {
    var m, last := members[0], |members| == 1;
    var more := if last then "" else ShowMembers(members[1..]);
    var after := Following(more, last, '}', rest);
    ListSplit(ShowMember(m), more, last, '}', rest);
    FollowingSkips(more, last, '}', rest);
    ParseShow(m.doc, after);
    ParseOneMember(m, after, sofar);
    if !last {
      ParseShowMembers(members[1..], rest, sofar[m.key := Denote(m.doc)]);
    }
  }

  // -------------------------------------------------------- the canonical form

  /** The document of a value with every object's members in key order. */
  ghost function Sorted(v: Value): Doc
    decreases v, 1
  {
    match v
    case Array(items) => List(SortedItems(items))
    case Object(fields) => Members(SortedMembers(v, SortedList(fields.Keys)))
    case _ => Leaf(v)
  }

  ghost function SortedItems(items: seq<Value>): (docs: seq<Doc>)
    ensures |docs| == |items|
    decreases items, 0
  {
    if items == [] then [] else [Sorted(items[0])] + SortedItems(items[1..])
  }

  ghost function SortedMembers(v: Value, keys: seq<string>): (members: seq<Member>)
    requires v.Object? && Elements(keys) <= v.fields.Keys
    ensures |members| == |keys|
    decreases v, 0, |keys|
  {
    if keys == [] then []
    else
      assert keys[0] in Elements(keys);
      assert Elements(keys[1..]) <= Elements(keys);
      [Member(keys[0], Sorted(v.fields[keys[0]]))] + SortedMembers(v, keys[1..])
  }

  ghost function Print(v: Value): string { Show(Sorted(v)) }

  /** Every number in the value spells a number. */
  ghost predicate Proper(v: Value) {
    match v
    case Number(literal) => IsNumber(literal)
    case Array(items) => forall i :: 0 <= i < |items| ==> Proper(items[i])
    case Object(fields) => forall k :: k in fields ==> Proper(fields[k])
    case _ => true
  }

  lemma {:induction false} SortedFaithful(v: Value)
    requires Proper(v)
    ensures Sound(Sorted(v)) && Denote(Sorted(v)) == v
    decreases v, 1
  {
    match v {
      case Array(items) => SortedItemsFaithful(items);
      case Object(fields) =>
        var keys := SortedList(fields.Keys);
        SortedMembersFaithful(v, keys, map[]);
        ListedFields(fields, keys);
      case _ =>
    }
  }

  lemma ListedFields(fields: map<string, Value>, keys: seq<string>)
    requires Elements(keys) == fields.Keys
    ensures map[] + (map k | k in keys && k in fields :: fields[k]) == fields
  {
    assert forall k :: k in fields ==> k in Elements(keys);
  }

  lemma {:induction false} SortedItemsFaithful(items: seq<Value>)
    requires forall i :: 0 <= i < |items| ==> Proper(items[i])
    ensures forall i :: 0 <= i < |items| ==> Sound(SortedItems(items)[i])
    ensures DenoteItems(SortedItems(items)) == items
    decreases items, 0
  {
    hide Sorted, Sound, Proper;
    if items != [] {
      SortedFaithful(items[0]);
      SortedItemsFaithful(items[1..]);
      hide SortedItems, DenoteItems;
      SortedItemsStep(items);
      assert items == [items[0]] + items[1..];
    }
  }

  lemma SortedItemsStep(items: seq<Value>)
    requires items != []
    ensures SortedItems(items) == [Sorted(items[0])] + SortedItems(items[1..])
    ensures DenoteItems(SortedItems(items)) == [Denote(Sorted(items[0]))] + DenoteItems(SortedItems(items[1..]))
  {
    hide Sorted, Denote;
    assert SortedItems(items)[1..] == SortedItems(items[1..]);
  }

  lemma {:induction false} SortedMembersFaithful(v: Value, keys: seq<string>, sofar: map<string, Value>)
    requires Proper(v) && v.Object? && Elements(keys) <= v.fields.Keys
    ensures forall i :: 0 <= i < |keys| ==> Sound(SortedMembers(v, keys)[i].doc)
    ensures DenoteMembers(SortedMembers(v, keys), sofar)
         == sofar + (map k | k in keys && k in v.fields :: v.fields[k])
    decreases v, 0, |keys|
  {
    if keys != [] {
      var k := keys[0];
      assert k in Elements(keys);
      assert Elements(keys[1..]) <= Elements(keys);
      SortedFaithful(v.fields[k]);
      var next := sofar[k := v.fields[k]];
      SortedMembersFaithful(v, keys[1..], next);
      assert SortedMembers(v, keys)[1..] == SortedMembers(v, keys[1..]);
      MergeStep(v.fields, keys, sofar);
    }
  }

  lemma MergeStep(fields: map<string, Value>, keys: seq<string>, sofar: map<string, Value>)
    requires keys != [] && keys[0] in fields
    ensures sofar[keys[0] := fields[keys[0]]] + (map k | k in keys[1..] && k in fields :: fields[k])
         == sofar + (map k | k in keys && k in fields :: fields[k])
  {
    assert keys == [keys[0]] + keys[1..];
  }

  /** Printed text determines the value, even with more text behind it. */
  lemma {:induction false} PrintInjective(a: Value, b: Value, s: string, t: string)
    requires Proper(a) && Proper(b) && Delimited(s) && Delimited(t)
    requires Print(a) + s == Print(b) + t
    ensures a == b && s == t
  {
    SortedFaithful(a);
    SortedFaithful(b);
    ParseShow(Sorted(a), s);
    ParseShow(Sorted(b), t);
  }

  /** Decode the first value of the text and print it with sorted keys. */
  ghost function Canonical(raw: string): Option<string> {
    match ParseValue(raw)
    case None => None
    case Some((v, _)) => Some(Print(v))
  }

  // ------------------------------------------------- what the parser produces

  lemma {:induction false} DigitsEndPrefix(s: string, i: nat, n: nat)
    requires i <= n <= |s| && DigitsEnd(s, i) <= n
    ensures DigitsEnd(s[..n], i) == DigitsEnd(s, i)
    decreases |s| - i
  {
    if i < n && IsDigit(s[i]) {
      DigitsEndPrefix(s, i + 1, n);
    }
  }

  lemma IntegerEndPrefix(s: string, i: nat, n: nat)
    requires i <= n <= |s| && IntegerEnd(s, i).Some? && IntegerEnd(s, i).value <= n
    ensures IntegerEnd(s[..n], i) == IntegerEnd(s, i)
  {
    hide DigitsEnd;
    if s[i] != '0' {
      DigitsEndPrefix(s, i, n);
    }
  }

  lemma FractionEndPrefix(s: string, i: nat, n: nat)
    requires i <= n <= |s| && FractionEnd(s, i).Some? && FractionEnd(s, i).value <= n
    ensures FractionEnd(s[..n], i) == FractionEnd(s, i)
  {
    hide DigitsEnd;
    if i < |s| && s[i] == '.' {
      DigitsEndPrefix(s, i + 1, n);
    }
  }

  lemma ExponentEndPrefix(s: string, i: nat)
    requires i <= |s| && ExponentEnd(s, i).Some?
    ensures var n := ExponentEnd(s, i).value; ExponentEnd(s[..n], i) == Some(n)
  {
    hide DigitsEnd;
    var n := ExponentEnd(s, i).value;
    if i < |s| && (s[i] == 'e' || s[i] == 'E') {
      var k := if i + 1 < |s| && (s[i + 1] == '+' || s[i + 1] == '-') then i + 2 else i + 1;
      DigitsEndPrefix(s, k, n);
    }
  }

  // The text a number was read from is a number by itself.
  lemma {:induction false} NumberPrefix(s: string)
    requires NumberEnd(s).Some?
    ensures IsNumber(s[..NumberEnd(s).value])
  {
    hide IntegerEnd, FractionEnd, ExponentEnd;
    var n := NumberEnd(s).value;
    var start := if s[0] == '-' then 1 else 0;
    var i := IntegerEnd(s, start).value;
    var f := FractionEnd(s, i).value;
    IntegerEndPrefix(s, start, n);
    FractionEndPrefix(s, i, n);
    ExponentEndPrefix(s, f);
    assert s[..n][0] == s[0];
  }

  lemma {:induction false} ParseProper(text: string)
    requires ParseValue(text).Some?
    ensures Proper(ParseValue(text).value.0)
    decreases |text|, 1
  {
    var s := SkipSpace(text);
    if s[0] == '[' {
      var u := SkipSpace(s[1..]);
      if u == [] || u[0] != ']' {
        ParseItemsProper(u, []);
      }
    } else if s[0] == '{' {
      var u := SkipSpace(s[1..]);
      if u == [] || u[0] != '}' {
        ParseMembersProper(u, map[]);
      }
    } else if NumberEnd(s).Some? {
      NumberPrefix(s);
    }
  }

  lemma {:induction false} ParseItemsProper(s: string, sofar: seq<Value>)
    requires ParseItems(s, sofar).Some? && forall i :: 0 <= i < |sofar| ==> Proper(sofar[i])
    ensures Proper(ParseItems(s, sofar).value.0)
    decreases |s|, 2
  {
    ParseProper(s);
    var first := ParseValue(s).value;
    var u := SkipSpace(first.1);
    if u[0] == ',' {
      ParseItemsProper(u[1..], sofar + [first.0]);
    }
  }

  lemma {:induction false} ParseMembersProper(s: string, sofar: map<string, Value>)
    requires ParseMembers(s, sofar).Some? && forall k :: k in sofar ==> Proper(sofar[k])
    ensures Proper(ParseMembers(s, sofar).value.0)
    decreases |s|, 2
  {
    var key := ParseChars(SkipSpace(s)[1..]).value;
    var c := SkipSpace(key.1);
    ParseProper(c[1..]);
    var v := ParseValue(c[1..]).value;
    var u := SkipSpace(v.1);
    if u[0] == ',' {
      ParseMembersProper(u[1..], sofar[key.0 := v.0]);
    }
  }

  /** Canonical text is its own canonical form, whatever text it came from. */
  lemma {:induction false} CanonicalIdempotent(raw: string)
    requires Canonical(raw).Some?
    ensures Canonical(Canonical(raw).value) == Canonical(raw)
  {
    var v := ParseValue(raw).value.0;
    ParseProper(raw);
    SortedFaithful(v);
    ParseShow(Sorted(v), "");
    assert Print(v) + "" == Print(v);
  }

  /** Canonical forms agree exactly when the decoded values do. */
  lemma {:induction false} CanonicalExact(raw: string, raw': string)
    requires ParseValue(raw).Some? && ParseValue(raw').Some?
    ensures Canonical(raw) == Canonical(raw') <==> ParseValue(raw).value.0 == ParseValue(raw').value.0
  {
    var v, v' := ParseValue(raw).value.0, ParseValue(raw').value.0;
    ParseProper(raw);
    ParseProper(raw');
    if Print(v) == Print(v') {
      PrintInjective(v, v', "", "");
    }
  }

  // ----------------------------------------------------- equal up to key order

  ghost predicate NoRepeats(d: Doc) {
    match d
    case Leaf(_) => true
    case List(items) => forall i :: 0 <= i < |items| ==> NoRepeats(items[i])
    case Members(members) =>
      && (forall i :: 0 <= i < |members| ==> NoRepeats(members[i].doc))
      && (forall i, j :: 0 <= i < j < |members| ==> members[i].key != members[j].key)
  }

  function Keys(members: seq<Member>): set<string> { set m | m in members :: m.key }

  /** The same leaves, arrays item by item, objects member by member in whatever order. */
  ghost predicate SameUpToKeyOrder(d: Doc, e: Doc) {
    match d
    case Leaf(v) => e == d
    case List(items) =>
      e.List? && |e.items| == |items| && forall i :: 0 <= i < |items| ==> SameUpToKeyOrder(items[i], e.items[i])
    case Members(members) =>
      && e.Members? && Keys(members) == Keys(e.members)
      && forall i, j :: 0 <= i < |members| && 0 <= j < |e.members| && members[i].key == e.members[j].key ==>
           SameUpToKeyOrder(members[i].doc, e.members[j].doc)
  }

  lemma {:induction false} DenoteItemsAt(items: seq<Doc>, i: nat)
    requires i < |items|
    ensures DenoteItems(items)[i] == Denote(items[i])
  {
    if i > 0 {
      DenoteItemsAt(items[1..], i - 1);
    }
  }

  lemma {:induction false} DenoteMembersAt(members: seq<Member>, sofar: map<string, Value>, i: nat)
    requires forall i, j :: 0 <= i < j < |members| ==> members[i].key != members[j].key
    ensures DenoteMembers(members, sofar).Keys == sofar.Keys + Keys(members)
    ensures i < |members| ==> DenoteMembers(members, sofar)[members[i].key] == Denote(members[i].doc)
    ensures forall k :: k in sofar && k !in Keys(members) ==> DenoteMembers(members, sofar)[k] == sofar[k]
  {
    if members != [] {
      var m, rest := members[0], members[1..];
      var next := sofar[m.key := Denote(m.doc)];
      assert Keys(members) == {m.key} + Keys(rest) by {
        assert forall n :: n in members <==> n == m || n in rest;
      }
      assert m.key !in Keys(rest);
      DenoteMembersAt(rest, next, if i > 0 then i - 1 else 0);
    }
  }

  lemma {:induction false} SameIffDenoteEqual(d: Doc, e: Doc)
    requires Sound(d) && Sound(e) && NoRepeats(d) && NoRepeats(e)
    ensures SameUpToKeyOrder(d, e) <==> Denote(d) == Denote(e)
    decreases d, 1
  {
    if d.List? && e.List? && |d.items| == |e.items| {
      SameItemsIff(d, e);
    } else if d.List? && e.List? {
      assert |DenoteItems(d.items)| != |DenoteItems(e.items)|;
    } else if d.Members? && e.Members? {
      SameMembersIff(d, e);
    }
  }

  lemma {:induction false} SameItemsIff(d: Doc, e: Doc)
    requires d.List? && e.List? && |d.items| == |e.items|
    requires Sound(d) && Sound(e) && NoRepeats(d) && NoRepeats(e)
    ensures SameUpToKeyOrder(d, e) <==> DenoteItems(d.items) == DenoteItems(e.items)
    decreases d, 0
  {
    forall i | 0 <= i < |d.items|
      ensures SameUpToKeyOrder(d.items[i], e.items[i]) <==> DenoteItems(d.items)[i] == DenoteItems(e.items)[i]
    {
      SameIffDenoteEqual(d.items[i], e.items[i]);
      DenoteItemsAt(d.items, i);
      DenoteItemsAt(e.items, i);
    }
  }

  lemma {:induction false} SameMembersIff(d: Doc, e: Doc)
    requires d.Members? && e.Members?
    requires Sound(d) && Sound(e) && NoRepeats(d) && NoRepeats(e)
    ensures SameUpToKeyOrder(d, e) <==> DenoteMembers(d.members, map[]) == DenoteMembers(e.members, map[])
    decreases d, 0
  {
    hide DenoteMembers;
    var m, n := DenoteMembers(d.members, map[]), DenoteMembers(e.members, map[]);
    DenoteMembersAt(d.members, map[], 0);
    DenoteMembersAt(e.members, map[], 0);
    forall i, j | 0 <= i < |d.members| && 0 <= j < |e.members| && d.members[i].key == e.members[j].key
      ensures SameUpToKeyOrder(d.members[i].doc, e.members[j].doc) <==> m[d.members[i].key] == n[d.members[i].key]
    {
      SameIffDenoteEqual(d.members[i].doc, e.members[j].doc);
      DenoteMembersAt(d.members, map[], i);
      DenoteMembersAt(e.members, map[], j);
    }
    SameMembersMeans(d, e, m, n);
  }

  lemma SameMembersMeans(d: Doc, e: Doc, m: map<string, Value>, n: map<string, Value>)
    requires d.Members? && e.Members? && m.Keys == Keys(d.members) && n.Keys == Keys(e.members)
    requires forall i, j :: 0 <= i < |d.members| && 0 <= j < |e.members| && d.members[i].key == e.members[j].key ==>
               (SameUpToKeyOrder(d.members[i].doc, e.members[j].doc) <==>
                d.members[i].key in m && d.members[i].key in n && m[d.members[i].key] == n[d.members[i].key])
    ensures SameUpToKeyOrder(d, e) <==> m == n
  {
    if SameUpToKeyOrder(d, e) {
      forall k | k in m ensures k in n && m[k] == n[k] {
        var i :| 0 <= i < |d.members| && d.members[i].key == k;
        var j :| 0 <= j < |e.members| && e.members[j].key == k;
      }
    }
  }

  /** Two documents hash alike exactly when they differ at most in member order, at any depth. */
  lemma {:induction false} CanonicalIgnoresOnlyKeyOrder(d: Doc, e: Doc)
    requires Sound(d) && Sound(e) && NoRepeats(d) && NoRepeats(e)
    ensures Canonical(Show(d)).Some? && Canonical(Show(e)).Some?
    ensures Canonical(Show(d)) == Canonical(Show(e)) <==> SameUpToKeyOrder(d, e)
  {
    ParseShow(d, "");
    ParseShow(e, "");
    assert Show(d) + "" == Show(d) && Show(e) + "" == Show(e);
    CanonicalExact(Show(d), Show(e));
    SameIffDenoteEqual(d, e);
  }
}
