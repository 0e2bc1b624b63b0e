/**
 * The JSON texts the parser takes besides printed ones: any spacing, any escape
 * of a character, and exactly the numbers of RFC 8259, section 6.
 */
module JsonTexts {
  import opened Collections
  import opened Numerals
  import opened Json

  // ------------------------------------------------------------------ spacing

  /** A document with pad between any two of its tokens. */
  function ShowSpaced(d: Doc, pad: string): string {
    match d
    case Leaf(v) => ShowLeaf(v)
    case List(items) => "[" + (pad + (SpacedItems(items, pad) + "]"))
    case Members(members) => "{" + (pad + (SpacedMembers(members, pad) + "}"))
  }

  function SpacedItems(items: seq<Doc>, pad: string): string {
    if items == [] then ""
    else ShowSpaced(items[0], pad) + (pad + if |items| == 1 then "" else "," + (pad + SpacedItems(items[1..], pad)))
  }

  function SpacedMembers(members: seq<Member>, pad: string): string {
    if members == [] then ""
    else
      Quote(members[0].key) + (pad + (":" + (pad + (ShowSpaced(members[0].doc, pad) + (pad +
        if |members| == 1 then "" else "," + (pad + SpacedMembers(members[1..], pad)))))))
  }

  ghost predicate Blanks(pad: string) { forall c :: c in pad ==> Blank(c) }

  /** s starts with a token. */
  predicate Solid(s: string) { s != "" && !Blank(s[0]) }

  lemma {:induction false} SkipPad(pad: string, s: string)
    requires Blanks(pad) && Solid(s)
    ensures SkipSpace(pad + s) == s && SkipSpace(s) == s
  {
    if pad == "" {
      assert pad + s == s;
    } else {
      assert pad[0] in pad && (pad + s)[1..] == pad[1..] + s;
      SkipPad(pad[1..], s);
    }
  }

  lemma PadDelimits(pad: string, s: string)
    requires Blanks(pad) && s != "" && (s[0] == ',' || s[0] == ']' || s[0] == '}')
    ensures Delimited(pad + s)
  {
    if pad != "" {
      assert pad[0] in pad;
    }
  }

  // A value, an item list and a member list may be read from behind blanks.
  lemma ParsePadded(pad: string, s: string, items: seq<Value>, fields: map<string, Value>)
    requires Blanks(pad) && Solid(s)
    ensures ParseValue(pad + s) == ParseValue(s)
    ensures |s| <= |pad + s| && ParseItems(pad + s, items) == ParseItems(s, items)
    ensures ParseMembers(pad + s, fields) == ParseMembers(s, fields)
  {
    SkipPad(pad, s);
    hide ParseChars, NumberEnd, SkipSpace, ParseWord;
  }

  lemma SpacedStarts(d: Doc, pad: string, rest: string)
    requires Sound(d)
    ensures var s := ShowSpaced(d, pad) + rest; Solid(s) && s[0] != ']' && s[0] != '}'
  {
    if d.Leaf? {
      ShowStarts(d);
    }
  }

  /** However a document is spaced out, it is read as what it denotes. */
  lemma {:induction false} ParseSpaced(d: Doc, pad: string, rest: string)
    requires Sound(d) && Blanks(pad) && Delimited(rest)
    ensures ParseValue(ShowSpaced(d, pad) + rest) == Some((Denote(d), rest))
    decreases d, 0
  {
    match d {
      case Leaf(v) => ParseLeaf(v, rest);
      case List(items) =>
        Opened('[', pad, SpacedItems(items, pad), ']', rest);
        if items != [] {
          SpacedStarts(items[0], pad, "");
          ItemsStart(items, pad);
          ParseSpacedItems(items, pad, rest, []);
          assert [] + DenoteItems(items) == DenoteItems(items);
        }
      case Members(members) =>
        Opened('{', pad, SpacedMembers(members, pad), '}', rest);
        if members != [] {
          ParseSpacedMembers(members, pad, rest, map[]);
        }
    }
  }

  lemma ItemsStart(items: seq<Doc>, pad: string)
    requires items != [] && Solid(ShowSpaced(items[0], pad))
    ensures SpacedItems(items, pad) != "" && SpacedItems(items, pad)[0] == ShowSpaced(items[0], pad)[0]
  {
    hide ShowSpaced;
  }

  lemma OpenedText(open: char, pad: string, inner: string, close: char, rest: string)
    ensures var s := ([open] + (pad + (inner + [close]))) + rest;
      s[0] == open && s[1..] == pad + (inner + ([close] + rest))
  {
    Regroup(pad, inner + [close], rest);
    Regroup(inner, [close], rest);
    Regroup([open], pad + (inner + [close]), rest);
  }

  lemma Opened(open: char, pad: string, inner: string, close: char, rest: string)
    requires (open == '[' && close == ']') || (open == '{' && close == '}')
    requires Blanks(pad)
    ensures var s := ([open] + (pad + (inner + [close]))) + rest;
      && (inner == "" ==> ParseValue(s) == Some((if open == '[' then Array([]) else Object(map[]), rest)))
      && (Solid(inner) && inner[0] != close ==>
           ParseValue(s) == if open == '[' then ParseItems(inner + ([close] + rest), [])
                            else ParseMembers(inner + ([close] + rest), map[]))
  {
    hide ParseChars, NumberEnd, ParseWord, ParseItems, ParseMembers;
    var s := ([open] + (pad + (inner + [close]))) + rest;
    var after := inner + ([close] + rest);
    OpenedText(open, pad, inner, close, rest);
    assert SkipSpace(s) == s;
    hide SkipSpace;
    if inner == "" || Solid(inner) {
      assert after[0] == if inner == "" then close else inner[0];
      SkipPad(pad, after);
      assert inner == "" ==> after[1..] == rest;
    }
  }

  lemma {:induction false} ParseSpacedItems(items: seq<Doc>, pad: string, rest: string, sofar: seq<Value>)
    requires items != [] && Blanks(pad) && forall i :: 0 <= i < |items| ==> Sound(items[i])
    ensures ParseItems(SpacedItems(items, pad) + ("]" + rest), sofar)
      == Some((Array(sofar + DenoteItems(items)), rest))
    decreases items, 1
  {
    hide ShowSpaced, SpacedItems, ParseValue, ParseMembers, Denote, Sound;
    var last := |items| == 1;
    var more := if last then "" else SpacedItems(items[1..], pad);
    var after := Next(pad, more, last, "]" + rest);
    var first, next := ShowSpaced(items[0], pad), sofar + [Denote(items[0])];
    PadDelimits(pad, after);
    ParseSpaced(items[0], pad, pad + after);
    SkipPad(pad, after);
    OneMore(first, pad, more, last, "]" + rest);
    if last {
      assert next == sofar + DenoteItems(items);
      assert after[1..] == rest;
    } else {
      ParseSpacedItems(items[1..], pad, rest, next);
      SpacedStarts(items[1], pad, "");
      ItemsStart(items[1..], pad);
      ParsePadded(pad, more + ("]" + rest), next, map[]);
      assert after[1..] == pad + (more + ("]" + rest));
      assert next + DenoteItems(items[1..]) == sofar + DenoteItems(items);
    }
    assert SpacedItems(items, pad) + ("]" + rest) == first + (pad + after) by {
      ItemsSplit(items, pad);
    }
  }

  /** What stands behind an element: the end, or a comma and the others. */
  function Next(pad: string, more: string, last: bool, end: string): string {
    if last then end else "," + (pad + (more + end))
  }

  lemma OneMore(first: string, pad: string, more: string, last: bool, end: string)
    ensures (first + (pad + if last then "" else "," + (pad + more))) + end
      == first + (pad + Next(pad, more, last, end))
  {
    var tail := if last then "" else "," + (pad + more);
    assert tail + end == Next(pad, more, last, end);
    Regroup(first, pad + tail, end);
    Regroup(pad, tail, end);
  }

  lemma ItemsSplit(items: seq<Doc>, pad: string)
    requires items != []
    ensures SpacedItems(items, pad) == ShowSpaced(items[0], pad)
      + (pad + if |items| == 1 then "" else "," + (pad + SpacedItems(items[1..], pad)))
  {
    hide ShowSpaced;
  }

  lemma {:induction false} ParseSpacedMembers(members: seq<Member>, pad: string, rest: string,
                                              sofar: map<string, Value>)
    requires members != [] && Blanks(pad) && forall i :: 0 <= i < |members| ==> Sound(members[i].doc)
    ensures SpacedMembers(members, pad) != "" && SpacedMembers(members, pad)[0] == '"'
    ensures ParseMembers(SpacedMembers(members, pad) + ("}" + rest), sofar)
      == Some((Object(DenoteMembers(members, sofar)), rest))
    decreases members, 1
  {
    hide ShowSpaced, SpacedMembers, Quote, ParseValue, ParseMembers, ParseItems, Denote, Sound;
    var m, last := members[0], |members| == 1;
    var more := if last then "" else SpacedMembers(members[1..], pad);
    MemberStarts(m, pad, pad + Next(pad, more, last, "}" + rest));
    var after := Next(pad, more, last, "}" + rest);
    var next := sofar[m.key := Denote(m.doc)];
    PadDelimits(pad, after);
    ParseSpaced(m.doc, pad, pad + after);
    OneMember(m.key, pad, ShowSpaced(m.doc, pad), after, Denote(m.doc), sofar);
    if !last {
      ParseSpacedMembers(members[1..], pad, rest, next);
      ParsePadded(pad, more + ("}" + rest), [], next);
      assert after[1..] == pad + (more + ("}" + rest));
    } else {
      assert after[1..] == rest;
    }
    DenoteFirst(members, sofar);
    MembersSplit(members, pad);
    QuoteStarts(m.key);
    OneMore(ShowSpaced(m.doc, pad), pad, more, last, "}" + rest);
    MemberSplit(Quote(m.key), pad, ShowSpaced(m.doc, pad), pad + (if last then "" else "," + (pad + more)), "}" + rest);
  }

  lemma MemberStarts(m: Member, pad: string, rest: string)
    requires Sound(m.doc)
    ensures Solid(ShowSpaced(m.doc, pad) + rest)
  {
    hide ShowSpaced;
    SpacedStarts(m.doc, pad, rest);
  }

  lemma DenoteFirst(members: seq<Member>, sofar: map<string, Value>)
    requires members != []
    ensures DenoteMembers(members, sofar)
      == DenoteMembers(members[1..], sofar[members[0].key := Denote(members[0].doc)])
    ensures DenoteMembers([], sofar) == sofar && (|members| == 1 ==> members[1..] == [])
  {
    hide Denote;
  }

  lemma QuoteStarts(name: string)
    ensures Quote(name) != "" && Quote(name)[0] == '"'
  {
    hide Escape;
  }

  lemma MembersSplit(members: seq<Member>, pad: string)
    requires members != []
    ensures SpacedMembers(members, pad) == Quote(members[0].key) + (pad + (":" + (pad + (
      ShowSpaced(members[0].doc, pad)
        + (pad + if |members| == 1 then "" else "," + (pad + SpacedMembers(members[1..], pad)))))))
  {
    hide ShowSpaced, Quote;
  }

  lemma MemberSplit(key: string, pad: string, doc: string, behind: string, end: string)
    ensures (key + (pad + (":" + (pad + (doc + behind))))) + end
         == key + (pad + (":" + (pad + ((doc + behind) + end))))
  {
  }

  // One member: the key, a colon, the value, then a comma or the closing brace.
  lemma OneMember(name: string, pad: string, doc: string, after: string, v: Value, sofar: map<string, Value>)
    requires Blanks(pad) && Solid(after) && Solid(doc + (pad + after))
    requires ParseValue(doc + (pad + after)) == Some((v, pad + after))
    ensures var fields := sofar[name := v];
      ParseMembers(Quote(name) + (pad + (":" + (pad + (doc + (pad + after))))), sofar) ==
        if after[0] == ',' then ParseMembers(after[1..], fields)
        else if after[0] == '}' then Some((Object(fields), after[1..]))
        else None
  {
    hide ParseValue, ParseItems;
    var colon := ":" + (pad + (doc + (pad + after)));
    var s := Quote(name) + (pad + colon);
    assert s == "\"" + (Escape(name) + "\"" + (pad + colon));
    ParseEscaped(name, pad + colon);
    SkipPad(pad, colon);
    SkipPad(pad, after);
    ParsePadded(pad, doc + (pad + after), [], map[]);
    assert colon[1..] == pad + (doc + (pad + after));
    hide Escape, ParseChars;
    assert SkipSpace(s) == s && s[0] == '"';
    assert s[1..] == Escape(name) + "\"" + (pad + colon);
  }

  /** Spacing never shows in the canonical form. */
  lemma CanonicalIgnoresSpacing(d: Doc, pad: string, lead: string)
    requires Sound(d) && Blanks(pad) && Blanks(lead)
    ensures Canonical(lead + ShowSpaced(d, pad)) == Canonical(Show(d))
  {
    hide Show, ShowSpaced, ParseValue, Print;
    SpacedStarts(d, pad, "");
    assert ShowSpaced(d, pad) + "" == ShowSpaced(d, pad) && Show(d) + "" == Show(d);
    ParsePadded(lead, ShowSpaced(d, pad), [], map[]);
    ParseSpaced(d, pad, "");
    ParseShow(d, "");
  }

  /** Two texts without repeated keys hash alike exactly when they differ at most in key order and spacing. */
  lemma CanonicalIgnoresOnlyOrderAndSpacing(d: Doc, e: Doc, pad: string, gap: string)
    requires Sound(d) && Sound(e) && NoRepeats(d) && NoRepeats(e) && Blanks(pad) && Blanks(gap)
    ensures Canonical(ShowSpaced(d, pad)).Some? && Canonical(ShowSpaced(e, gap)).Some?
    ensures Canonical(ShowSpaced(d, pad)) == Canonical(ShowSpaced(e, gap)) <==> SameUpToKeyOrder(d, e)
  {
    hide Sound, NoRepeats, SameUpToKeyOrder, Canonical, ShowSpaced, Show;
    CanonicalIgnoresSpacing(d, pad, "");
    CanonicalIgnoresSpacing(e, gap, "");
    assert "" + ShowSpaced(d, pad) == ShowSpaced(d, pad) && "" + ShowSpaced(e, gap) == ShowSpaced(e, gap);
    CanonicalIgnoresOnlyKeyOrder(d, e);
  }

  // ------------------------------------------------------------------ escapes

  /** A hexadecimal digit of either case. */
  predicate SpellsNibble(c: char, n: int) {
    0 <= n < 16 && (c == "0123456789abcdef"[n] || c == "0123456789ABCDEF"[n])
  }

  /** s starts with the escape of the 16-bit unit n. */
  ghost predicate Escapes(s: string, n: nat) {
    && |s| >= 6 && s[0] == '\\' && s[1] == 'u' && n < 0x1_0000
    && SpellsNibble(s[2], n / 0x1000) && SpellsNibble(s[3], n / 0x100 % 0x10)
    && SpellsNibble(s[4], n / 0x10 % 0x10) && SpellsNibble(s[5], n % 0x10)
  }

  lemma HexExactly(c: char, n: nat)
    ensures HexValue(c) == Some(n) <==> SpellsNibble(c, n)
  {
  }

  lemma Units(a: nat, b: nat, c: nat, d: nat)
    requires a < 16 && b < 16 && c < 16 && d < 16
    ensures var n := ((a * 16 + b) * 16 + c) * 16 + d;
      n < 0x1_0000 && n / 0x1000 == a && n / 0x100 % 0x10 == b && n / 0x10 % 0x10 == c && n % 0x10 == d
  {
  }

  lemma HexNibble(c: char)
    ensures HexValue(c).Some? ==> HexValue(c).value < 16
  {
  }

  lemma FourDigits(n: nat)
    requires n < 0x1_0000
    ensures n / 0x1000 < 16 && n == ((n / 0x1000 * 16 + n / 0x100 % 0x10) * 16 + n / 0x10 % 0x10) * 16 + n % 0x10
  {
  }

  lemma Hex4Exactly(s: string, n: nat)
    requires |s| >= 6 && s[0] == '\\' && s[1] == 'u'
    ensures Hex4(s[2..]) == Some(n) <==> Escapes(s, n)
  {
    hide Hex4, Escapes;
    if Hex4(s[2..]) == Some(n) {
      HexSpelled(s, n);
    }
    if Escapes(s, n) {
      HexRead(s, n);
    }
  }

  lemma HexSpelled(s: string, n: nat)
    requires |s| >= 6 && s[0] == '\\' && s[1] == 'u' && Hex4(s[2..]) == Some(n)
    ensures Escapes(s, n)
  {
    hide HexValue, SpellsNibble;
    var t := s[2..];
    assert t[0] == s[2] && t[1] == s[3] && t[2] == s[4] && t[3] == s[5];
    var (a, b, c, d) := (HexValue(s[2]).value, HexValue(s[3]).value, HexValue(s[4]).value, HexValue(s[5]).value);
    HexNibble(s[2]);
    HexNibble(s[3]);
    HexNibble(s[4]);
    HexNibble(s[5]);
    HexExactly(s[2], a);
    HexExactly(s[3], b);
    HexExactly(s[4], c);
    HexExactly(s[5], d);
    Units(a, b, c, d);
  }

  lemma HexRead(s: string, n: nat)
    requires Escapes(s, n)
    ensures Hex4(s[2..]) == Some(n)
  {
    hide HexValue, SpellsNibble;
    var t := s[2..];
    assert t[0] == s[2] && t[1] == s[3] && t[2] == s[4] && t[3] == s[5];
    HexExactly(s[2], n / 0x1000);
    HexExactly(s[3], n / 0x100 % 0x10);
    HexExactly(s[4], n / 0x10 % 0x10);
    HexExactly(s[5], n % 0x10);
    FourDigits(n);
  }

  /** The escape of a character of the basic plane, in either case, is read as that character. */
  lemma UnescapeUnit(s: string, n: nat)
    requires Escapes(s, n) && (n < 0xD800 || 0xE000 <= n)
    ensures UnescapeChar(s) == Some((n as char, 6))
  {
    hide Hex4, LowSurrogate, SpellsNibble;
    Hex4Exactly(s, n);
  }

  /** A high surrogate with a low one behind it is read as the one character they encode. */
  lemma UnescapePair(s: string, high: nat, low: nat)
    requires Escapes(s, high) && Escapes(s[6..], low) && 0xD800 <= high < 0xDC00 <= low < 0xE000
    ensures UnescapeChar(s) == Some(((0x1_0000 + (high - 0xD800) * 0x400 + (low - 0xDC00)) as char, 12))
  {
    hide Hex4, SpellsNibble;
    Hex4Exactly(s, high);
    Hex4Exactly(s[6..], low);
  }

  /** Any other surrogate is read as the replacement character, and what follows it by itself. */
  lemma UnescapeLone(s: string, n: nat)
    requires Escapes(s, n) && 0xD800 <= n < 0xE000
    requires n < 0xDC00 ==> forall low :: 0xDC00 <= low < 0xE000 ==> !Escapes(s[6..], low)
    ensures UnescapeChar(s) == Some(('\U{FFFD}', 6))
  {
    hide Hex4, SpellsNibble;
    Hex4Exactly(s, n);
    var rest := s[6..];
    if |rest| >= 6 && rest[0] == '\\' && rest[1] == 'u' && Hex4(rest[2..]).Some? {
      Hex4Exactly(rest, Hex4(rest[2..]).value);
    }
  }

  /** The short escapes; a raw character stands for itself unless it is a control character. */
  lemma UnescapeShort(c: char, rest: string)
    ensures UnescapeChar("\\" + ([c] + rest)) == (
      if c == '"' || c == '\\' || c == '/' then Some((c, 2))
      else if c == 'b' then Some(('\U{8}', 2))
      else if c == 'f' then Some(('\U{C}', 2))
      else if c == 'n' then Some(('\U{A}', 2))
      else if c == 'r' then Some(('\U{D}', 2))
      else if c == 't' then Some(('\U{9}', 2))
      else if c == 'u' then UnescapeChar("\\u" + rest)
      else None)
    ensures c != '"' && c != '\\' ==>
      UnescapeChar([c] + rest) == if c as int < 0x20 then None else Some((c, 1))
  {
    hide Hex4, LowSurrogate;
    var s := "\\" + ([c] + rest);
    assert s[0] == '\\' && s[1] == c;
    assert c == 'u' ==> s == "\\u" + rest;
  }

  // ------------------------------------------------------------------ numbers

  ghost predicate Digits(s: string) { s != "" && forall c :: c in s ==> IsDigit(c) }

  ghost predicate Integer(s: string) { Digits(s) && (s[0] == '0' ==> |s| == 1) }

  ghost predicate Fraction(s: string) { s == "" || (s[0] == '.' && Digits(s[1..])) }

  ghost predicate Exponent(s: string) {
    || s == ""
    || ((s[0] == 'e' || s[0] == 'E')
        && (Digits(s[1..]) || (|s| > 1 && (s[1] == '+' || s[1] == '-') && Digits(s[2..]))))
  }

  /** A number: an optional minus, an integer without leading zeros, an optional fraction and exponent. */
  ghost predicate NumberText(s: string, minus: bool, whole: string, frac: string, exp: string) {
    && s == (if minus then "-" else "") + (whole + (frac + exp))
    && Integer(whole) && Fraction(frac) && Exponent(exp)
  }

  lemma {:induction false} DigitsEndAre(s: string, i: nat)
    requires i <= |s|
    ensures var j := DigitsEnd(s, i);
      && (forall k :: i <= k < j ==> IsDigit(s[k])) && (j < |s| ==> !IsDigit(s[j]))
      && (j > i ==> Digits(s[i..j]))
    decreases |s| - i
  {
    if i < |s| && IsDigit(s[i]) {
      DigitsEndAre(s, i + 1);
    }
  }

  lemma {:induction false} DigitsEndIs(s: string, i: nat, j: nat)
    requires i <= j <= |s| && (forall k :: i <= k < j ==> IsDigit(s[k])) && (j < |s| ==> !IsDigit(s[j]))
    ensures DigitsEnd(s, i) == j
    decreases |s| - i
  {
    if i < j {
      DigitsEndIs(s, i + 1, j);
    }
  }

  /** A number the parser takes whole is one of the grammar. */
  lemma NumberIsText(s: string) returns (minus: bool, whole: string, frac: string, exp: string)
    requires IsNumber(s)
    ensures NumberText(s, minus, whole, frac, exp)
  {
    hide IntegerEnd, FractionEnd, ExponentEnd, Integer, Fraction, Exponent;
    minus := s[0] == '-';
    var start := if minus then 1 else 0;
    var i := IntegerEnd(s, start).value;
    var f := FractionEnd(s, i).value;
    whole, frac, exp := s[start..i], s[i..f], s[f..];
    IntegerWas(s, start);
    FractionWas(s, i);
    ExponentWas(s, f);
    assert s == (if minus then "-" else "") + (whole + (frac + exp));
  }

  lemma IntegerWas(s: string, i: nat)
    requires i <= |s| && IntegerEnd(s, i).Some?
    ensures Integer(s[i..IntegerEnd(s, i).value])
  {
    hide DigitsEnd;
    DigitsEndAre(s, i);
  }

  lemma FractionWas(s: string, i: nat)
    requires i <= |s| && FractionEnd(s, i).Some?
    ensures Fraction(s[i..FractionEnd(s, i).value])
  {
    hide DigitsEnd;
    var f := FractionEnd(s, i).value;
    if i < f {
      DigitsEndAre(s, i + 1);
      assert s[i..f][1..] == s[i + 1..f];
    }
  }

  lemma ExponentWas(s: string, f: nat)
    requires f <= |s| && ExponentEnd(s, f) == Some(|s|)
    ensures Exponent(s[f..])
  {
    hide DigitsEnd;
    if f < |s| {
      var k := if f + 1 < |s| && (s[f + 1] == '+' || s[f + 1] == '-') then f + 2 else f + 1;
      DigitsEndAre(s, k);
      assert s[f..][1..] == s[f + 1..] == s[f + 1..|s|];
      assert k == f + 2 ==> s[f..][2..] == s[f + 2..] == s[f + 2..|s|];
    }
  }

  /** Every number of the grammar is taken whole. */
  lemma TextIsNumber(s: string, minus: bool, whole: string, frac: string, exp: string)
    requires NumberText(s, minus, whole, frac, exp)
    ensures IsNumber(s)
  {
    hide DigitsEnd;
    var start := if minus then 1 else 0;
    var i, f := start + |whole|, start + |whole| + |frac|;
    assert s[start..i] == whole && s[i..f] == frac && s[f..] == exp;
    IntegerRead(s, start, i);
    FractionRead(s, i, f);
    ExponentRead(s, f);
    assert s[0] == '-' <==> minus by {
      assert !minus ==> s[0] == whole[0] && whole[0] in whole;
    }
  }

  lemma IntegerRead(s: string, start: nat, i: nat)
    requires start < i <= |s| && Integer(s[start..i]) && (i < |s| ==> s[i] == '.' || s[i] == 'e' || s[i] == 'E')
    ensures IntegerEnd(s, start) == Some(i)
  {
    hide DigitsEnd;
    RunRead(s, start, i);
    assert s[start..i][0] == s[start];
  }

  // A run of digits with no digit behind it is read to its end.
  lemma RunRead(s: string, i: nat, j: nat)
    requires i < j <= |s| && Digits(s[i..j]) && (j < |s| ==> !IsDigit(s[j]))
    ensures DigitsEnd(s, i) == j
  {
    forall k | i <= k < j ensures IsDigit(s[k]) {
      assert s[i..j][k - i] in s[i..j];
    }
    DigitsEndIs(s, i, j);
  }

  lemma FractionRead(s: string, i: nat, f: nat)
    requires i <= f <= |s| && Fraction(s[i..f]) && (f < |s| ==> s[f] == 'e' || s[f] == 'E')
    ensures FractionEnd(s, i) == Some(f)
  {
    hide DigitsEnd;
    if i < f {
      assert s[i..f][1..] == s[i + 1..f];
      RunRead(s, i + 1, f);
    }
  }

  lemma ExponentRead(s: string, f: nat)
    requires f <= |s| && Exponent(s[f..])
    ensures ExponentEnd(s, f) == Some(|s|)
  {
    hide DigitsEnd;
    if f < |s| {
      var k := if Digits(s[f + 1..]) then f + 1 else f + 2;
      assert s[f..][1..] == s[f + 1..] == s[f + 1..|s|];
      assert !Digits(s[f + 1..]) ==> s[f..][2..] == s[f + 2..] == s[f + 2..|s|];
      assert Digits(s[f + 1..]) ==> s[f + 1] == s[f + 1..][0] && IsDigit(s[f + 1]);
      RunRead(s, k, |s|);
    }
  }

  /** The literals taken for numbers are exactly those of the grammar. */
  lemma IsNumberExactly(s: string)
    ensures IsNumber(s) <==> exists minus, whole, frac, exp :: NumberText(s, minus, whole, frac, exp)
  {
    hide IsNumber, NumberText;
    if IsNumber(s) {
      var minus, whole, frac, exp := NumberIsText(s);
    }
    if minus, whole, frac, exp :| NumberText(s, minus, whole, frac, exp) {
      TextIsNumber(s, minus, whole, frac, exp);
    }
  }
}
