/**
 * Terminal input: splitting a byte stream that arrives in arbitrary reads into
 * key events and SGR mouse events. Bytes are written as characters below 256.
 */
module TerminalInput {
  import opened Collections
  import opened Text
  import opened Numerals

  const ESC: char := '\U{1B}'

  datatype Event =
    | Keys(bytes: string)
    | Mouse(button: int, x: int, y: int, press: bool)

  // ------------------------------------------------------ one mouse sequence

  /** Two's complement wrap of a 64-bit result. */
  function Wrap64(i: int): int {
    if i < INT64_MIN then i + 0x1_0000_0000_0000_0000
    else if i > INT64_MAX then i - 0x1_0000_0000_0000_0000
    else i
  }

  function ParseSGRMouse(params: string, press: bool): Option<Event> {
    var parts := SplitOn(params, ';');
    if |parts| != 3 then None
    else
      var button, col, row := Atoi(parts[0]), Atoi(parts[1]), Atoi(parts[2]);
      if button == None || col == None || row == None then None
      else Some(Mouse(button.value, Wrap64(col.value - 1), Wrap64(row.value - 1), press))
  }

  function Params(button: int, col: int, row: int): string {
    FormatInt(button) + ";" + FormatInt(col) + ";" + FormatInt(row)
  }

  function EncodeSGRMouse(button: int, col: int, row: int, press: bool): string {
    [ESC] + "[<" + Params(button, col, row) + (if press then "M" else "m")
  }

  /** The escape sequence: introducer, three decimal numbers, and the letter for press or release. */
  lemma EncodeSpelled(button: int, col: int, row: int, press: bool)
    ensures EncodeSGRMouse(button, col, row, press)
      == "\U{1B}[<" + (FormatInt(button) + ";" + FormatInt(col) + ";" + FormatInt(row)) + (if press then "M" else "m")
  {
    hide FormatInt;
    assert [ESC] + "[<" == "\U{1B}[<";
  }

  predicate Int64(i: int) { INT64_MIN <= i <= INT64_MAX }

  lemma ParamsPlain(button: int, col: int, row: int)
    ensures 'M' !in Params(button, col, row) && 'm' !in Params(button, col, row)
  {
    hide FormatInt;
    FormatChars(button);
    FormatChars(col);
    FormatChars(row);
  }

  lemma SplitThree(a: string, b: string, c: string)
    requires ';' !in a && ';' !in b && ';' !in c
    ensures SplitOn(a + ";" + b + ";" + c, ';') == [a, b, c]
  {
    assert a + ";" + b + ";" + c == a + [';'] + (b + [';'] + c);
    SplitFirst(a, b + [';'] + c, ';');
    SplitFirst(b, c, ';');
    SplitPlain(c, ';');
  }

  lemma {:induction false} ParamsParse(button: int, col: int, row: int, press: bool)
    requires Int64(button) && Int64(col) && Int64(row)
    ensures ParseSGRMouse(Params(button, col, row), press)
      == Some(Mouse(button, Wrap64(col - 1), Wrap64(row - 1), press))
  {
    var b, c, r := FormatInt(button), FormatInt(col), FormatInt(row);
    FormatChars(button);
    FormatChars(col);
    FormatChars(row);
    SplitThree(b, c, r);
    AtoiFormat(button);
    AtoiFormat(col);
    AtoiFormat(row);
  }

  // ------------------------------------------------------- the whole stream at once

  datatype Token =
    | Key(bytes: string)
    | MouseSequence(params: string, press: bool)

  predicate Terminator(c: char) { c == 'M' || c == 'm' }

  /** Where the first terminator stands. */
  function TerminatorAt(s: string): (r: Option<nat>)
    ensures r.Some? ==> r.value < |s| && Terminator(s[r.value])
  {
    if s == "" then None
    else if Terminator(s[0]) then Some(0)
    else
      var r := TerminatorAt(s[1..]);
      if r == None then None else Some(r.value + 1)
  }

  /** The complete tokens of a stream, and the unfinished tail. */
  function Tokens(s: string): (seq<Token>, string)
    decreases |s|
  {
    if s == "" then ([], "")
    else if s[0] != ESC then Prepend(Key(s[..1]), Tokens(s[1..]))
    else if |s| == 1 then ([], s)
    else if s[1] != '[' then Prepend(Key(s[..2]), Tokens(s[2..]))
    else if |s| == 2 then ([], s)
    else if s[2] != '<' then Prepend(Key(s[..3]), Tokens(s[3..]))
    else
      var end := TerminatorAt(s[3..]);
      if end == None then ([], s)
      else Prepend(MouseSequence(s[3..3 + end.value], s[3 + end.value] == 'M'), Tokens(s[4 + end.value..]))
  }

  function Prepend(t: Token, rest: (seq<Token>, string)): (seq<Token>, string) { ([t] + rest.0, rest.1) }

  function EventOf(t: Token): seq<Event> {
    match t
    case Key(bytes) => [Keys(bytes)]
    case MouseSequence(params, press) =>
      var m := ParseSGRMouse(params, press);
      if m == None then [] else [m.value]
  }

  function Events(tokens: seq<Token>): seq<Event> {
    if tokens == [] then [] else EventOf(tokens[0]) + Events(tokens[1..])
  }

  /** The bytes a token was read from. */
  function Source(t: Token): string {
    match t
    case Key(bytes) => bytes
    case MouseSequence(params, press) => [ESC] + "[<" + params + (if press then "M" else "m")
  }

  function Sources(tokens: seq<Token>): string {
    if tokens == [] then "" else Source(tokens[0]) + Sources(tokens[1..])
  }

  /** A tail is the start of an escape sequence that more bytes could complete. */
  predicate Unfinished(s: string) {
    || s == "" || s == [ESC] || s == [ESC] + "["
    || ([ESC] + "[<" <= s && TerminatorAt(s[3..]) == None)
  }

  /** No byte is lost, repeated or moved: the tokens' bytes and the tail make up the stream. */
  lemma {:induction false} TokensConserve(s: string)
    ensures Sources(Tokens(s).0) + Tokens(s).1 == s
    ensures Unfinished(Tokens(s).1)
    decreases |s|
  {
    if s == "" {
    } else if s[0] != ESC {
      ConserveStep(s, 1, Key(s[..1]));
    } else if |s| == 1 {
    } else if s[1] != '[' {
      ConserveStep(s, 2, Key(s[..2]));
    } else if |s| == 2 {
    } else if s[2] != '<' {
      ConserveStep(s, 3, Key(s[..3]));
    } else if TerminatorAt(s[3..]).Some? {
      var end := TerminatorAt(s[3..]).value;
      var t := MouseSequence(s[3..3 + end], s[3 + end] == 'M');
      assert s[3..][end] == s[3 + end];
      assert s[..4 + end] == [ESC] + "[<" + s[3..3 + end] + [s[3 + end]];
      ConserveStep(s, 4 + end, t);
    } else {
      assert [ESC] + "[<" == s[..3];
    }
  }

  lemma {:induction false} ConserveStep(s: string, n: nat, t: Token)
    requires 0 < n <= |s| && Source(t) == s[..n]
    ensures var (rest, tail) := Tokens(s[n..]); Sources([t] + rest) + tail == s && Unfinished(tail)
    decreases |s|, 0
  {
    hide Tokens, Source, Unfinished;
    TokensConserve(s[n..]);
    var (rest, tail) := Tokens(s[n..]);
    assert ([t] + rest)[1..] == rest;
    assert s == s[..n] + s[n..];
  }

  lemma {:induction false} TerminatorAtAppend(s: string, t: string)
    ensures TerminatorAt(s).Some? ==> TerminatorAt(s + t) == TerminatorAt(s)
  {
    if s != "" {
      assert (s + t)[1..] == s[1..] + t;
      TerminatorAtAppend(s[1..], t);
    }
  }

  /** Reading on: the tokens of a longer stream are those found so far and those of tail and new bytes. */
  lemma {:induction false} TokensResume(s: string, t: string)
    ensures Tokens(s + t) == (Tokens(s).0 + Tokens(Tokens(s).1 + t).0, Tokens(Tokens(s).1 + t).1)
    decreases |s|
  {
    if s == "" {
      assert s + t == t;
      assert [] + Tokens(t).0 == Tokens(t).0;
    } else if s[0] != ESC {
      ResumeStep(s, t, 1, Key(s[..1]));
    } else if |s| == 1 {
      assert [] + Tokens(s + t).0 == Tokens(s + t).0;
    } else if s[1] != '[' {
      ResumeStep(s, t, 2, Key(s[..2]));
    } else if |s| == 2 {
      assert [] + Tokens(s + t).0 == Tokens(s + t).0;
    } else if s[2] != '<' {
      ResumeStep(s, t, 3, Key(s[..3]));
    } else if TerminatorAt(s[3..]).Some? {
      var end := TerminatorAt(s[3..]).value;
      TerminatorAtAppend(s[3..], t);
      assert (s + t)[3..] == s[3..] + t;
      assert (s + t)[3..3 + end] == s[3..3 + end];
      ResumeStep(s, t, 4 + end, MouseSequence(s[3..3 + end], s[3 + end] == 'M'));
    } else {
      assert [] + Tokens(s + t).0 == Tokens(s + t).0;
    }
  }

  lemma {:induction false} ResumeStep(s: string, t: string, n: nat, k: Token)
    requires 0 < n <= |s|
    ensures (s + t)[..n] == s[..n] && (s + t)[n..] == s[n..] + t
    ensures var (rest, tail) := Tokens(s[n..]);
      Prepend(k, Tokens(s[n..] + t)) == ([k] + rest + Tokens(tail + t).0, Tokens(tail + t).1)
    decreases |s|, 0
  {
    assert (s + t)[n..] == s[n..] + t;
    TokensResume(s[n..], t);
    var (rest, tail) := Tokens(s[n..]);
    assert [k] + (rest + Tokens(tail + t).0) == [k] + rest + Tokens(tail + t).0;
  }

  lemma {:induction false} EventsAppend(a: seq<Token>, b: seq<Token>)
    ensures Events(a + b) == Events(a) + Events(b)
  {
    if a == [] {
      assert a + b == b;
    } else {
      assert (a + b)[1..] == a[1..] + b;
      EventsAppend(a[1..], b);
    }
  }

  // ------------------------------------------------------------ byte by byte

  /** The bytes held back in each parser state. */
  function Held(state: nat, esc: string, mb: string): string {
    if state == 0 then "" else if state == 3 then [ESC] + "[<" + mb else esc
  }

  ghost predicate Consistent(state: nat, esc: string, mb: string) {
    match state
    case 0 => true
    case 1 => esc == [ESC]
    case 2 => esc == [ESC] + "["
    case 3 => TerminatorAt(mb) == None
    case _ => false
  }

  /** The parser agrees with the one-shot reading of everything seen. */
  ghost predicate InStep(seen: string, events: seq<Event>, state: nat, esc: string, mb: string) {
    && Consistent(state, esc, mb)
    && events == Events(Tokens(seen).0)
    && Held(state, esc, mb) == Tokens(seen).1
  }

  lemma {:induction false} NoTerminatorSnoc(mb: string, b: char)
    requires TerminatorAt(mb) == None
    ensures TerminatorAt(mb + [b]) == if Terminator(b) then Some(|mb|) else None
  {
    if mb == "" {
      assert mb + [b] == [b];
    } else {
      assert (mb + [b])[1..] == mb[1..] + [b];
      NoTerminatorSnoc(mb[1..], b);
    }
  }

  /** What one more byte does to a held-back prefix. */
  lemma {:induction false} OneByte(state: nat, esc: string, mb: string, b: char)
    requires Consistent(state, esc, mb)
    ensures Tokens(Held(state, esc, mb) + [b]) ==
      if state == 0 then (if b == ESC then ([], [ESC]) else ([Key([b])], ""))
      else if state == 1 then (if b == '[' then ([], [ESC] + "[") else ([Key(esc + [b])], ""))
      else if state == 2 then (if b == '<' then ([], [ESC] + "[<") else ([Key(esc + [b])], ""))
      else if Terminator(b) then ([MouseSequence(mb, b == 'M')], "")
      else ([], [ESC] + "[<" + (mb + [b]))
  {
    var s := Held(state, esc, mb) + [b];
    forall k ensures Prepend(k, ([], "")) == ([k], "") {
      assert [k] + [] == [k];
    }
    if state == 0 {
      assert s == [b];
      assert s[..1] == s && s[1..] == "";
    } else if state == 1 {
      assert s[..2] == s && s[2..] == "";
      if b == '[' {
        assert s == [ESC] + "[";
      } else {
        assert s[..2] == esc + [b];
      }
    } else if state == 2 {
      assert s[..3] == s && s[3..] == "";
      if b == '<' {
        assert s == [ESC] + "[<";
      }
    } else {
      NoTerminatorSnoc(mb, b);
      assert s[3..] == mb + [b] && s == [ESC] + "[<" + (mb + [b]);
      if Terminator(b) {
        assert s[3..3 + |mb|] == mb && s[4 + |mb|..] == "";
      }
    }
  }

  method Advance(ghost seen: string, b: char, events0: seq<Event>, state0: nat, esc0: string, mb0: string)
    returns (events: seq<Event>, state: nat, esc: string, mb: string)
    requires InStep(seen, events0, state0, esc0, mb0)
    ensures InStep(seen + [b], events, state, esc, mb)
  {
    events, state, esc, mb := events0, state0, esc0, mb0;
    OneByte(state, esc, mb, b);
    TokensResume(seen, [b]);
    ghost var found := Tokens(Held(state, esc, mb) + [b]).0;
    EventsAppend(Tokens(seen).0, found);
    if found != [] {
      assert found[1..] == [];
      assert Events(found) == EventOf(found[0]);
    }
    match state {
      case 0 =>
        if b == ESC {
          esc, state := [b], 1;
        } else {
          events := events + [Keys([b])];
        }
      case 1 =>
        esc := esc + [b];
        if b == '[' {
          state := 2;
        } else {
          events := events + [Keys(esc)];
          esc, state := "", 0;
        }
      case 2 =>
        if b == '<' {
          state, mb := 3, "";
        } else {
          esc := esc + [b];
          events := events + [Keys(esc)];
          esc, state := "", 0;
        }
      case 3 =>
        if b == 'M' || b == 'm' {
          var m := ParseSGRMouse(mb, b == 'M');
          if m.Some? {
            events := events + [m.value];
          }
          esc, state := "", 0;
        } else {
          mb := mb + [b];
          NoTerminatorSnoc(mb0, b);
        }
    }
  }

  lemma Snoc(before: string, buf: string, i: nat)
    requires i < |buf|
    ensures before + buf[..i + 1] == (before + buf[..i]) + [buf[i]]
  {
  }

  method ParseChunk(ghost before: string, buf: string, events0: seq<Event>, state0: nat, esc0: string, mb0: string)
    returns (events: seq<Event>, state: nat, esc: string, mb: string)
    requires InStep(before, events0, state0, esc0, mb0)
    ensures InStep(before + buf, events, state, esc, mb)
  {
    events, state, esc, mb := events0, state0, esc0, mb0;
    ghost var seen := before;
    for i := 0 to |buf|
      invariant seen == before + buf[..i]
      invariant InStep(seen, events, state, esc, mb)
    {
      events, state, esc, mb := Advance(seen, buf[i], events, state, esc, mb);
      Snoc(before, buf, i);
      seen := seen + [buf[i]];
    }
    assert buf[..|buf|] == buf;
  }

  /** However the stream is cut into reads, the events are those of the whole stream. */
  method ParseInput(chunks: seq<string>) returns (events: seq<Event>)
    ensures events == Events(Tokens(Concat(chunks)).0)
  {
    var state, esc, mb := 0, "", "";
    events := [];
    for r := 0 to |chunks|
      invariant InStep(Concat(chunks[..r]), events, state, esc, mb)
    {
      events, state, esc, mb := ParseChunk(Concat(chunks[..r]), chunks[r], events, state, esc, mb);
      assert chunks[..r + 1][..r] == chunks[..r];
    }
    assert chunks[..|chunks|] == chunks;
  }

  /** An encoded mouse event is one complete token that decodes to itself, 1-based turned 0-based. */
  lemma {:induction false} EncodedMouseDecodes(button: int, col: int, row: int, press: bool, after: string)
    requires Int64(button) && Int64(col) && Int64(row)
    ensures var (tokens, tail) := Tokens(EncodeSGRMouse(button, col, row, press) + after);
      && tail == Tokens(after).1
      && Events(tokens) == [Mouse(button, Wrap64(col - 1), Wrap64(row - 1), press)] + Events(Tokens(after).0)
    ensures Wrap64(col - 1) == if col == INT64_MIN then INT64_MAX else col - 1
    ensures Wrap64(row - 1) == if row == INT64_MIN then INT64_MAX else row - 1
  {
    hide Params, Tokens;
    var params := Params(button, col, row);
    var s := EncodeSGRMouse(button, col, row, press);
    ParamsParse(button, col, row, press);
    ParamsPlain(button, col, row);
    NoTerminator(params);
    var b := if press then 'M' else 'm';
    assert s == Held(3, "", params) + [b];
    OneByte(3, "", params, b);
    TokensResume(s, after);
    var token := MouseSequence(params, press);
    assert "" + after == after;
    EventsAppend([token], Tokens(after).0);
    assert [token][1..] == [];
    assert Events([token]) == EventOf(token) + Events([]);
  }

  lemma {:induction false} NoTerminator(s: string)
    requires 'M' !in s && 'm' !in s
    ensures TerminatorAt(s) == None
  {
    if s != "" {
      NoTerminator(s[1..]);
    }
  }
}
