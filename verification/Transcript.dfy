/**
 * Following a growing transcript: the tailer's polls over appended bytes, its
 * resumption at a saved offset, and the harvest of one turn.
 */
module Transcript {
  import opened Collections
  import opened Text

  // ------------------------------------------------------------- complete lines

  function NewlineAt(s: string): (r: Option<nat>)
    ensures r.Some? ==> r.value < |s| && s[r.value] == '\n' && '\n' !in s[..r.value]
    ensures r.None? ==> '\n' !in s
  {
    if s == "" then None
    else if s[0] == '\n' then Some(0)
    else
      var r := NewlineAt(s[1..]);
      assert s == [s[0]] + s[1..];
      if r == None then None
      else
        assert s[..r.value + 1] == [s[0]] + s[1..][..r.value];
        Some(r.value + 1)
  }

  /** The newline-terminated lines at the front of s, without their newlines. */
  function Lines(s: string): seq<string>
    decreases |s|
  {
    match NewlineAt(s)
    case None => []
    case Some(k) => [s[..k]] + Lines(s[k + 1..])
  }

  /** How many bytes those lines take. */
  function Consumed(s: string): (n: nat)
    ensures n <= |s|
    decreases |s|
  {
    match NewlineAt(s)
    case None => 0
    case Some(k) => k + 1 + Consumed(s[k + 1..])
  }

  function Spell(lines: seq<string>): string {
    if lines == [] then "" else lines[0] + "\n" + Spell(lines[1..])
  }

  lemma Unroll(s: string)
    requires NewlineAt(s).Some?
    ensures var k := NewlineAt(s).value;
      && Lines(s) == [s[..k]] + Lines(s[k + 1..]) && Consumed(s) == k + 1 + Consumed(s[k + 1..])
      && s[Consumed(s)..] == s[k + 1..][Consumed(s[k + 1..])..]
  {
    hide NewlineAt;
    DropTwice(s, NewlineAt(s).value + 1, Consumed(s[NewlineAt(s).value + 1..]));
  }

  lemma DropTwice(s: string, a: nat, b: nat)
    requires a + b <= |s|
    ensures s[a + b..] == s[a..][b..]
  {
  }

  lemma FrontSplits(s: string, k: nat, n: nat)
    requires k < |s| && s[k] == '\n' && n <= |s| - k - 1
    ensures s[..k + 1 + n] == s[..k] + "\n" + s[k + 1..][..n]
  {
    assert s == s[..k] + "\n" + s[k + 1..];
  }

  /** The complete lines, spelled out, are exactly the consumed bytes; no newline is left behind. */
  lemma {:induction false} LinesCover(s: string)
    ensures Spell(Lines(s)) == s[..Consumed(s)]
    ensures '\n' !in s[Consumed(s)..]
    ensures forall line :: line in Lines(s) ==> '\n' !in line
    decreases |s|
  {
    hide NewlineAt;
    if NewlineAt(s).Some? {
      var k := NewlineAt(s).value;
      Unroll(s);
      FrontSplits(s, k, Consumed(s[k + 1..]));
      LinesCover(s[k + 1..]);
      assert Lines(s)[1..] == Lines(s[k + 1..]);
    }
  }

  lemma {:induction false} NewlineAtAppend(s: string, t: string)
    ensures NewlineAt(s).Some? ==> NewlineAt(s + t) == NewlineAt(s)
  {
    if s != "" {
      assert (s + t)[1..] == s[1..] + t;
      NewlineAtAppend(s[1..], t);
    }
  }

  /** Appending bytes keeps the lines found so far and continues from the unfinished rest. */
  lemma {:induction false} LinesResume(s: string, t: string)
    ensures Lines(s + t) == Lines(s) + Lines(s[Consumed(s)..] + t)
    ensures Consumed(s + t) == Consumed(s) + Consumed(s[Consumed(s)..] + t)
    decreases |s|
  {
    hide NewlineAt;
    if NewlineAt(s).None? {
      assert s[0..] == s;
      assert [] + Lines(s + t) == Lines(s + t);
    } else {
      LinesAfterFirst(s, t);
      LinesResume(s[NewlineAt(s).value + 1..], t);
      Regroup([s[..NewlineAt(s).value]], Lines(s[NewlineAt(s).value + 1..]), Lines(s[Consumed(s)..] + t));
    }
  }

  // The first line is the same with more behind it.
  lemma LinesAfterFirst(s: string, t: string)
    requires NewlineAt(s).Some?
    ensures var k := NewlineAt(s).value;
      var line, rest := s[..k], s[k + 1..];
      && Lines(s) == [line] + Lines(rest) && Consumed(s) == k + 1 + Consumed(rest)
      && Lines(s + t) == [line] + Lines(rest + t) && Consumed(s + t) == k + 1 + Consumed(rest + t)
      && s[Consumed(s)..] == rest[Consumed(rest)..]
  {
    hide NewlineAt, Lines, Consumed;
    var k := NewlineAt(s).value;
    NewlineAtAppend(s, t);
    assert (s + t)[..k] == s[..k] && (s + t)[k + 1..] == s[k + 1..] + t;
    Unroll(s);
    Unroll(s + t);
  }

  lemma {:induction false} FrontIsLines(s: string)
    ensures Lines(s[..Consumed(s)]) == Lines(s) && Consumed(s[..Consumed(s)]) == Consumed(s)
    decreases |s|
  {
    hide NewlineAt;
    if NewlineAt(s).Some? {
      var k := NewlineAt(s).value;
      var front, rest := s[..Consumed(s)], s[k + 1..];
      Unroll(s);
      FrontIsLines(rest);
      hide Lines, Consumed;
      FrontSplits(s, k, Consumed(rest));
      NewlineFirst(front, s[..k], rest[..Consumed(rest)]);
    }
  }

  lemma NewlineFirst(s: string, line: string, rest: string)
    requires s == line + "\n" + rest && '\n' !in line
    ensures Lines(s) == [line] + Lines(rest) && Consumed(s) == |line| + 1 + Consumed(rest)
  {
    hide NewlineAt;
    assert s[..|line|] == line && s[|line|] == '\n' && s[|line| + 1..] == rest;
    NewlineIs(s, |line|);
    Unroll(s);
  }

  lemma {:induction false} NewlineIs(s: string, k: nat)
    requires k < |s| && s[k] == '\n' && '\n' !in s[..k]
    ensures NewlineAt(s) == Some(k)
  {
    if k > 0 {
      assert s[0] in s[..k];
      assert s[1..][..k - 1] == s[..k][1..];
      NewlineIs(s[1..], k - 1);
    }
  }

  // ------------------------------------------------------------------ the tailer

  /** What reading from pos can see; beyond the end there is nothing. */
  function Rest(file: string, pos: nat): string { if pos <= |file| then file[pos..] else "" }

  /** What one read returns: up to and including the next newline, or to the end of the file. */
  function Chunk(file: string, pos: nat): (chunk: string)
    ensures |chunk| <= |Rest(file, pos)|
  {
    var rest := Rest(file, pos);
    match NewlineAt(rest)
    case Some(k) => rest[..k + 1]
    case None => rest
  }

  predicate EndsLine(chunk: string) { chunk != "" && chunk[|chunk| - 1] == '\n' }

  method ReadBytes(file: string, pos: nat) returns (chunk: string, eof: bool)
    ensures chunk == Chunk(file, pos) && (eof <==> !EndsLine(chunk))
  {
    var rest := Rest(file, pos);
    var end := 0;
    while end < |rest| && rest[end] != '\n'
      invariant end <= |rest| && '\n' !in rest[..end]
    {
      assert rest[..end + 1] == rest[..end] + [rest[end]];
      end := end + 1;
    }
    ChunkIs(file, pos, end);
    if end < |rest| {
      return rest[..end + 1], false;
    }
    return rest, true;
  }

  lemma ChunkIs(file: string, pos: nat, end: nat)
    requires end <= |Rest(file, pos)| && '\n' !in Rest(file, pos)[..end]
    ensures end < |Rest(file, pos)| && Rest(file, pos)[end] == '\n' ==> Chunk(file, pos) == Rest(file, pos)[..end + 1]
    ensures end == |Rest(file, pos)| ==> Chunk(file, pos) == Rest(file, pos) && !EndsLine(Rest(file, pos))
  {
    var rest := Rest(file, pos);
    if end == |rest| {
      assert rest[..end] == rest;
    } else if rest[end] == '\n' {
      NewlineIs(rest, end);
    }
  }

  /** Reading on from `at` yields what is missing from `lines` to have every line after `from`. */
  ghost predicate Progress(file: string, from: nat, at: nat, lines: seq<string>) {
    && lines + Lines(Rest(file, at)) == Lines(Rest(file, from))
    && at + Consumed(Rest(file, at)) == from + Consumed(Rest(file, from))
  }

  lemma ProgressStarts(file: string, from: nat)
    ensures Progress(file, from, from, [])
  {
    assert [] + Lines(Rest(file, from)) == Lines(Rest(file, from));
  }

  lemma ChunkShape(file: string, pos: nat)
    requires EndsLine(Chunk(file, pos))
    ensures var rest, chunk, at := Rest(file, pos), Chunk(file, pos), NewlineAt(Rest(file, pos));
      && at.Some? && |chunk| == at.value + 1 && chunk[..|chunk| - 1] == rest[..at.value]
      && Rest(file, pos + |chunk|) == rest[at.value + 1..]
  {
    hide NewlineAt;
    var rest := Rest(file, pos);
    assert rest != "" ==> rest[|rest| - 1] in rest;
  }

  // The chunk just read is the first of the lines still to come.
  lemma NextLine(file: string, pos: nat)
    requires EndsLine(Chunk(file, pos))
    ensures var chunk := Chunk(file, pos);
      && Lines(Rest(file, pos)) == [chunk[..|chunk| - 1]] + Lines(Rest(file, pos + |chunk|))
      && Consumed(Rest(file, pos)) == |chunk| + Consumed(Rest(file, pos + |chunk|))
      && |Rest(file, pos + |chunk|)| < |Rest(file, pos)|
  {
    hide *;
    ChunkShape(file, pos);
    Unroll(Rest(file, pos));
  }

  lemma ProgressStep(file: string, from: nat, at: nat, lines: seq<string>)
    requires Progress(file, from, at, lines) && EndsLine(Chunk(file, at))
    ensures var chunk := Chunk(file, at);
      && Progress(file, from, at + |chunk|, lines + [chunk[..|chunk| - 1]])
      && |Rest(file, at + |chunk|)| < |Rest(file, at)|
  {
    hide Lines, Consumed, NewlineAt, Rest, Chunk;
    var chunk := Chunk(file, at);
    NextLine(file, at);
    Regroup(lines, [chunk[..|chunk| - 1]], Lines(Rest(file, at + |chunk|)));
  }

  lemma ProgressEnds(file: string, from: nat, at: nat, lines: seq<string>)
    requires Progress(file, from, at, lines) && !EndsLine(Chunk(file, at))
    ensures lines == Lines(Rest(file, from)) && at == from + Consumed(Rest(file, from))
    ensures Chunk(file, at) == Rest(file, at)
  {
    assert NewlineAt(Rest(file, at)) == None;
    assert lines + [] == lines;
  }

  /** Bytes appended while reading change nothing for what was read before. */
  lemma ProgressGrows(file: string, from: nat, at: nat, lines: seq<string>, bytes: string)
    requires Progress(file, from, at, lines) && from <= |file|
    ensures Progress(file + bytes, from, at, lines)
  {
    hide Lines, Consumed, NewlineAt;
    var early, late := Rest(file, from), Rest(file, at);
    LinesResume(early, bytes);
    LinesResume(late, bytes);
    assert at <= |file|;
    DropTwice(file, from, Consumed(early));
    DropTwice(file, at, Consumed(late));
    assert early[Consumed(early)..] == late[Consumed(late)..];
    assert Rest(file + bytes, from) == early + bytes && Rest(file + bytes, at) == late + bytes;
    Regroup(lines, Lines(late), Lines(late[Consumed(late)..] + bytes));
  }

  lemma ConcatStep(file: string, parts: seq<string>, n: nat)
    requires n < |parts|
    ensures file + Concat(parts[..n + 1]) == (file + Concat(parts[..n])) + parts[n]
  {
    assert parts[..n + 1][..n] == parts[..n];
  }

  lemma NothingAppended(file: string, parts: seq<string>)
    ensures file + Concat(parts[..0]) == file
  {
  }

  class Tailer {
    var offset: nat
    var leftover: string

    constructor ()
      ensures offset == 0 && leftover == ""
    {
      offset, leftover := 0, "";
    }

    /** Seeds the offset; the caller passes one it saved earlier. */
    method SetOffset(off: nat)
      modifies this
      ensures offset == off && leftover == ""
      ensures forall w: World :: w.savedOffset == off ==> Next(w, Restart).offset == offset
    {
      offset, leftover := off, "";
    }

    /** Another file from its start. */
    method Repoint()
      modifies this
      ensures offset == 0 && leftover == ""
      ensures forall w: World, other: string :: Repointed(w, other).offset == offset
    {
      offset, leftover := 0, "";
    }

    /** Hands over every complete line past the offset and stops at the unfinished rest, as if what was appended
        until the last read had been there before the first. After read n the file grows by growth[n]. */
    method Poll(file: string, growth: seq<string>) returns (handled: seq<string>, taken: nat)
      modifies this
      ensures taken <= |growth|
      ensures var seen := file + Concat(growth[..taken]);
        && handled == Lines(Rest(seen, old(offset)))
        && offset == old(offset) + Consumed(Rest(seen, old(offset)))
        && leftover == Rest(seen, offset)
        && IsPoll(seen, old(offset), offset, handled)
    {
      hide Lines, Consumed, NewlineAt, Rest, Chunk, Progress, IsPoll, Concat;
      handled, taken := [], 0;
      var seen := file;
      NothingAppended(file, growth);
      ProgressStarts(file, offset);
      PastTheEnd(file, offset);
      while true
        invariant taken <= |growth| && seen == file + Concat(growth[..taken])
        invariant Progress(seen, old(offset), offset, handled)
        invariant old(offset) <= |seen| || Chunk(seen, offset) == ""
        decreases |growth| - taken, |Rest(seen, offset)|
      {
        var chunk, eof := ReadBytes(seen, offset);
        offset := offset + |chunk|;
        if chunk != "" && chunk[|chunk| - 1] != '\n' {
          leftover := chunk;
          offset := offset - |chunk|;
          PollEnds(seen, old(offset), offset, handled);
          break;
        }
        leftover := "";
        if chunk != "" {
          ProgressStep(seen, old(offset), offset - |chunk|, handled);
          handled := handled + [chunk[..|chunk| - 1]];
        }
        if eof {
          PollEnds(seen, old(offset), offset, handled);
          break;
        }
        if taken < |growth| {
          ProgressGrows(seen, old(offset), offset, handled, growth[taken]);
          ConcatStep(file, growth, taken);
          seen := seen + growth[taken];
          taken := taken + 1;
        }
      }
    }
  }

  /** Reading that far and handing over those lines is the poll step of any run that gets there. */
  ghost predicate IsPoll(file: string, from: nat, to: nat, handled: seq<string>) {
    forall w: World :: w.file == file && w.offset == from ==>
      Next(w, Event.Poll) == w.(offset := to, next := w.next + |handled|,
                                pending := w.pending + Envelopes(w.next, handled))
  }

  lemma PollEnds(file: string, from: nat, at: nat, lines: seq<string>)
    requires Progress(file, from, at, lines) && !EndsLine(Chunk(file, at))
    ensures lines == Lines(Rest(file, from)) && at == from + Consumed(Rest(file, from))
      && Chunk(file, at) == Rest(file, at)
    ensures IsPoll(file, from, at, lines)
  {
    hide Lines, Consumed, Rest, Chunk, Envelopes, Progress;
    ProgressEnds(file, from, at, lines);
  }

  lemma PastTheEnd(file: string, pos: nat)
    ensures pos <= |file| || Chunk(file, pos) == ""
  {
  }

  // ------------------------------------------------- appends, polls and restarts

  /** One line on its way to HQ, under its sequence number. */
  datatype Envelope = Envelope(number: nat, line: string)

  /** A transcript; its tailer's offset and the number to give out next; both as last saved; the durable buffer
      of envelopes not acknowledged yet; and what HQ holds under each number. */
  datatype World = World(
    file: string, offset: nat, next: nat, savedOffset: nat, savedNext: nat,
    pending: seq<Envelope>, hq: map<nat, string>)

  /** Deliver sends that many of the oldest pending envelopes; the acknowledgement may get lost. */
  datatype Event = Append(bytes: string) | Poll | Deliver(n: nat, acked: bool) | Save | Restart

  /** HQ keeps what it has under a number and ignores what is sent under it again. */
  function Keep(hq: map<nat, string>, e: Envelope): map<nat, string> {
    if e.number in hq then hq else hq[e.number := e.line]
  }

  function Store(hq: map<nat, string>, envelopes: seq<Envelope>): map<nat, string> {
    if envelopes == [] then hq
    else Keep(Store(hq, envelopes[..|envelopes| - 1]), envelopes[|envelopes| - 1])
  }

  /** Each line under the next number. */
  function Envelopes(from: nat, lines: seq<string>): (envelopes: seq<Envelope>)
    ensures |envelopes| == |lines|
  {
    seq(|lines|, i requires 0 <= i < |lines| => Envelope(from + i, lines[i]))
  }

  /** One more than the largest number still pending, 0 if nothing is. */
  function Floor(pending: seq<Envelope>): nat {
    if pending == [] then 0
    else
      var rest, above := Floor(pending[..|pending| - 1]), pending[|pending| - 1].number + 1;
      if rest < above then above else rest
  }

  /** A crash keeps the file, the buffer and what was saved; numbers go on above everything pending. */
  function Next(w: World, e: Event): World {
    match e
    case Append(bytes) => w.(file := w.file + bytes)
    case Poll =>
      var rest := Rest(w.file, w.offset);
      w.(offset := w.offset + Consumed(rest), next := w.next + |Lines(rest)|,
         pending := w.pending + Envelopes(w.next, Lines(rest)))
    case Deliver(n, acked) =>
      var k := if n < |w.pending| then n else |w.pending|;
      w.(hq := Store(w.hq, w.pending[..k]), pending := if acked then w.pending[k..] else w.pending)
    case Save => w.(savedOffset := w.offset, savedNext := w.next)
    case Restart =>
      var floor := Floor(w.pending);
      w.(offset := w.savedOffset, next := if floor < w.savedNext then w.savedNext else floor)
  }

  /** The tailer watches another file from its start; sequence numbers go on. */
  function Repointed(w: World, other: string): World { w.(file := other, offset := 0) }

  function Play(w: World, events: seq<Event>): World {
    if events == [] then w else Next(Play(w, events[..|events| - 1]), events[|events| - 1])
  }

  function Fresh(file: string): World { World(file, 0, 0, 0, 0, [], map[]) }

  /** What HQ holds once the buffer is empty. */
  function Held(w: World): map<nat, string> { Store(w.hq, w.pending) }

  /** Everything is held once, in order, under the numbers 0, 1, 2, ... */
  function Numbered(lines: seq<string>): map<nat, string> { map n: nat | n < |lines| :: lines[n] }

  /** How many complete lines lie before an offset. */
  function LinesBefore(file: string, offset: nat): nat {
    if offset <= |file| then |Lines(file[..offset])| else 0
  }

  ghost predicate LineBoundary(file: string, offset: nat) {
    offset <= |file| && Consumed(file[..offset]) == offset
  }

  // ---------------------------------------------------------------- the storing

  lemma {:induction false} StoreAppend(hq: map<nat, string>, a: seq<Envelope>, b: seq<Envelope>)
    ensures Store(hq, a + b) == Store(Store(hq, a), b)
  {
    if b == [] {
      assert a + b == a;
    } else {
      assert (a + b)[..|a + b| - 1] == a + b[..|b| - 1];
      StoreAppend(hq, a, b[..|b| - 1]);
    }
  }

  /** Nothing held is given up, and everything stored is held. */
  lemma {:induction false} StoreKeeps(hq: map<nat, string>, envelopes: seq<Envelope>)
    ensures var after := Store(hq, envelopes);
      && (forall n :: n in hq ==> n in after && after[n] == hq[n])
      && (forall e :: e in envelopes ==> e.number in after)
  {
    if envelopes != [] {
      StoreKeeps(hq, envelopes[..|envelopes| - 1]);
    }
  }

  /** Sending again what was delivered already adds nothing. */
  lemma {:induction false} StoreKnown(hq: map<nat, string>, envelopes: seq<Envelope>)
    requires forall e :: e in envelopes ==> e.number in hq
    ensures Store(hq, envelopes) == hq
  {
    if envelopes != [] {
      assert forall e :: e in envelopes[..|envelopes| - 1] ==> e in envelopes;
      StoreKnown(hq, envelopes[..|envelopes| - 1]);
      assert envelopes[|envelopes| - 1] in envelopes;
    }
  }

  /** Delivering moves nothing in or out of what is held in the end, acknowledged or not. */
  lemma DeliverKeepsHeld(w: World, n: nat, acked: bool)
    ensures Held(Next(w, Deliver(n, acked))) == Held(w)
  {
    hide Store;
    var k := if n < |w.pending| then n else |w.pending|;
    var sent, left := w.pending[..k], w.pending[k..];
    assert w.pending == sent + left;
    StoreAppend(w.hq, sent, left);
    if !acked {
      StoreAppend(Store(w.hq, sent), sent, left);
      StoreKeeps(w.hq, sent);
      StoreKnown(Store(w.hq, sent), sent);
    }
  }

  /** Lines sent under numbers from inside or right behind what is held: only the new numbers add a line. */
  lemma {:induction false} StoreLines(held: seq<string>, from: nat, lines: seq<string>)
    requires from <= |held|
    ensures Store(Numbered(held), Envelopes(from, lines))
         == Numbered(held + if from + |lines| <= |held| then [] else lines[|held| - from..])
  {
    hide Numbered;
    if lines == [] {
      assert held + [] == held;
    } else {
      var init, last := lines[..|lines| - 1], lines[|lines| - 1];
      var envelopes := Envelopes(from, lines);
      StoreLines(held, from, init);
      assert envelopes[..|envelopes| - 1] == Envelopes(from, init);
      var before := held + if from + |init| <= |held| then [] else init[|held| - from..];
      assert held + [] == held;
      NumberedNext(before, last);
      if from + |lines| > |held| {
        assert lines[|held| - from..] == init[|held| - from..] + [last];
        assert before + [last] == held + lines[|held| - from..];
      }
    }
  }

  lemma NumberedNext(lines: seq<string>, line: string)
    ensures forall n: nat :: n in Numbered(lines) <==> n < |lines|
    ensures Numbered(lines)[|lines| := line] == Numbered(lines + [line])
  {
  }

  // ------------------------------------------------------- line boundaries

  lemma {:induction false} PrefixLines(file: string, offset: nat)
    requires LineBoundary(file, offset)
    ensures Lines(file) == Lines(file[..offset]) + Lines(file[offset..])
    ensures Consumed(file) == offset + Consumed(file[offset..])
  {
    assert file == file[..offset] + file[offset..];
    assert file[..offset][offset..] == "";
    assert "" + file[offset..] == file[offset..];
    LinesResume(file[..offset], file[offset..]);
  }

  lemma AppendKeepsBoundary(file: string, bytes: string, offset: nat)
    requires LineBoundary(file, offset)
    ensures LineBoundary(file + bytes, offset) && LinesBefore(file + bytes, offset) == LinesBefore(file, offset)
  {
    assert (file + bytes)[..offset] == file[..offset];
  }

  lemma {:induction false} AppendKeepsLines(file: string, bytes: string)
    ensures Lines(file) <= Lines(file + bytes)
  {
    LinesResume(file, bytes);
  }

  /** What a poll reads are the lines from its boundary on, and it stops at a boundary behind them all. */
  lemma {:induction false} PollBoundary(file: string, offset: nat)
    requires LineBoundary(file, offset)
    ensures var n, end := LinesBefore(file, offset), offset + Consumed(Rest(file, offset));
      && n <= |Lines(file)| && Lines(Rest(file, offset)) == Lines(file)[n..]
      && LineBoundary(file, end) && LinesBefore(file, end) == |Lines(file)|
  {
    hide Lines, Consumed;
    PrefixLines(file, offset);
    FrontIsLines(file);
    assert (Lines(file[..offset]) + Lines(file[offset..]))[|Lines(file[..offset])|..] == Lines(file[offset..]);
  }

  // ----------------------------------------------------- while all is in order

  /** The number after the last one HQ or the buffer holds. */
  function Top(w: World): nat { if w.next < |w.hq| then |w.hq| else w.next }

  /** HQ and the buffer hold the first lines, each once under its own number, the buffer the last of them. */
  ghost predicate Buffered(w: World, lines: seq<string>) {
    && w.next <= |lines| && |w.hq| <= |lines| && w.hq == Numbered(lines[..|w.hq|])
    && |w.pending| <= w.next && w.next - |w.pending| <= |w.hq|
    && (w.pending != [] ==> |w.hq| <= w.next)
    && w.pending == Envelopes(w.next - |w.pending|, lines[w.next - |w.pending|..w.next])
    && w.savedNext <= Top(w)
  }

  /** Besides, both offsets are line boundaries, and no number is behind the lines before its offset. */
  ghost predicate InOrder(w: World) {
    && LineBoundary(w.file, w.offset) && LineBoundary(w.file, w.savedOffset)
    && LinesBefore(w.file, w.offset) <= w.next && LinesBefore(w.file, w.savedOffset) <= w.savedNext
    && Buffered(w, Lines(w.file))
  }

  /** The next number counts the lines before the offset. */
  predicate InStep(w: World) { LinesBefore(w.file, w.offset) == w.next }

  lemma {:induction false} NumberedSize(lines: seq<string>)
    ensures |Numbered(lines)| == |lines|
  {
    if lines == [] {
      assert Numbered(lines) == map[];
    } else {
      hide Numbered;
      var init, last := lines[..|lines| - 1], lines[|lines| - 1];
      NumberedSize(init);
      NumberedNext(init, last);
      assert lines == init + [last];
    }
  }

  lemma SameNumbered(a: seq<string>, b: seq<string>)
    ensures Numbered(a) == Numbered(b) <==> a == b
  {
    if Numbered(a) == Numbered(b) {
      NumberedSize(a);
      NumberedSize(b);
      forall n | 0 <= n < |a| ensures a[n] == b[n] {
        assert Numbered(a)[n] == Numbered(b)[n];
      }
    }
  }

  /** What ends up held: the lines up to the top. */
  lemma HeldInOrder(w: World, lines: seq<string>)
    requires Buffered(w, lines)
    ensures Top(w) <= |lines| && Held(w) == Numbered(lines[..Top(w)])
  {
    hide Numbered, Store, Envelopes;
    var from, sent := w.next - |w.pending|, lines[w.next - |w.pending|..w.next];
    StoreLines(lines[..|w.hq|], from, sent);
    StretchTo(lines, |w.hq|, from, w.next);
  }

  // Lines from inside the first m, up to n, bring them to the larger of m and n.
  lemma StretchTo(lines: seq<string>, m: nat, from: nat, n: nat)
    requires from <= m <= |lines| && from <= n <= |lines|
    ensures lines[..m] + (if n <= m then [] else lines[from..n][m - from..]) == lines[..if n <= m then m else n]
  {
  }

  lemma {:induction false} AppendKeepsOrder(w: World, bytes: string)
    requires InOrder(w)
    ensures InOrder(Next(w, Append(bytes)))
  {
    hide Lines, Consumed, LinesBefore, LineBoundary, Numbered, Envelopes;
    AppendKeepsBoundary(w.file, bytes, w.offset);
    AppendKeepsBoundary(w.file, bytes, w.savedOffset);
    AppendKeepsLines(w.file, bytes);
    var lines, more := Lines(w.file), Lines(w.file + bytes);
    assert lines[..|w.hq|] == more[..|w.hq|];
    assert lines[w.next - |w.pending|..w.next] == more[w.next - |w.pending|..w.next];
  }

  lemma {:induction false} PollKeepsOrder(w: World)
    requires InOrder(w) && InStep(w)
    ensures InOrder(Next(w, Event.Poll)) && InStep(Next(w, Event.Poll))
    ensures Held(Next(w, Event.Poll)) == Numbered(Lines(w.file))
  {
    hide Lines, Consumed, LinesBefore, LineBoundary, Numbered, Envelopes, Held;
    var lines, after := Lines(w.file), Next(w, Event.Poll);
    var from := w.next - |w.pending|;
    PollBoundary(w.file, w.offset);
    EnvelopesJoin(from, lines[from..w.next], lines[w.next..]);
    assert lines[from..w.next] + lines[w.next..] == lines[from..];
    assert lines[from..] == lines[from..|lines|];
    HeldInOrder(after, lines);
    assert lines[..|lines|] == lines;
  }

  lemma EnvelopesJoin(from: nat, a: seq<string>, b: seq<string>)
    ensures Envelopes(from, a) + Envelopes(from + |a|, b) == Envelopes(from, a + b)
  {
  }

  lemma {:induction false} DeliverKeepsOrder(w: World, n: nat, acked: bool)
    requires InOrder(w)
    ensures InOrder(Next(w, Deliver(n, acked)))
  {
    hide Lines, Consumed, LinesBefore, LineBoundary, Numbered, Envelopes, Store;
    DeliverKeepsBuffered(w, n, acked, Lines(w.file));
  }

  lemma DeliverKeepsBuffered(w: World, n: nat, acked: bool, lines: seq<string>)
    requires Buffered(w, lines)
    ensures Buffered(Next(w, Deliver(n, acked)), lines)
  {
    hide Numbered, Envelopes, Store;
    var k := if n < |w.pending| then n else |w.pending|;
    DeliverStores(w, k, lines);
    DeliverLeaves(w, k, lines);
  }

  /** HQ holds the lines up to the last one it had or was sent. */
  lemma DeliverStores(w: World, k: nat, lines: seq<string>)
    requires Buffered(w, lines) && k <= |w.pending|
    ensures var sent := w.next - |w.pending| + k;
      var hq := Store(w.hq, w.pending[..k]);
      |hq| == (if sent <= |w.hq| then |w.hq| else sent) && hq == Numbered(lines[..|hq|])
  {
    hide Numbered, Envelopes, Store;
    var from := w.next - |w.pending|;
    CutEnvelopes(from, lines[from..w.next], k);
    SliceOfSlice(lines, from, w.next, k);
    StoreLines(lines[..|w.hq|], from, lines[from..from + k]);
    StretchTo(lines, |w.hq|, from, from + k);
    NumberedSize(lines[..if from + k <= |w.hq| then |w.hq| else from + k]);
  }

  lemma DeliverLeaves(w: World, k: nat, lines: seq<string>)
    requires Buffered(w, lines) && k <= |w.pending|
    ensures var sent := w.next - |w.pending| + k; w.pending[k..] == Envelopes(sent, lines[sent..w.next])
  {
    hide Numbered, Envelopes;
    var from := w.next - |w.pending|;
    CutEnvelopes(from, lines[from..w.next], k);
    SliceOfSlice(lines, from, w.next, k);
  }

  lemma SliceOfSlice(lines: seq<string>, from: nat, to: nat, k: nat)
    requires from + k <= to <= |lines|
    ensures lines[from..to][..k] == lines[from..from + k] && lines[from..to][k..] == lines[from + k..to]
  {
  }

  lemma CutEnvelopes(from: nat, lines: seq<string>, k: nat)
    requires k <= |lines|
    ensures Envelopes(from, lines)[..k] == Envelopes(from, lines[..k])
    ensures Envelopes(from, lines)[k..] == Envelopes(from + k, lines[k..])
  {
  }

  lemma {:induction false} FloorOfEnvelopes(from: nat, lines: seq<string>)
    ensures Floor(Envelopes(from, lines)) == if lines == [] then 0 else from + |lines|
  {
    if lines != [] {
      FloorOfEnvelopes(from, lines[..|lines| - 1]);
      CutEnvelopes(from, lines, |lines| - 1);
    }
  }

  lemma {:induction false} RestartKeepsOrder(w: World)
    requires InOrder(w)
    ensures InOrder(Next(w, Restart))
  {
    hide Lines, Consumed, LinesBefore, LineBoundary, Numbered, Envelopes;
    var lines := Lines(w.file);
    FloorOfEnvelopes(w.next - |w.pending|, lines[w.next - |w.pending|..w.next]);
    NoEnvelopes(Next(w, Restart).next, lines);
  }

  lemma NoEnvelopes(n: nat, lines: seq<string>)
    ensures n <= |lines| ==> Envelopes(n, lines[n..n]) == []
  {
  }

  /** Only a poll out of step can disturb the order. */
  lemma {:induction false} StepKeepsOrder(w: World, e: Event)
    requires InOrder(w) && (e.Poll? ==> InStep(w))
    ensures InOrder(Next(w, e))
  {
    match e {
      case Append(bytes) => AppendKeepsOrder(w, bytes);
      case Poll => PollKeepsOrder(w);
      case Deliver(n, acked) => DeliverKeepsOrder(w, n, acked);
      case Save => SaveKeepsOrder(w);
      case Restart => RestartKeepsOrder(w);
    }
  }

  lemma SaveKeepsOrder(w: World)
    requires InOrder(w)
    ensures InOrder(Next(w, Save))
  {
    hide Lines, Consumed, LinesBefore, LineBoundary, Numbered, Envelopes;
  }

  // ------------------------------------------------------- once out of order

  /** A line is held under a number that is not its own. */
  ghost predicate Displaced(w: World) {
    exists n: nat, p: nat :: Misplaced(Held(w), Lines(w.file), n, p)
  }

  ghost predicate Misplaced(held: map<nat, string>, lines: seq<string>, n: nat, p: nat) {
    n in held && p < |lines| && n != p && held[n] == lines[p]
  }

  /** What is held after any poll: the lines up to the top, and behind them those from some line on. */
  lemma PollHolds(w: World, lines: seq<string>, c: nat)
    requires Buffered(w, lines) && c <= w.next && Lines(Rest(w.file, w.offset)) == lines[c..]
    ensures Held(Next(w, Event.Poll)) == Numbered(lines[..Top(w)] + lines[c + (Top(w) - w.next)..])
  {
    hide Next, Rest, Lines, Consumed, Buffered, Numbered, Envelopes, Store, Held, Top;
    TopBounds(w, lines);
    HeldInOrder(w, lines);
    HeldAfterPoll(w);
    StoreLines(lines[..Top(w)], w.next, lines[c..]);
    SentAgain(lines, c, w.next, Top(w));
  }

  lemma HeldAfterPoll(w: World)
    ensures Held(Next(w, Event.Poll)) == Store(Held(w), Envelopes(w.next, Lines(Rest(w.file, w.offset))))
  {
    hide Lines, Consumed, Rest, Envelopes, Store;
    StoreAppend(w.hq, w.pending, Envelopes(w.next, Lines(Rest(w.file, w.offset))));
  }

  lemma TopBounds(w: World, lines: seq<string>)
    requires Buffered(w, lines)
    ensures w.next <= Top(w) <= |lines|
  {
  }

  /** A poll out of step sends lines again under the numbers of later ones: HQ ends up with the lines up to the top
      and, behind them, lines from before it. */
  lemma {:induction false} PollOutOfStep(w: World)
    requires InOrder(w)
    ensures var lines, again := Lines(w.file), LinesBefore(w.file, w.offset) + (Top(w) - w.next);
      && again <= Top(w) <= |lines|
      && Held(Next(w, Event.Poll)) == Numbered(lines[..Top(w)] + lines[again..])
      && (Held(Next(w, Event.Poll)) == Numbered(lines) <==> InStep(w))
      && (!InStep(w) ==> Displaced(Next(w, Event.Poll)))
  {
    hide Lines, Consumed, LinesBefore, LineBoundary, Buffered, Numbered, Held, Top;
    var lines, c, top := Lines(w.file), LinesBefore(w.file, w.offset), Top(w);
    PollBoundary(w.file, w.offset);
    TopBounds(w, lines);
    PollHolds(w, lines, c);
    SentAgain(lines, c, w.next, top);
    var held := lines[..top] + lines[c + (top - w.next)..];
    SameNumbered(held, lines);
    if !InStep(w) {
      NumberedAt(held, top);
      assert Misplaced(Held(Next(w, Event.Poll)), lines, top, c + (top - w.next));
    }
  }

  // Lines from c on, numbered from next, behind the first lines up to top.
  lemma SentAgain(lines: seq<string>, c: nat, next: nat, top: nat)
    requires c <= next <= top <= |lines|
    ensures var again := c + (top - next);
      var held := lines[..top] + lines[again..];
      && held == lines[..top] + (if next + |lines[c..]| <= top then [] else lines[c..][top - next..])
      && (held == lines <==> c == next)
      && (c != next ==> top < |held| && held[top] == lines[again])
  {
    var again := c + (top - next);
    assert lines[c..][top - next..] == lines[again..];
    if c == next {
      assert lines[..top] + lines[top..] == lines;
    } else {
      assert |lines[..top] + lines[again..]| > |lines|;
    }
  }

  lemma NumberedAt(lines: seq<string>, n: nat)
    requires n < |lines|
    ensures n in Numbered(lines) && Numbered(lines)[n] == lines[n]
  {
  }

  lemma {:induction false} StepKeepsDisplaced(w: World, e: Event)
    requires Displaced(w)
    ensures Displaced(Next(w, e))
  {
    hide Lines, Consumed, Envelopes, Store;
    var n: nat, p: nat :| Misplaced(Held(w), Lines(w.file), n, p);
    var after := Next(w, e);
    match e {
      case Append(bytes) => AppendKeepsLines(w.file, bytes);
      case Poll =>
        HeldAfterPoll(w);
        StoreKeeps(Held(w), Envelopes(w.next, Lines(Rest(w.file, w.offset))));
      case Deliver(k, acked) => DeliverKeepsHeld(w, k, acked);
      case Save =>
      case Restart =>
    }
    assert Misplaced(Held(after), Lines(after.file), n, p);
  }

  // ------------------------------------------------------------------- whole runs

  /** Every poll of the run happens in step. */
  ghost predicate AllInStep(w: World, events: seq<Event>) {
    forall k :: 0 <= k < |events| && events[k].Poll? ==> InStep(Play(w, events[..k]))
  }

  lemma FreshInOrder(file: string)
    ensures InOrder(Fresh(file)) && InStep(Fresh(file))
  {
    assert file[..0] == "";
    assert Lines(file)[..0] == [] && Numbered([]) == map[];
  }

  lemma OneMoreInStep(w: World, init: seq<Event>, last: Event)
    ensures Play(w, init + [last]) == Next(Play(w, init), last)
    ensures AllInStep(w, init + [last]) <==> AllInStep(w, init) && (last.Poll? ==> InStep(Play(w, init)))
  {
    hide Play, InStep;
    var events := init + [last];
    assert forall k :: 0 <= k <= |init| ==> events[..k] == init[..k];
    assert init[..|init|] == init;
    PlaySnoc(w, init, last);
    if AllInStep(w, events) {
      assert last == events[|init|];
      forall k | 0 <= k < |init| && init[k].Poll? ensures InStep(Play(w, init[..k])) {
        assert events[k].Poll?;
      }
    }
  }

  lemma {:induction false} RunTracks(file: string, events: seq<Event>)
    ensures AllInStep(Fresh(file), events) ==> InOrder(Play(Fresh(file), events))
    ensures !AllInStep(Fresh(file), events) ==> Displaced(Play(Fresh(file), events))
  {
    hide InOrder, Displaced, InStep, Next;
    var w := Fresh(file);
    if events == [] {
      FreshInOrder(file);
    } else {
      var init, last := events[..|events| - 1], events[|events| - 1];
      assert events == init + [last];
      RunTracks(file, init);
      OneMoreInStep(w, init, last);
      var before := Play(w, init);
      if !AllInStep(w, init) {
        StepKeepsDisplaced(before, last);
      } else if last.Poll? && !InStep(before) {
        PollOutOfStep(before);
      } else {
        StepKeepsOrder(before, last);
      }
    }
  }

  /** HQ, with the buffer emptied, holds the first lines of the file, each once under its own number. */
  ghost predicate HoldsOnce(w: World) {
    exists m: nat :: m <= |Lines(w.file)| && Held(w) == Numbered(Lines(w.file)[..m])
  }

  lemma {:induction false} InOrderHoldsOnce(w: World)
    requires InOrder(w)
    ensures HoldsOnce(w)
  {
    hide Lines, LinesBefore, LineBoundary, Held, Numbered, Envelopes;
    HeldInOrder(w, Lines(w.file));
  }

  lemma {:induction false} DisplacedHoldsOnce(w: World)
    requires Displaced(w) && Distinct(Lines(w.file))
    ensures !HoldsOnce(w)
  {
    hide Lines, Held;
    var n: nat, p: nat :| Misplaced(Held(w), Lines(w.file), n, p);
    forall m: nat | m <= |Lines(w.file)| ensures Held(w) != Numbered(Lines(w.file)[..m]) {
      assert n < m ==> Lines(w.file)[..m][n] == Lines(w.file)[n];
    }
  }

  /** In every run of appends, polls, deliveries with or without acknowledgement, saves and crashes, each line is
      held once under its own number if every poll happens in step; and, when no line repeats, only if. */
  lemma {:induction false} HeldOnceIffInStep(file: string, events: seq<Event>)
    ensures var w := Play(Fresh(file), events);
      && (AllInStep(Fresh(file), events) ==> HoldsOnce(w))
      && (Distinct(Lines(w.file)) ==> (HoldsOnce(w) <==> AllInStep(Fresh(file), events)))
  {
    hide Play, AllInStep, HoldsOnce, InOrder, Displaced, Lines;
    RunTracks(file, events);
    var w := Play(Fresh(file), events);
    if AllInStep(Fresh(file), events) {
      InOrderHoldsOnce(w);
    } else if Distinct(Lines(w.file)) {
      DisplacedHoldsOnce(w);
    }
  }

  /** After a last poll in step nothing complete is missing. */
  lemma {:induction false} PollCatchesUp(file: string, events: seq<Event>)
    requires AllInStep(Fresh(file), events + [Event.Poll])
    ensures var w := Play(Fresh(file), events + [Event.Poll]); Held(w) == Numbered(Lines(w.file))
  {
    hide InOrder, Held, Numbered, Lines;
    OneMoreInStep(Fresh(file), events, Event.Poll);
    RunTracks(file, events);
    PollKeepsOrder(Play(Fresh(file), events));
  }

  // -------------------------------------------------------------------- crashes

  /** No envelope numbered after the save is still unacknowledged. */
  predicate Clean(w: World) { Floor(w.pending) <= w.savedNext }

  ghost predicate AllClean(w: World, events: seq<Event>) {
    forall k :: 0 <= k < |events| && events[k].Restart? ==> Clean(Play(w, events[..k]))
  }

  /** The offset saved and the number saved belong together. */
  predicate SavedInStep(w: World) { LinesBefore(w.file, w.savedOffset) == w.savedNext }

  /** A crash leaves the tailer in step exactly when no envelope sent after the save is unacknowledged. */
  lemma RestartInStepIff(w: World)
    requires SavedInStep(w)
    ensures InStep(Next(w, Restart)) <==> Clean(w)
  {
  }

  lemma {:induction false} StepStaysInStep(w: World, e: Event)
    requires InOrder(w) && InStep(w) && SavedInStep(w) && (e.Restart? ==> Clean(w))
    ensures InStep(Next(w, e)) && SavedInStep(Next(w, e))
  {
    hide Lines, Consumed, LinesBefore, LineBoundary, Buffered, Store, Envelopes;
    match e {
      case Append(bytes) =>
        AppendKeepsBoundary(w.file, bytes, w.offset);
        AppendKeepsBoundary(w.file, bytes, w.savedOffset);
      case Poll => PollKeepsOrder(w);
      case Deliver(_, _) =>
      case Save =>
      case Restart => RestartInStepIff(w);
    }
  }

  lemma {:induction false} CleanRuns(file: string, events: seq<Event>)
    requires AllClean(Fresh(file), events)
    ensures var w := Play(Fresh(file), events);
      AllInStep(Fresh(file), events) && InOrder(w) && InStep(w) && SavedInStep(w)
  {
    hide InOrder, InStep, SavedInStep, Next, Clean;
    var w := Fresh(file);
    FreshInOrder(file);
    if events == [] {
      assert SavedInStep(w) by { FreshSaved(file); }
    } else {
      var init, last := events[..|events| - 1], events[|events| - 1];
      assert events == init + [last];
      assert forall k :: 0 <= k <= |init| ==> events[..k] == init[..k];
      CleanRuns(file, init);
      OneMoreInStep(w, init, last);
      StepStaysInStep(Play(w, init), last);
      StepKeepsOrder(Play(w, init), last);
    }
  }

  lemma FreshSaved(file: string)
    ensures SavedInStep(Fresh(file))
  {
    assert file[..0] == "";
  }

  /** While every crash finds the envelopes sent since the save acknowledged, restarting drops and repeats nothing:
      each line is held once, and after a last poll all complete lines are. */
  lemma {:induction false} CleanRestartsLoseNothing(file: string, events: seq<Event>)
    requires AllClean(Fresh(file), events)
    ensures HoldsOnce(Play(Fresh(file), events))
    ensures var w := Play(Fresh(file), events + [Event.Poll]); Held(w) == Numbered(Lines(w.file))
  {
    hide InOrder, InStep, Held, Numbered, Lines, HoldsOnce;
    CleanRuns(file, events);
    InOrderHoldsOnce(Play(Fresh(file), events));
    OneMoreInStep(Fresh(file), events, Event.Poll);
    PollKeepsOrder(Play(Fresh(file), events));
  }

  /** Otherwise the lines sent since the save go out a second time. */
  lemma {:induction false} DirtyRestartRepeats(file: string, events: seq<Event>)
    requires AllClean(Fresh(file), events) && !Clean(Play(Fresh(file), events))
    ensures var w := Play(Fresh(file), events);
      var lines := Lines(w.file);
      && w.savedNext < w.next <= |lines|
      && Held(Next(Next(w, Restart), Event.Poll)) == Numbered(lines[..w.next] + lines[w.savedNext..])
  {
    hide Lines, Consumed, LineBoundary, LinesBefore, Numbered, Envelopes, Store;
    var w := Play(Fresh(file), events);
    CleanRuns(file, events);
    RestartKeepsOrder(w);
    PollOutOfStep(Next(w, Restart));
    FloorOfEnvelopes(w.next - |w.pending|, Lines(w.file)[w.next - |w.pending|..w.next]);
  }

  /** Two crashes before the next save can lose a line: its number was given to a line sent twice. */
  lemma {:induction false} SecondCrashLosesLine(a: string, b: string)
    requires '\n' !in a && '\n' !in b
    ensures var events :=
      [Event.Poll, Restart, Event.Poll, Deliver(2, true), Restart, Append(b + "\n"), Event.Poll, Deliver(2, true)];
      var w := Play(Fresh(a + "\n"), events);
      Lines(w.file) == [a, b] && w.pending == [] && w.hq == map[0 := a, 1 := a]
  {
    hide Next, Lines, Play, Fresh;
    var none: seq<Event> := [];
    PollsTwice(a);
    SendsBoth(a, b);
    PollsBoth(a, b);
    TwoLines(a, b);
    PlayFour(Fresh(a + "\n"), none, Event.Poll, Restart, Event.Poll, Deliver(2, true));
    var four := none + [Event.Poll, Restart, Event.Poll, Deliver(2, true)];
    PlayFour(Fresh(a + "\n"), four, Restart, Append(b + "\n"), Event.Poll, Deliver(2, true));
    assert four + [Restart, Append(b + "\n"), Event.Poll, Deliver(2, true)]
      == [Event.Poll, Restart, Event.Poll, Deliver(2, true), Restart, Append(b + "\n"), Event.Poll, Deliver(2, true)];
  }

  lemma PlayFour(w: World, events: seq<Event>, a: Event, b: Event, c: Event, d: Event)
    ensures Play(w, events + [a, b, c, d]) == Next(Next(Next(Next(Play(w, events), a), b), c), d)
    ensures Play(w, []) == w
  {
    hide Next;
    PlaySnoc(w, events, a);
    PlaySnoc(w, events + [a], b);
    PlaySnoc(w, events + [a] + [b], c);
    PlaySnoc(w, events + [a] + [b] + [c], d);
    assert events + [a, b, c, d] == events + [a] + [b] + [c] + [d];
  }

  lemma PlaySnoc(w: World, events: seq<Event>, e: Event)
    ensures Play(w, events + [e]) == Next(Play(w, events), e)
  {
    hide Next;
    assert (events + [e])[..|events|] == events;
  }

  lemma OneLine(line: string)
    requires '\n' !in line
    ensures Lines(line + "\n") == [line] && Consumed(line + "\n") == |line| + 1
  {
    var s := line + "\n";
    assert s[..|line|] == line && s[|line| + 1..] == "";
    NewlineIs(s, |line|);
  }

  lemma TwoLines(a: string, b: string)
    requires '\n' !in a && '\n' !in b
    ensures var s := a + "\n" + (b + "\n"); Lines(s) == [a, b] && Consumed(s) == |a| + |b| + 2
  {
    var s := a + "\n" + (b + "\n");
    assert s[..|a|] == a && s[|a| + 1..] == b + "\n";
    NewlineIs(s, |a|);
    OneLine(b);
  }

  /** After a first poll, and after a crash before any save or delivery and another poll. */
  function PolledOnce(a: string): World { World(a + "\n", |a| + 1, 1, 0, 0, [Envelope(0, a)], map[]) }

  function PolledTwice(a: string): World { PolledOnce(a).(next := 2, pending := [Envelope(0, a), Envelope(1, a)]) }

  lemma PollsTwice(a: string)
    requires '\n' !in a
    ensures Next(Fresh(a + "\n"), Event.Poll) == PolledOnce(a)
    ensures Next(Next(PolledOnce(a), Restart), Event.Poll) == PolledTwice(a)
  {
    hide Lines, Consumed;
    OneLine(a);
    var file, one := a + "\n", [Envelope(0, a)];
    assert Rest(file, 0) == file;
    assert Envelopes(0, [a]) == one && [] + one == one;
    assert Envelopes(1, [a]) == [Envelope(1, a)] && one + [Envelope(1, a)] == PolledTwice(a).pending;
    assert one[..0] == [] && Floor(one) == 1;
  }

  /** Both copies delivered, another crash, and a line appended. */
  function SentBoth(a: string): World {
    World(a + "\n", |a| + 1, 2, 0, 0, [], map[0 := a, 1 := a])
  }

  function Grown(a: string, b: string): World { SentBoth(a).(file := a + "\n" + (b + "\n"), offset := 0, next := 0) }

  lemma SendsBoth(a: string, b: string)
    ensures Next(PolledTwice(a), Deliver(2, true)) == SentBoth(a)
    ensures Next(Next(SentBoth(a), Restart), Append(b + "\n")) == Grown(a, b)
  {
    var pending := PolledTwice(a).pending;
    assert pending[..2] == pending && pending[2..] == [] && pending[..1] == [Envelope(0, a)] && pending[..1][..0] == [];
    assert Store(map[], pending[..1]) == map[0 := a];
  }

  lemma PollsBoth(a: string, b: string)
    requires '\n' !in a && '\n' !in b
    ensures Next(Next(Grown(a, b), Event.Poll), Deliver(2, true))
         == Grown(a, b).(offset := |a| + |b| + 2, next := 2)
  {
    hide Lines, Consumed, Store;
    TwoLines(a, b);
    var file, held := Grown(a, b).file, Grown(a, b).hq;
    assert Rest(file, 0) == file;
    var pending := [Envelope(0, a), Envelope(1, b)];
    assert [] + Envelopes(0, [a, b]) == pending;
    assert pending[..2] == pending && pending[2..] == [];
    StoreKnown(held, pending);
  }

  // ------------------------------------------------------------------ repointing

  /** The next file goes out under the numbers that follow. HQ, whose lines so far are held, gets all of it behind
      them exactly when no crash has put the number back; and then a line is held more often than before and more
      often than the new file has it exactly when both hold it. */
  lemma {:induction false} RepointSendsAgain(w: World, other: string, held: seq<string>, line: string)
    requires Held(w) == Numbered(held) && w.next <= |held|
    ensures var after, lines := Held(Next(Repointed(w, other), Event.Poll)), Lines(other);
      && after == Numbered(held + if w.next + |lines| <= |held| then [] else lines[|held| - w.next..])
      && (after == Numbered(held + lines) <==> w.next == |held| || lines == [])
      && (multiset(held + lines)[line] > multiset(held)[line] && multiset(held + lines)[line] > multiset(lines)[line]
          <==> line in held && line in lines)
  {
    hide Lines, Consumed, Numbered, Store, Next, Held, Envelopes;
    var lines := Lines(other);
    RepointedSame(w, other);
    HeldAfterPoll(Repointed(w, other));
    StoreLines(held, w.next, lines);
    var rest := if w.next + |lines| <= |held| then [] else lines[|held| - w.next..];
    SameNumbered(held + rest, held + lines);
    assert w.next != |held| && lines != [] ==> |held + rest| < |held + lines|;
    assert w.next == |held| ==> held + rest == held + lines;
  }

  lemma RepointedSame(w: World, other: string)
    ensures Held(Repointed(w, other)) == Held(w) && Rest(other, 0) == other
  {
    hide Store;
  }

  /** Two files that begin alike: the line both hold is held twice. */
  lemma {:induction false} RepointHoldsTwice(a: string, b: string)
    requires '\n' !in a && '\n' !in b
    ensures var w := Next(Fresh(a + "\n"), Event.Poll);
      Held(Next(Repointed(w, a + "\n" + (b + "\n")), Event.Poll)) == Numbered([a, a, b])
  {
    hide Store, Next, Numbered, Lines;
    PollsTwice(a);
    TwoLines(a, b);
    HeldOne(PolledOnce(a), a);
    RepointSendsAgain(PolledOnce(a), a + "\n" + (b + "\n"), [a], a);
    assert [a] + [a, b] == [a, a, b];
  }

  lemma HeldOne(w: World, line: string)
    requires w.pending == [Envelope(0, line)] && w.hq == map[]
    ensures Held(w) == Numbered([line])
  {
    var none: seq<Envelope> := [];
    assert w.pending[..0] == none;
    assert Store(w.hq, none) == w.hq;
    assert Numbered([line]) == map[0 := line];
  }

  // ------------------------------------------------------------------ the harvest

  /** What one transcript row contributes to a turn. */
  datatype Effect = Title(text: string) | Prompt(text: string) | Reply(text: string) | Touch(path: string)

  datatype Harvest = Harvest(files: seq<string>, prompt: string, reply: string, title: string, endOffset: nat)

  function Fold(h: Harvest, effects: seq<Effect>): Harvest {
    if effects == [] then h
    else
      Apply(Fold(h, effects[..|effects| - 1]), effects[|effects| - 1])
  }

  function Apply(before: Harvest, e: Effect): Harvest {
    match e
    case Title(text) => if text == "" then before else before.(title := text)
    case Prompt(text) => if text == "" then before else before.(prompt := text)
    case Reply(text) => if text == "" then before else before.(reply := text)
    case Touch(path) => if path == "" || path in before.files then before else before.(files := before.files + [path])
  }

  /** The effects of the non-blank lines, in order. */
  function EffectsOf(lines: seq<string>, rowEffects: string -> seq<Effect>): seq<Effect> {
    if lines == [] then []
    else
      var line := TrimSpace(lines[|lines| - 1]);
      EffectsOf(lines[..|lines| - 1], rowEffects) + if line == "" then [] else rowEffects(line)
  }

  method HarvestLine(line: string, rowEffects: string -> seq<Effect>, h0: Harvest) returns (h: Harvest)
    ensures h == Fold(h0, rowEffects(line)) && h.endOffset == h0.endOffset
  {
    h := h0;
    var effects := rowEffects(line);
    for i := 0 to |effects|
      invariant h == Fold(h0, effects[..i]) && h.endOffset == h0.endOffset
    {
      assert effects[..i + 1][..i] == effects[..i];
      match effects[i] {
        case Title(text) =>
          if text != "" {
            h := h.(title := text);
          }
        case Prompt(text) =>
          if text != "" {
            h := h.(prompt := text);
          }
        case Reply(text) =>
          if text != "" {
            h := h.(reply := text);
          }
        case Touch(path) =>
          if path != "" && path !in h.files {
            h := h.(files := h.files + [path]);
          }
      }
    }
    assert effects[..|effects|] == effects;
  }

  lemma {:induction false} FoldAppend(h: Harvest, a: seq<Effect>, b: seq<Effect>)
    ensures Fold(h, a + b) == Fold(Fold(h, a), b)
  {
    if b == [] {
      assert a + b == a;
    } else {
      assert (a + b)[..|a + b| - 1] == a + b[..|b| - 1];
      FoldAppend(h, a, b[..|b| - 1]);
    }
  }

  lemma {:induction false} FoldEnd(h: Harvest, effects: seq<Effect>, n: nat)
    ensures Fold(h.(endOffset := n), effects) == Fold(h, effects).(endOffset := n)
  {
    if effects != [] {
      FoldEnd(h, effects[..|effects| - 1], n);
    }
  }

  const NOTHING := Harvest([], "", "", "", 0)

  function Harvested(lines: seq<string>, rowEffects: string -> seq<Effect>, end: nat): Harvest {
    Fold(NOTHING, EffectsOf(lines, rowEffects)).(endOffset := end)
  }

  /** Re-reads the complete lines from an offset and stops at the byte a poll from there stops at. */
  method HarvestTurn(file: string, from: nat, rowEffects: string -> seq<Effect>) returns (h: Harvest)
    ensures h == Harvested(Lines(Rest(file, from)), rowEffects, from + Consumed(Rest(file, from)))
  {
    hide Lines, Consumed, NewlineAt, Rest, Chunk, Progress, HasHarvested, Harvested, Fold, EffectsOf, TrimSpace;
    h := NOTHING.(endOffset := from);
    ghost var lines: seq<string> := [];
    HarvestStarts(file, from, rowEffects);
    while true
      invariant Progress(file, from, h.endOffset, lines)
      invariant HasHarvested(h, lines, rowEffects)
      decreases |Rest(file, h.endOffset)|
    {
      var chunk, eof := ReadBytes(file, h.endOffset);
      if chunk != "" && chunk[|chunk| - 1] != '\n' {
        HarvestEnds(file, from, h, lines, rowEffects);
        break;
      }
      ghost var before := h;
      h := h.(endOffset := h.endOffset + |chunk|);
      var line := TrimSpace(chunk);
      if line != "" {
        h := HarvestLine(line, rowEffects, h);
      }
      if eof {
        HarvestEnds(file, from, h, lines, rowEffects);
        break;
      }
      ProgressStep(file, from, before.endOffset, lines);
      OneMoreLine(before, lines, chunk, rowEffects);
      lines := lines + [chunk[..|chunk| - 1]];
    }
  }

  ghost predicate HasHarvested(h: Harvest, lines: seq<string>, rowEffects: string -> seq<Effect>) {
    h == Harvested(lines, rowEffects, h.endOffset)
  }

  lemma HarvestStarts(file: string, from: nat, rowEffects: string -> seq<Effect>)
    ensures Progress(file, from, from, []) && HasHarvested(NOTHING.(endOffset := from), [], rowEffects)
    ensures TrimSpace("") == ""
  {
    ProgressStarts(file, from);
  }

  lemma HarvestEnds(file: string, from: nat, h: Harvest, lines: seq<string>, rowEffects: string -> seq<Effect>)
    requires Progress(file, from, h.endOffset, lines) && !EndsLine(Chunk(file, h.endOffset))
    requires HasHarvested(h, lines, rowEffects)
    ensures h == Harvested(Lines(Rest(file, from)), rowEffects, from + Consumed(Rest(file, from)))
  {
    hide Lines, Consumed, NewlineAt, Fold, EffectsOf;
    ProgressEnds(file, from, h.endOffset, lines);
  }

  lemma OneMoreLine(h: Harvest, lines: seq<string>, chunk: string, rowEffects: string -> seq<Effect>)
    requires HasHarvested(h, lines, rowEffects) && EndsLine(chunk)
    ensures var text, moved := TrimSpace(chunk), h.(endOffset := h.endOffset + |chunk|);
      HasHarvested(if text == "" then moved else Fold(moved, rowEffects(text)),
                   lines + [chunk[..|chunk| - 1]], rowEffects)
  {
    var text, moved := TrimSpace(chunk), h.(endOffset := h.endOffset + |chunk|);
    TrimLine(chunk);
    HarvestOneMore(lines, chunk[..|chunk| - 1], rowEffects, moved.endOffset);
    FoldEnd(moved, rowEffects(text), moved.endOffset);
  }

  lemma TrimLine(chunk: string)
    requires chunk != "" && chunk[|chunk| - 1] == '\n'
    ensures TrimSpace(chunk) == TrimSpace(chunk[..|chunk| - 1])
  {
    TrimSnoc(chunk[..|chunk| - 1]);
    assert chunk == chunk[..|chunk| - 1] + "\n";
  }

  lemma {:induction false} TrimSnoc(s: string)
    ensures TrimSpace(s + "\n") == TrimSpace(s)
  {
    if s == "" {
      assert s + "\n" == "\n";
      assert "\n"[1..] == "";
    } else if Space(s[0]) {
      assert (s + "\n")[1..] == s[1..] + "\n";
      TrimSnoc(s[1..]);
    } else {
      assert (s + "\n")[..|s|] == s;
    }
  }

  lemma {:induction false} HarvestOneMore(lines: seq<string>, line: string, rowEffects: string -> seq<Effect>, end: nat)
    ensures var text := TrimSpace(line);
      var before := Harvested(lines, rowEffects, end);
      Harvested(lines + [line], rowEffects, end) == if text == "" then before else Fold(before, rowEffects(text))
  {
    assert (lines + [line])[..|lines|] == lines;
    var text, effects := TrimSpace(line), EffectsOf(lines, rowEffects);
    if text != "" {
      FoldAppend(NOTHING, effects, rowEffects(text));
      FoldEnd(Fold(NOTHING, effects), rowEffects(text), end);
    } else {
      assert effects + [] == effects;
    }
  }

  /** The first touch of p comes before any touch of q. */
  ghost predicate TouchedFirst(effects: seq<Effect>, p: string, q: string) {
    exists k :: 0 <= k < |effects| && effects[k] == Touch(p) && Touch(q) !in effects[..k]
  }

  lemma TouchedFirstGrows(effects: seq<Effect>, e: Effect, p: string, q: string)
    ensures TouchedFirst(effects, p, q) ==> TouchedFirst(effects + [e], p, q)
    ensures Touch(p) in effects && Touch(q) !in effects ==> TouchedFirst(effects, p, q)
  {
    var longer := effects + [e];
    if Touch(p) in effects && Touch(q) !in effects {
      var k :| 0 <= k < |effects| && effects[k] == Touch(p);
      assert Touch(q) !in effects[..k];
    }
    if TouchedFirst(effects, p, q) {
      var k :| 0 <= k < |effects| && effects[k] == Touch(p) && Touch(q) !in effects[..k];
      assert longer[..k] == effects[..k] && longer[k] == Touch(p);
    }
  }

  lemma {:induction false} FilesAreTheTouched(effects: seq<Effect>)
    ensures var files := Fold(NOTHING, effects).files;
      Distinct(files) && forall p :: p in files <==> p != "" && Touch(p) in effects
  {
    if effects != [] {
      var init := effects[..|effects| - 1];
      FilesAreTheTouched(init);
      assert forall e :: e in effects <==> e == effects[|effects| - 1] || e in init;
    }
  }

  /** The touched files: each path once, in the order first touched. */
  lemma {:induction false} FilesAreFirstTouches(effects: seq<Effect>)
    ensures var files := Fold(NOTHING, effects).files;
      && Distinct(files)
      && (forall p :: p in files <==> p != "" && Touch(p) in effects)
      && (forall i, j :: 0 <= i < j < |files| ==> TouchedFirst(effects, files[i], files[j]))
  {
    FilesAreTheTouched(effects);
    if effects != [] {
      hide Apply, TouchedFirst;
      var init, last := effects[..|effects| - 1], effects[|effects| - 1];
      FilesAreFirstTouches(init);
      FilesAreTheTouched(init);
      assert effects == init + [last];
      FilesGrow(Fold(NOTHING, init), last);
      var before, files := Fold(NOTHING, init).files, Fold(NOTHING, effects).files;
      forall i, j | 0 <= i < j < |files| ensures TouchedFirst(effects, files[i], files[j]) {
        TouchedFirstGrows(init, last, files[i], files[j]);
        assert files[i] == before[i] && files[i] in before;
        if j == |before| {
          assert files[j] !in before;
        }
      }
    }
  }

  /** One effect adds at most one file, at the end, and none that is there. */
  lemma FilesGrow(before: Harvest, e: Effect)
    ensures var files := Apply(before, e).files;
      files == before.files || (|files| == |before.files| + 1 && files[..|before.files|] == before.files
                                && files[|before.files|] !in before.files && files[|before.files|] != ""
                                && e == Touch(files[|before.files|]))
  {
  }

  datatype Said = ATitle | APrompt | AReply

  /** The text an effect carries for one of the three running texts; "" when it is about something else. */
  function TextFor(e: Effect, what: Said): string {
    match (e, what)
    case (Title(text), ATitle) => text
    case (Prompt(text), APrompt) => text
    case (Reply(text), AReply) => text
    case _ => ""
  }

  function Kept(h: Harvest, what: Said): string {
    match what
    case ATitle => h.title
    case APrompt => h.prompt
    case AReply => h.reply
  }

  /** Position k says text, and nothing after it says anything but blanks. */
  ghost predicate SaidLast(effects: seq<Effect>, what: Said, k: nat, text: string) {
    && k < |effects| && TextFor(effects[k], what) == text
    && forall j :: k < j < |effects| ==> TextFor(effects[j], what) == ""
  }

  ghost predicate Silent(effects: seq<Effect>, what: Said) {
    forall k :: 0 <= k < |effects| ==> TextFor(effects[k], what) == ""
  }

  /** The latest text that is not blank wins, whatever blank ones follow it. */
  lemma {:induction false} LatestWins(effects: seq<Effect>, what: Said) returns (k: nat)
    ensures var kept := Kept(Fold(NOTHING, effects), what);
      && (kept == "" <==> Silent(effects, what))
      && (kept != "" ==> SaidLast(effects, what, k, kept))
  {
    k := 0;
    if effects != [] {
      hide TextFor, Kept, Apply, Silent, SaidLast;
      var init, last := effects[..|effects| - 1], effects[|effects| - 1];
      k := LatestWins(init, what);
      assert effects == init + [last];
      AppliedText(Fold(NOTHING, init), last, what);
      OneMoreSaid(init, last, what, k, Kept(Fold(NOTHING, init), what));
      if TextFor(last, what) != "" {
        k := |init|;
      }
    }
  }

  lemma OneMoreSaid(init: seq<Effect>, last: Effect, what: Said, k: nat, text: string)
    ensures var effects, said := init + [last], TextFor(last, what);
      && (Silent(effects, what) <==> Silent(init, what) && said == "")
      && SaidLast(effects, what, |init|, said)
      && (SaidLast(init, what, k, text) && said == "" ==> SaidLast(effects, what, k, text))
  {
    hide TextFor;
    var effects := init + [last];
    assert effects[|init|] == last && forall j :: 0 <= j < |init| ==> effects[j] == init[j];
  }

  lemma AppliedText(before: Harvest, e: Effect, what: Said)
    ensures var said := TextFor(e, what);
      Kept(Apply(before, e), what) == if said == "" then Kept(before, what) else said
  {
  }
}
