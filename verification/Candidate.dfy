/**
 * The candidate-learnings block in a SKILL.md: rendering it, setting it, and
 * stripping it again before hashing.
 */
module Candidate {
  import opened Collections
  import opened MarkerTexts
  import opened Text

  /** The fixed texts of the block. */
  datatype Markers = Markers(begin: string, end: string, heading: string, intro: string)

  const MARKERS := Markers(BEGIN, END, HEADING, INTRO)

  /** What the format relies on: one-line texts, and markers that cannot be mistaken for each other. */
  ghost predicate Usable(m: Markers) {
    && |m.begin| > 5 && |m.end| > 5 && m.begin[0] == m.end[0] == '<' && m.begin[5] != m.end[5]
    && OneLine(m.begin) && OneLine(m.end) && OneLine(m.heading) && OneLine(m.intro)
    && '<' !in m.begin[1..] && '<' !in m.heading && '<' !in m.intro
  }

  predicate OneLine(s: string) { '\n' !in s && '\r' !in s }

  lemma TaglessLine(text: string)
    requires Tagless(text)
    ensures OneLine(text) && '<' !in text && ("<" + text)[1..] == text && OneLine("<" + text)
  {
  }

  /** The texts of the format as shipped are usable. */
  lemma MarkersUsable()
    ensures Usable(MARKERS)
  {
    hide OneLine, Tagless;
    TextsTagless();
    TaglessLine(BEGIN_0 + BEGIN_1);
    TaglessLine(END_0);
    TaglessLine(HEADING);
    TaglessLine(INTRO);
  }

  function Strip(m: Markers, body: string): string {
    var norm := NormalizeNewlines(body);
    var start := IndexOf(norm, m.begin);
    if start == None then body
    else
      var end := IndexOf(norm, m.end);
      var head := TrimRightNewlines(norm[..start.value]);
      if end == None then head + "\n"
      else
        var rest := TrimLeftNewlines(norm[end.value + |m.end|..]);
        if rest != "" then head + "\n" + rest
        else if head == "" then ""
        else head + "\n"
  }

  /** Each newline, CRLF or LF, becomes one space. */
  function Collapse(s: string): string {
    if s == [] then []
    else if |s| >= 2 && s[0] == '\r' && s[1] == '\n' then [' '] + Collapse(s[2..])
    else [if s[0] == '\n' then ' ' else s[0]] + Collapse(s[1..])
  }

  function Bullet(learning: string): string { Collapse(TrimSpace(learning)) }

  function Bullets(learnings: seq<string>): seq<string> {
    if learnings == [] then []
    else
      var last := learnings[|learnings| - 1];
      Bullets(learnings[..|learnings| - 1]) + if TrimSpace(last) == "" then [] else ["- " + Bullet(last)]
  }

  /** The lines above the end marker. */
  function UpperLines(m: Markers, learnings: seq<string>): seq<string> {
    [m.begin, m.heading, m.intro, ""] + Bullets(learnings)
  }

  function Block(m: Markers, learnings: seq<string>): string {
    if learnings == [] then "" else JoinWith(UpperLines(m, learnings), "\n") + "\n" + m.end
  }

  lemma JoinHeader(m: Markers)
    ensures JoinWith([m.begin, m.heading, m.intro, ""], "\n") == m.begin + "\n" + m.heading + "\n" + m.intro + "\n"
  {
    var lines := [m.begin, m.heading, m.intro, ""];
    assert lines[1..] == [m.heading, m.intro, ""] && lines[1..][1..] == [m.intro, ""] && lines[1..][1..][1..] == [""];
    assert JoinWith([m.intro, ""], "\n") == m.intro + "\n" + "";
    assert JoinWith([m.heading, m.intro, ""], "\n") == m.heading + "\n" + (m.intro + "\n");
  }

  method RenderBlock(m: Markers, learnings: seq<string>) returns (block: string)
    ensures block == Block(m, learnings)
  {
    if learnings == [] {
      return "";
    }
    block := m.begin + "\n" + m.heading + "\n" + m.intro + "\n\n";
    ghost var lines: seq<string> := [m.begin, m.heading, m.intro, ""];
    JoinHeader(m);
    for k := 0 to |learnings|
      invariant lines == UpperLines(m, learnings[..k]) && block == JoinWith(lines, "\n") + "\n"
    {
      var text := TrimSpace(learnings[k]);
      assert learnings[..k + 1][..k] == learnings[..k];
      if text != "" {
        block := block + "- " + Collapse(text) + "\n";
        ghost var bullet := "- " + Bullet(learnings[k]);
        assert (lines + [bullet])[..|lines|] == lines;
        JoinLast(lines + [bullet], "\n");
        lines := lines + [bullet];
      }
    }
    assert learnings[..|learnings|] == learnings;
    block := block + m.end;
  }

  /** Collapsing folds line ends and then turns every newline into a space. */
  lemma {:induction false} CollapseSpelled(s: string)
    ensures |Collapse(s)| == |NormalizeNewlines(s)|
    ensures forall i :: 0 <= i < |Collapse(s)| ==>
      Collapse(s)[i] == if NormalizeNewlines(s)[i] == '\n' then ' ' else NormalizeNewlines(s)[i]
    decreases |s|
  {
    if |s| >= 2 && s[0] == '\r' && s[1] == '\n' {
      CollapseSpelled(s[2..]);
      assert s[1..][1..] == s[2..];
      assert NormalizeNewlines(s) == NormalizeNewlines(s[1..]) == ['\n'] + NormalizeNewlines(s[2..]);
    } else if s != [] {
      CollapseSpelled(s[1..]);
    }
  }

  /** The block says: the opening marker, the heading, the intro and an empty line, one bullet per learning that
      is not blank, in order, and the closing marker. */
  lemma BlockSpelled(m: Markers, learnings: seq<string>) returns (picks: seq<nat>, lines: seq<string>)
    requires learnings != []
    ensures Picks(picks, learnings)
    ensures |lines| == |picks| && forall j :: 0 <= j < |picks| ==>
      picks[j] < |learnings| && lines[j] == "- " + Collapse(TrimSpace(learnings[picks[j]])) + "\n"
    ensures Block(m, learnings)
      == m.begin + "\n" + m.heading + "\n" + m.intro + "\n\n" + Concat(lines) + m.end
  {
    hide Bullets, JoinWith, Concat, Collapse, TrimSpace, Picks;
    picks := BulletsPicked(learnings);
    var bullets := Bullets(learnings);
    lines := seq(|bullets|, j requires 0 <= j < |bullets| => bullets[j] + "\n");
    var header := [m.begin, m.heading, m.intro, ""];
    JoinLines(header, bullets);
    assert UpperLines(m, learnings) == header + bullets;
    BlockFramed(m, Concat(lines));
  }

  lemma BlockFramed(m: Markers, lines: string)
    ensures JoinWith([m.begin, m.heading, m.intro, ""], "\n") + "\n" + lines + m.end
         == m.begin + "\n" + m.heading + "\n" + m.intro + "\n\n" + lines + m.end
  {
    hide JoinWith;
    JoinHeader(m);
    assert (m.begin + "\n" + m.heading + "\n" + m.intro + "\n") + "\n"
        == m.begin + "\n" + m.heading + "\n" + m.intro + "\n\n";
  }

  /** A joined listing with one more newline is its head and, line by line, the rest. */
  lemma {:induction false} JoinLines(head: seq<string>, bullets: seq<string>)
    requires head != []
    ensures JoinWith(head + bullets, "\n") + "\n"
      == JoinWith(head, "\n") + "\n" + Concat(seq(|bullets|, j requires 0 <= j < |bullets| => bullets[j] + "\n"))
  {
    var lines := seq(|bullets|, j requires 0 <= j < |bullets| => bullets[j] + "\n");
    if bullets == [] {
      assert head + bullets == head;
    } else {
      hide JoinWith;
      var init, last := bullets[..|bullets| - 1], bullets[|bullets| - 1];
      JoinLines(head, init);
      JoinLast(head + bullets, "\n");
      assert (head + bullets)[..|head + bullets| - 1] == head + init;
      assert lines[..|bullets| - 1] == seq(|init|, j requires 0 <= j < |init| => init[j] + "\n");
      assert Concat(lines) == Concat(lines[..|bullets| - 1]) + (last + "\n");
      hide Concat;
    }
  }

  /** The positions of the learnings that are not blank, in order. */
  ghost predicate Picks(picks: seq<nat>, learnings: seq<string>) {
    && (forall a, b :: 0 <= a < b < |picks| ==> picks[a] < picks[b])
    && (forall i :: i in picks ==> i < |learnings| && TrimSpace(learnings[i]) != "")
    && (forall i: nat :: i < |learnings| && TrimSpace(learnings[i]) != "" ==> i in picks)
  }

  lemma {:induction false} BulletsPicked(learnings: seq<string>) returns (picks: seq<nat>)
    ensures Picks(picks, learnings)
    ensures |Bullets(learnings)| == |picks| && forall j :: 0 <= j < |picks| ==>
      picks[j] < |learnings| && Bullets(learnings)[j] == "- " + Bullet(learnings[picks[j]])
  {
    picks := [];
    if learnings != [] {
      hide TrimSpace, Bullet, Picks, Bullets;
      var init, last := learnings[..|learnings| - 1], learnings[|learnings| - 1];
      picks := BulletsPicked(init);
      assert learnings == init + [last];
      PickNext(picks, init, last);
      BulletsNext(learnings);
      if TrimSpace(last) != "" {
        LastPicked(picks, init, last, Bullets(init));
        picks := picks + [|init|];
      } else {
        forall j | 0 <= j < |picks| ensures learnings[picks[j]] == init[picks[j]] {
        }
      }
    } else {
      assert Bullets(learnings) == [];
    }
  }

  lemma LastPicked(picks: seq<nat>, init: seq<string>, last: string, bullets: seq<string>)
    requires |bullets| == |picks| && forall j :: 0 <= j < |picks| ==>
      picks[j] < |init| && bullets[j] == "- " + Bullet(init[picks[j]])
    ensures var (all, more, learnings) := (picks + [|init|], bullets + ["- " + Bullet(last)], init + [last]);
      |more| == |all| && forall j :: 0 <= j < |all| ==>
        all[j] < |learnings| && more[j] == "- " + Bullet(learnings[all[j]])
  {
    hide Bullet;
    var (all, more, learnings) := (picks + [|init|], bullets + ["- " + Bullet(last)], init + [last]);
    forall j | 0 <= j < |all| ensures all[j] < |learnings| && more[j] == "- " + Bullet(learnings[all[j]]) {
      if j < |picks| {
        assert learnings[picks[j]] == init[picks[j]];
      }
    }
  }

  lemma BulletsNext(learnings: seq<string>)
    requires learnings != []
    ensures var init, last := learnings[..|learnings| - 1], learnings[|learnings| - 1];
      Bullets(learnings) == if TrimSpace(last) == "" then Bullets(init) else Bullets(init) + ["- " + Bullet(last)]
  {
    hide TrimSpace, Bullet;
  }

  lemma PickNext(picks: seq<nat>, init: seq<string>, last: string)
    requires Picks(picks, init)
    ensures Picks(if TrimSpace(last) == "" then picks else picks + [|init|], init + [last])
  {
    hide TrimSpace;
    forall a | 0 <= a < |picks| ensures picks[a] < |init| {
      assert picks[a] in picks;
    }
    var grown: seq<nat> := picks + [|init|];
    assert forall i: nat :: i in grown <==> i in picks || i == |init|;
    assert forall i: nat :: i < |init| ==> (init + [last])[i] == init[i];
  }

  /** h is s less the newlines at its end. */
  ghost predicate Chopped(h: string, s: string) {
    h <= s && (h == "" || h[|h| - 1] != '\n') && forall i :: |h| <= i < |s| ==> s[i] == '\n'
  }

  /** t is s less the newlines at its start. */
  ghost predicate Bared(t: string, s: string) {
    |t| <= |s| && t == s[|s| - |t|..] && (t == "" || t[0] != '\n') && forall i :: 0 <= i < |s| - |t| ==> s[i] == '\n'
  }

  /** What stripping takes out: from the first opening marker, with the newlines before it, to the first closing
      one, with the newlines after it, or to the end when there is none. A body without a block stays as it is. */
  lemma StripSpelled(m: Markers, body: string) returns (head: string, rest: string)
    ensures var norm := NormalizeNewlines(body);
      match (IndexOf(norm, m.begin), IndexOf(norm, m.end))
      case (None, _) => Strip(m, body) == body
      case (Some(i), None) => Chopped(head, norm[..i]) && Strip(m, body) == head + "\n"
      case (Some(i), Some(j)) =>
        && Chopped(head, norm[..i]) && Bared(rest, norm[j + |m.end|..])
        && Strip(m, body) == if head == "" && rest == "" then "" else head + "\n" + rest
  {
    hide IndexOf, NormalizeNewlines, TrimRightNewlines, TrimLeftNewlines;
    head, rest := "", "";
    var norm := NormalizeNewlines(body);
    if IndexOf(norm, m.begin).Some? {
      head := TrimRightNewlines(norm[..IndexOf(norm, m.begin).value]);
      TrimRightNewlinesShape(norm[..IndexOf(norm, m.begin).value]);
      if IndexOf(norm, m.end).Some? {
        var tail := norm[IndexOf(norm, m.end).value + |m.end|..];
        rest := TrimLeftNewlines(tail);
        TrimLeftNewlinesShape(tail);
        assert rest == "" ==> head + "\n" + rest == head + "\n";
      }
    }
  }

  function Apply(m: Markers, body: string, block: string): string {
    var stripped := Strip(m, body);
    if block == "" then stripped
    else
      var canonical := TrimRightNewlines(NormalizeNewlines(stripped));
      if canonical == "" then block + "\n" else canonical + "\n\n" + block + "\n"
  }

  /** No learnings, no block: injecting them only takes a stale block out. */
  lemma NothingToInject(m: Markers, body: string)
    ensures Apply(m, body, Block(m, [])) == Strip(m, body)
  {
    hide Strip;
  }

  // ------------------------------------------------------------- the markers

  lemma FreeWithoutFirst(s: string, pat: string)
    requires pat != [] && pat[0] !in s
    ensures Free(s, pat)
  {
    forall i: nat ensures !Occurs(s, pat, i) {
      OccursAt(s, pat, i, 0);
    }
  }

  lemma FreeAfter(c: char, s: string, pat: string)
    requires pat != [] && c != pat[0] && Free(s, pat)
    ensures Free([c] + s, pat)
  {
    var t := [c] + s;
    forall i: nat | Occurs(t, pat, i) ensures false {
      assert t[i..i + |pat|][0] == t[i];
      if i > 0 {
        assert t[i..i + |pat|] == s[i - 1..i - 1 + |pat|];
        assert Occurs(s, pat, i - 1);
      }
    }
  }

  lemma BeginFreeOfEnd(m: Markers)
    requires Usable(m)
    ensures Free(m.begin, m.end)
  {
    assert forall j :: 1 <= j < |m.begin| ==> m.begin[j] == m.begin[1..][j - 1];
    forall i: nat ensures !Occurs(m.begin, m.end, i) {
      OccursAt(m.begin, m.end, i, 0);
      OccursAt(m.begin, m.end, i, 5);
    }
  }

  /** Learnings whose one-line form keeps clear of the end marker and stray carriage returns. */
  ghost predicate Clean(m: Markers, learnings: seq<string>) {
    learnings != [] && forall l :: l in learnings ==> Free(Bullet(l), m.end) && '\r' !in Bullet(l)
  }

  lemma {:induction false} BulletsFree(m: Markers, learnings: seq<string>)
    requires Usable(m)
    requires forall l :: l in learnings ==> Free(Bullet(l), m.end) && '\r' !in Bullet(l)
    ensures forall line :: line in Bullets(learnings) ==> Free(line, m.end) && '\r' !in line
  {
    if learnings != [] {
      hide Bullet, TrimSpace, Free, Usable;
      var init, last := learnings[..|learnings| - 1], learnings[|learnings| - 1];
      assert forall l :: l in init ==> l in learnings;
      assert last in learnings;
      BulletsFree(m, init);
      LineFree(m, Bullet(last));
    }
  }

  lemma LineFree(m: Markers, bullet: string)
    requires Usable(m) && Free(bullet, m.end) && '\r' !in bullet
    ensures Free("- " + bullet, m.end) && '\r' !in "- " + bullet
  {
    hide Free;
    FreeAfter(' ', bullet, m.end);
    FreeAfter('-', " " + bullet, m.end);
    assert "- " + bullet == ['-'] + (" " + bullet);
  }

  lemma {:induction false} JoinFree(lines: seq<string>, pat: string)
    requires '\n' !in pat && pat != [] && lines != []
    requires forall line :: line in lines ==> Free(line, pat) && '\r' !in line
    ensures Free(JoinWith(lines, "\n"), pat) && '\r' !in JoinWith(lines, "\n")
  {
    if |lines| > 1 {
      var init := lines[..|lines| - 1];
      assert forall line :: line in init ==> line in lines;
      JoinFree(init, pat);
      JoinLast(lines, "\n");
      FreeLines(JoinWith(init, "\n"), lines[|lines| - 1], pat);
    }
  }

  lemma {:induction false} JoinStarts(lines: seq<string>)
    requires lines != []
    ensures lines[0] <= JoinWith(lines, "\n")
  {
    if |lines| > 1 {
      JoinStarts(lines[..|lines| - 1]);
      JoinLast(lines, "\n");
    }
  }

  /** The block opens with the begin marker and holds the end marker only at its very end. */
  lemma {:induction false} BlockShape(m: Markers, learnings: seq<string>)
    requires Usable(m)
    requires Clean(m, learnings)
    ensures var upper := JoinWith(UpperLines(m, learnings), "\n");
      && Block(m, learnings) == upper + "\n" + m.end
      && m.begin <= upper && Free(upper, m.end) && '\r' !in Block(m, learnings)
  {
    var lines := UpperLines(m, learnings);
    BeginFreeOfEnd(m);
    BulletsFree(m, learnings);
    FreeWithoutFirst(m.heading, m.end);
    FreeWithoutFirst(m.intro, m.end);
    FreeWithoutFirst("", m.end);
    JoinFree(lines, m.end);
    JoinStarts(lines);
  }

  // ------------------------------------------------------ setting and stripping

  /** Bodies that carry no marker and, once CRLF is folded, no carriage return. */
  ghost predicate Plain(m: Markers, body: string) {
    var norm := NormalizeNewlines(body);
    '\r' !in norm && Free(norm, m.begin) && Free(norm, m.end)
  }

  /** The body without its trailing newlines. */
  function Core(body: string): string { TrimRightNewlines(NormalizeNewlines(body)) }

  function Terminated(core: string): string { if core == "" then "" else core + "\n" }

  lemma FreePrefix(s: string, n: nat, pat: string)
    requires Free(s, pat) && n <= |s|
    ensures Free(s[..n], pat)
  {
    forall i: nat | Occurs(s[..n], pat, i) ensures false {
      assert s[..n][i..i + |pat|] == s[i..i + |pat|];
      assert Occurs(s, pat, i);
    }
  }

  lemma CoreFacts(m: Markers, body: string)
    requires Usable(m)
    requires Plain(m, body)
    ensures var core := Core(body);
      && Strip(m, body) == body && '\r' !in core && Free(core, m.begin) && Free(core, m.end)
      && (core == "" || core[|core| - 1] != '\n')
  {
    var norm := NormalizeNewlines(body);
    IndexNone(norm, m.begin);
    TrimRightNewlinesShape(norm);
    FreePrefix(norm, |Core(body)|, m.begin);
    FreePrefix(norm, |Core(body)|, m.end);
  }

  /** The text before the block: nothing, or the body and a blank line. */
  function Lead(core: string): string { if core == "" then "" else core + "\n\n" }

  lemma NoBeginInLead(m: Markers, core: string, tail: string, j: nat)
    requires Usable(m) && Free(core, m.begin) && j < |core| + 2
    ensures !Occurs(core + "\n" + ("\n" + tail), m.begin, j)
  {
    var s := core + "\n" + ("\n" + tail);
    assert s[|core| + 1] == '\n';
    OccursAt(s, m.begin, j, 0);
    if Occurs(s, m.begin, j) {
      NoMatchAcrossNewline(core, "\n" + tail, m.begin, j);
    }
  }

  lemma BeginComesFirst(m: Markers, core: string, tail: string)
    requires Usable(m)
    requires Free(core, m.begin) && m.begin <= tail
    ensures IndexOf(Lead(core) + tail, m.begin) == Some(|Lead(core)|)
  {
    var s, n := Lead(core) + tail, |Lead(core)|;
    assert s[n..n + |m.begin|] == tail[..|m.begin|] == m.begin;
    if core != "" {
      assert s == core + "\n" + ("\n" + tail) && s[n - 1] == '\n';
      forall j: nat | j < n ensures !Occurs(s, m.begin, j) {
        NoBeginInLead(m, core, tail, j);
      }
    }
    IndexIs(s, m.begin, n);
  }

  lemma EndComesLast(m: Markers, core: string, upper: string)
    requires Usable(m)
    requires Free(core, m.end) && Free(upper, m.end)
    ensures var above := Lead(core) + upper;
      IndexOf(above + "\n" + m.end + "\n", m.end) == Some(|above| + 1)
  {
    var above := Lead(core) + upper;
    var s := above + "\n" + m.end + "\n";
    if core != "" {
      FreeWithoutFirst("", m.end);
      FreeLines(core, "", m.end);
      FreeLines(core + "\n" + "", upper, m.end);
      assert above == core + "\n" + "" + "\n" + upper;
    } else {
      assert above == upper;
    }
    var n := |above| + 1;
    assert s[n..n + |m.end|] == m.end;
    forall j: nat | j < n ensures !Occurs(s, m.end, j) {
      if Occurs(s, m.end, j) {
        assert s == above + "\n" + (m.end + "\n");
        NoMatchAcrossNewline(above, m.end + "\n", m.end, j);
        assert false;
      }
    }
    IndexIs(s, m.end, n);
  }

  lemma {:induction false} TrimLead(core: string)
    requires core == "" || core[|core| - 1] != '\n'
    ensures TrimRightNewlines(Lead(core)) == core
  {
    if core != "" {
      var s := Lead(core);
      assert s[..|s| - 1] == core + "\n" && (core + "\n")[..|core|] == core;
      assert TrimRightNewlines(core) == core;
      assert TrimRightNewlines(core + "\n") == core;
    }
  }

  /** Stripping undoes setting, up to the body's trailing newlines. */
  lemma {:induction false} StripUndoesApply(m: Markers, body: string, learnings: seq<string>)
    requires Usable(m)
    requires Plain(m, body) && Clean(m, learnings)
    ensures Apply(m, body, Block(m, learnings)) == Lead(Core(body)) + Block(m, learnings) + "\n"
    ensures Strip(m, Apply(m, body, Block(m, learnings))) == Terminated(Core(body))
  {
    hide Usable, IndexOf, NormalizeNewlines, TrimRightNewlines, UpperLines, JoinWith, Strip, Plain, Clean;
    var core, block := Core(body), Block(m, learnings);
    var upper := JoinWith(UpperLines(m, learnings), "\n");
    CoreFacts(m, body);
    BlockShape(m, learnings);
    var s, above, lead := Lead(core) + block + "\n", Lead(core) + upper, Lead(core);
    Assemble(lead, upper, m.end);
    assert IndexOf(s, m.begin) == Some(|lead|) by {
      assert m.begin <= block + "\n";
      BeginComesFirst(m, core, block + "\n");
    }
    EndComesLast(m, core, upper);
    TrimLead(core);
    StripShape(m, s, lead, above);
  }

  lemma Assemble(lead: string, upper: string, end: string)
    ensures lead + (upper + "\n" + end) + "\n" == (lead + upper) + "\n" + end + "\n"
    ensures lead + (upper + "\n" + end) + "\n" == lead + ((upper + "\n" + end) + "\n")
  {
  }

  lemma StripShape(m: Markers, s: string, lead: string, above: string)
    requires '\r' !in s && s == above + "\n" + m.end + "\n" && lead <= s
    requires IndexOf(s, m.begin) == Some(|lead|) && IndexOf(s, m.end) == Some(|above| + 1)
    ensures Strip(m, s) == Terminated(TrimRightNewlines(lead))
  {
    hide IndexOf, NormalizeNewlines, TrimRightNewlines;
    NormalizeIdentity(s);
    assert s[..|lead|] == lead;
    assert s[|above| + 1 + |m.end|..] == "\n";
    assert TrimLeftNewlines("\n") == "";
  }

  lemma TerminatedCore(m: Markers, body: string)
    requires Usable(m)
    requires Plain(m, body)
    ensures Core(Terminated(Core(body))) == Core(body)
    ensures NormalizeNewlines(Terminated(Core(body))) == Terminated(Core(body))
  {
    CoreFacts(m, body);
    var core := Core(body);
    NormalizeIdentity(Terminated(core));
    if core != "" {
      assert (core + "\n")[..|core|] == core;
      assert TrimRightNewlines(core) == core;
    }
  }

  // -------------------------------------------------- when the block can be taken out again

  /** Every learning that is written keeps clear of the end marker. */
  ghost predicate KeepsClear(m: Markers, learnings: seq<string>) {
    forall l :: l in learnings && TrimSpace(l) != "" ==> Free(Bullet(l), m.end)
  }

  /** No written learning holds a carriage return once CRLF is collapsed. */
  ghost predicate NoReturns(learnings: seq<string>) {
    forall l :: l in learnings && TrimSpace(l) != "" ==> '\r' !in Bullet(l)
  }

  lemma BlankBullet(m: Markers, l: string)
    requires Usable(m)
    ensures TrimSpace(l) == "" ==> Bullet(l) == "" && Free(Bullet(l), m.end)
  {
    FreeWithoutFirst("", m.end);
  }

  lemma CleanIs(m: Markers, learnings: seq<string>)
    requires Usable(m)
    ensures Clean(m, learnings) <==> learnings != [] && KeepsClear(m, learnings) && NoReturns(learnings)
  {
    hide Usable, Free, Bullet, TrimSpace;
    forall l ensures TrimSpace(l) == "" ==> Bullet(l) == "" && Free(Bullet(l), m.end) {
      BlankBullet(m, l);
    }
  }

  lemma {:induction false} BulletIn(learnings: seq<string>, l: string)
    requires l in learnings && TrimSpace(l) != ""
    ensures "- " + Bullet(l) in Bullets(learnings)
  {
    hide Bullet, TrimSpace;
    var init, last := learnings[..|learnings| - 1], learnings[|learnings| - 1];
    if l in init {
      BulletIn(init, l);
    }
  }

  lemma {:induction false} LineInJoin(lines: seq<string>, k: nat, pat: string, i: nat)
    requires k < |lines| && pat != [] && Occurs(lines[k], pat, i)
    ensures !Free(JoinWith(lines, "\n"), pat)
  {
    if |lines| > 1 {
      var init, last := lines[..|lines| - 1], lines[|lines| - 1];
      var all := JoinWith(init, "\n") + "\n" + last;
      JoinLast(lines, "\n");
      if k == |lines| - 1 {
        OccursAfter(JoinWith(init, "\n") + "\n", last, pat, i);
        assert Occurs(all, pat, |JoinWith(init, "\n")| + 1 + i);
      } else {
        LineInJoin(init, k, pat, i);
        var j: nat :| Occurs(JoinWith(init, "\n"), pat, j);
        assert all[j..j + |pat|] == JoinWith(init, "\n")[j..j + |pat|];
        assert Occurs(all, pat, j);
      }
    }
  }

  /** A marker inside a written learning ends the block early. */
  lemma {:induction false} MarkerInUpper(m: Markers, learnings: seq<string>)
    requires Usable(m) && !KeepsClear(m, learnings)
    ensures !Free(JoinWith(UpperLines(m, learnings), "\n"), m.end)
  {
    hide JoinWith, Usable, Bullet, TrimSpace, Bullets;
    var l :| l in learnings && TrimSpace(l) != "" && !Free(Bullet(l), m.end);
    var i: nat :| Occurs(Bullet(l), m.end, i);
    var line, lines := "- " + Bullet(l), UpperLines(m, learnings);
    BulletIn(learnings, l);
    assert line in lines;
    OccursAfter("- ", Bullet(l), m.end, i);
    var k :| 0 <= k < |lines| && lines[k] == line;
    MarkerNotEmpty(m);
    LineInJoin(lines, k, m.end, i + 2);
  }

  lemma MarkerNotEmpty(m: Markers)
    requires Usable(m)
    ensures m.end != [] && '\n' !in m.end && '\r' !in m.end && m.end[0] == '<'
  {
  }

  lemma {:induction false} BulletsWithoutReturns(learnings: seq<string>)
    requires NoReturns(learnings)
    ensures forall line :: line in Bullets(learnings) ==> '\r' !in line
  {
    hide Bullet, TrimSpace;
    if learnings != [] {
      assert forall l :: l in learnings[..|learnings| - 1] ==> l in learnings;
      BulletsWithoutReturns(learnings[..|learnings| - 1]);
    }
  }

  lemma BlockWithoutReturns(m: Markers, learnings: seq<string>)
    requires Usable(m) && learnings != [] && NoReturns(learnings)
    ensures var upper := JoinWith(UpperLines(m, learnings), "\n");
      Block(m, learnings) == upper + "\n" + m.end && '\r' !in Block(m, learnings) && m.begin <= upper
  {
    hide JoinWith, Bullet, TrimSpace, Bullets, NoReturns;
    BulletsWithoutReturns(learnings);
    JoinWithout(UpperLines(m, learnings), "\n", '\r');
    JoinStarts(UpperLines(m, learnings));
  }

  /** What stripping leaves when a learning spelled the end marker: the body, and the rest of the block. */
  lemma {:induction false} Residue(m: Markers, body: string, learnings: seq<string>) returns (rest: string)
    requires Usable(m) && Plain(m, body)
    requires learnings != [] && NoReturns(learnings) && !KeepsClear(m, learnings)
    ensures Strip(m, Apply(m, body, Block(m, learnings))) == Core(body) + "\n" + rest
    ensures '\r' !in rest && TrimRightNewlines(rest) != ""
  {
    hide Usable, IndexOf, NormalizeNewlines, TrimRightNewlines, UpperLines, JoinWith, Strip, Plain, NoReturns,
      KeepsClear;
    var core, block, upper := Core(body), Block(m, learnings), JoinWith(UpperLines(m, learnings), "\n");
    var lead := Lead(core);
    CoreFacts(m, body);
    BlockWithoutReturns(m, learnings);
    MarkerInUpper(m, learnings);
    MarkerNotEmpty(m);
    Assemble(lead, upper, m.end);
    var s := lead + block + "\n";
    assert m.begin <= block + "\n";
    BeginComesFirst(m, core, block + "\n");
    var e := EarlyEnd(lead, upper, m.end);
    TrimLead(core);
    assert Apply(m, body, block) == s by {
      ApplyPlain(m, body, block);
    }
    rest := StripEarly(m, s, lead, e, lead + upper);
  }

  lemma ApplyPlain(m: Markers, body: string, block: string)
    requires Usable(m) && Plain(m, body) && block != ""
    ensures Apply(m, body, block) == Lead(Core(body)) + block + "\n"
  {
    hide Strip, NormalizeNewlines, TrimRightNewlines, Plain;
    CoreFacts(m, body);
  }

  lemma EarlyEnd(lead: string, upper: string, end: string) returns (e: nat)
    requires !Free(upper, end) && end != []
    ensures var s := (lead + upper) + "\n" + end + "\n";
      IndexOf(s, end) == Some(e) && e + |end| <= |lead + upper|
  {
    hide IndexOf;
    var i: nat :| Occurs(upper, end, i);
    var s := (lead + upper) + "\n" + end + "\n";
    OccursAfter(lead, upper, end, i);
    assert s[|lead| + i..|lead| + i + |end|] == (lead + upper)[|lead| + i..|lead| + i + |end|];
    assert Occurs(s, end, |lead| + i);
    e := IndexOf(s, end).value;
  }

  lemma StripEarly(m: Markers, s: string, lead: string, e: nat, above: string) returns (rest: string)
    requires '\r' !in s && s == above + "\n" + m.end + "\n" && lead <= s
    requires m.end != [] && '\n' !in m.end
    requires IndexOf(s, m.begin) == Some(|lead|) && IndexOf(s, m.end) == Some(e) && e + |m.end| <= |above|
    ensures Strip(m, s) == TrimRightNewlines(lead) + "\n" + rest
    ensures '\r' !in rest && TrimRightNewlines(rest) != ""
  {
    hide IndexOf, NormalizeNewlines, TrimRightNewlines, TrimLeftNewlines;
    NormalizeIdentity(s);
    assert s[..|lead|] == lead;
    var tail := s[e + |m.end|..];
    assert tail[|tail| - 2] == m.end[|m.end| - 1];
    rest := TrimLeftNewlines(tail);
    TrimLeftNewlinesShape(tail);
    TrimRightNewlinesShape(rest);
    assert tail[|tail| - 2] != '\n';
    assert rest[|rest| - 2] == tail[|tail| - 2];
  }

  lemma {:induction false} TrimLeftNewlinesShape(s: string)
    ensures var t := TrimLeftNewlines(s);
      |t| <= |s| && t == s[|s| - |t|..] && (t == "" || t[0] != '\n') && forall i :: 0 <= i < |s| - |t| ==> s[i] == '\n'
  {
    if s != [] && s[0] == '\n' {
      TrimLeftNewlinesShape(s[1..]);
      var t := TrimLeftNewlines(s);
      forall i | 0 <= i < |s| - |t| ensures s[i] == '\n' {
        assert i > 0 ==> s[i] == s[1..][i - 1];
      }
    }
  }

  /** Stripping undoes setting exactly when no written learning spells the end marker. */
  lemma {:induction false} StripUndoesApplyIff(m: Markers, body: string, learnings: seq<string>)
    requires Usable(m) && Plain(m, body) && learnings != [] && NoReturns(learnings)
    ensures Strip(m, Apply(m, body, Block(m, learnings))) == Terminated(Core(body)) <==> KeepsClear(m, learnings)
  {
    hide Usable, Strip, Plain, NoReturns, KeepsClear, Clean, Block, Apply, Core;
    CleanIs(m, learnings);
    if KeepsClear(m, learnings) {
      StripUndoesApply(m, body, learnings);
    } else {
      var rest := Residue(m, body, learnings);
      assert rest != "";
    }
  }

  /** Setting any block over an earlier one equals setting it on the original body exactly when no learning
      of the earlier block spells the end marker. */
  lemma {:induction false} LastBlockWinsIff(m: Markers, body: string, earlier: seq<string>, later: string)
    requires Usable(m) && Plain(m, body) && earlier != [] && NoReturns(earlier) && later != ""
    ensures Apply(m, Apply(m, body, Block(m, earlier)), later) == Apply(m, body, later) <==> KeepsClear(m, earlier)
  {
    hide Usable, Strip, Plain, NoReturns, KeepsClear, Clean, Block, NormalizeNewlines, TrimRightNewlines;
    CleanIs(m, earlier);
    ApplyPlain(m, body, later);
    if KeepsClear(m, earlier) {
      StripUndoesApply(m, body, earlier);
      TerminatedCore(m, body);
    } else {
      var rest := Residue(m, body, earlier);
      CoreFacts(m, body);
      ResidueStays(Core(body), rest);
    }
  }

  lemma ResidueStays(core: string, rest: string)
    requires '\r' !in core && '\r' !in rest && TrimRightNewlines(rest) != ""
    ensures |TrimRightNewlines(NormalizeNewlines(core + "\n" + rest))| > |core|
  {
    hide NormalizeNewlines, TrimRightNewlines;
    var s := core + "\n" + rest;
    NormalizeIdentity(s);
    TrimRightNewlinesShape(rest);
    TrimRightNewlinesShape(s);
    var t := TrimRightNewlines(rest);
    assert rest[|t| - 1] == t[|t| - 1];
    assert s[|core| + |t|] == rest[|t| - 1];
  }

  /** The body a hash sees is untouched by the block exactly when it was empty or ended in one newline. */
  lemma {:induction false} InjectionInvisibleIff(m: Markers, body: string, learnings: seq<string>)
    requires Usable(m)
    requires Plain(m, body) && Clean(m, learnings)
    ensures NormalizeNewlines(Strip(m, Apply(m, body, Block(m, learnings)))) == NormalizeNewlines(Strip(m, body))
      <==> NormalizeNewlines(body) == Terminated(Core(body))
  {
    StripUndoesApply(m, body, learnings);
    TerminatedCore(m, body);
    CoreFacts(m, body);
  }

  lemma {:induction false} TrimRightTerminated(norm: string)
    ensures TrimRightSpace(Terminated(TrimRightNewlines(norm))) == TrimRightSpace(norm)
  {
    var core := TrimRightNewlines(norm);
    TrimRightNewlinesShape(norm);
    TrimRightSpaceDrops(norm, |core|);
    TrimRightSpaceDrops(Terminated(core), |core|);
    assert Terminated(core)[..|core|] == core;
  }

  lemma {:induction false} TrimSpaceTerminated(norm: string)
    ensures TrimSpace(Terminated(TrimRightNewlines(norm))) == TrimSpace(norm)
    decreases |norm|
  {
    var core := TrimRightNewlines(norm);
    TrimRightNewlinesShape(norm);
    if core != "" && Space(norm[0]) {
      TrimRightNewlinesTail(norm);
      TrimSpaceTerminated(norm[1..]);
      assert norm[0] == core[0];
      if core[1..] == "" {
        assert Terminated(core)[1..] == "\n";
        assert TrimSpace("\n") == TrimSpace("");
      } else {
        assert Terminated(core)[1..] == Terminated(core[1..]);
      }
    } else if core != "" {
      TrimRightTerminated(norm);
      assert TrimLeftSpace(norm) == norm && TrimLeftSpace(Terminated(core)) == Terminated(core);
    } else {
      AllNewlinesTrim(norm);
    }
  }

  lemma {:induction false} TrimRightNewlinesTail(s: string)
    requires TrimRightNewlines(s) != ""
    ensures s != "" && TrimRightNewlines(s[1..]) == TrimRightNewlines(s)[1..]
  {
    if s[|s| - 1] == '\n' {
      TrimRightNewlinesTail(s[..|s| - 1]);
      if |s| > 1 {
        assert s[1..][..|s| - 2] == s[..|s| - 1][1..];
      }
    }
  }

  lemma {:induction false} AllNewlinesTrim(s: string)
    requires forall i :: 0 <= i < |s| ==> s[i] == '\n'
    ensures TrimSpace(s) == ""
  {
    if s != "" {
      AllNewlinesTrim(s[1..]);
    }
  }

  /** For a single-file skill the injected block never shows in the drift hash. */
  lemma {:induction false} InjectionKeepsHash(m: Markers, body: string, learnings: seq<string>)
    requires Usable(m)
    requires Plain(m, body) && Clean(m, learnings)
    ensures HashBasis(NormalizeNewlines(Strip(m, Apply(m, body, Block(m, learnings)))))
         == HashBasis(NormalizeNewlines(Strip(m, body)))
  {
    StripUndoesApply(m, body, learnings);
    TerminatedCore(m, body);
    CoreFacts(m, body);
    var norm := NormalizeNewlines(body);
    NormalizeIdentity(norm);
    NormalizeIdentity(Terminated(Core(body)));
    TrimSpaceTerminated(norm);
  }

  /** A learning without a marker can become one: broken at a space of the end marker it collapses to the
      marker, and then neither law of the block holds. */
  lemma {:induction false} CollapseCanForgeMarker(m: Markers, n: nat, body: string, later: string)
    requires Usable(m) && 0 < n < |m.end| && m.end[n] == ' ' && !Space(m.end[|m.end| - 1])
    requires Plain(m, body) && later != ""
    ensures var learning := m.end[..n] + "\n" + m.end[n + 1..];
      && Free(learning, m.end)
      && Strip(m, Apply(m, body, Block(m, [learning]))) != Terminated(Core(body))
      && Apply(m, Apply(m, body, Block(m, [learning])), later) != Apply(m, body, later)
  {
    hide Plain, Strip, Apply, Block, Core, TrimSpace;
    var learning := m.end[..n] + "\n" + m.end[n + 1..];
    forall i: nat ensures !Occurs(learning, m.end, i) {
      OccursAt(learning, m.end, i, n);
    }
    ForgedBullet(m.end, n);
    assert Occurs(m.end, m.end, 0);
    assert !KeepsClear(m, [learning]) by {
      assert learning in [learning];
    }
    StripUndoesApplyIff(m, body, [learning]);
    LastBlockWinsIff(m, body, [learning], later);
  }

  /** The shipped end marker has such a space. */
  lemma ShippedMarkerHasSpace()
    ensures MARKERS.end[4] == ' ' && |MARKERS.end| > 5 && !Space(MARKERS.end[|MARKERS.end| - 1])
  {
    EndEnds();
  }

  lemma ForgedBullet(end: string, n: nat)
    requires 0 < n < |end| && end[n] == ' ' && OneLine(end) && end[0] == '<' && !Space(end[|end| - 1])
    ensures var learning := end[..n] + "\n" + end[n + 1..]; TrimSpace(learning) == learning && Bullet(learning) == end
  {
    var learning := end[..n] + "\n" + end[n + 1..];
    TrimSpaceIdentity(learning);
    CollapseAt(learning, n);
    assert end == end[..n] + " " + end[n + 1..];
  }

  lemma {:induction false} CollapseAt(s: string, n: nat)
    requires n < |s| && s[n] == '\n' && '\r' !in s && forall i :: 0 <= i < |s| && i != n ==> s[i] != '\n'
    ensures Collapse(s) == s[..n] + " " + s[n + 1..]
  {
    if n == 0 {
      CollapseIdentity(s[1..]);
    } else {
      CollapseAt(s[1..], n - 1);
    }
  }

  lemma {:induction false} CollapseIdentity(s: string)
    requires '\r' !in s && '\n' !in s
    ensures Collapse(s) == s
  {
    if s != "" {
      CollapseIdentity(s[1..]);
    }
  }
}
