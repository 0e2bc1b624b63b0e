/**
 * A skill's file map: the canonical bytes both sides hash, and the body string
 * that carries a whole map from fetch to disk.
 */
module SkillFiles {
  import opened Collections
  import opened Ordering
  import opened Text
  import opened Candidate
  import opened MarkerTexts
  import Json
  import Mcp

  const MAIN := "SKILL.md"
  const NUL: char := '\0'

  type Files = map<string, string>

  /** One file's share of the hash: the injected block is stripped from SKILL.md only. */
  function Content(path: string, content: string): string {
    NormalizeNewlines(if path == MAIN then Strip(MARKERS, content) else content)
  }

  function Frame(path: string, content: string): string {
    [NUL] + "file:" + path + [NUL] + "\n" + Content(path, content) + "\n"
  }

  function Framed(files: Files, paths: seq<string>): string {
    if paths == [] then ""
    else (if paths[0] in files then Frame(paths[0], files[paths[0]]) else "") + Framed(files, paths[1..])
  }

  predicate SingleFile(files: Files) { |files| == 1 && MAIN in files }

  ghost function Canonical(files: Files): string {
    if SingleFile(files) then Content(MAIN, files[MAIN]) else Framed(files, SortedList(files.Keys))
  }

  lemma {:induction false} FramedAppend(files: Files, paths: seq<string>, path: string)
    requires path in files
    ensures Framed(files, paths + [path]) == Framed(files, paths) + Frame(path, files[path])
  {
    if paths == [] {
      assert paths + [path] == [path];
      assert Framed(files, [path][1..]) == "";
    } else {
      assert (paths + [path])[1..] == paths[1..] + [path];
      FramedAppend(files, paths[1..], path);
      var first := if paths[0] in files then Frame(paths[0], files[paths[0]]) else "";
      Regroup(first, Framed(files, paths[1..]), Frame(path, files[path]));
    }
  }

  lemma NoFrames(files: Files)
    ensures Framed(files, []) == ""
  {
  }

  lemma FramedStep(files: Files, paths: seq<string>, i: nat)
    requires i < |paths| && Elements(paths) == files.Keys
    ensures paths[i] in files
    ensures Framed(files, paths[..i + 1]) == Framed(files, paths[..i]) + Frame(paths[i], files[paths[i]])
  {
    hide Framed, Frame;
    assert paths[i] in Elements(paths);
    FramedAppend(files, paths[..i], paths[i]);
    assert paths[..i + 1] == paths[..i] + [paths[i]];
  }

  /** Canonical bytes, whatever order the paths were iterated in. */
  method SkillFilesCanonical(files: Files, iteration: seq<string>) returns (bytes: string)
    requires Distinct(iteration) && Elements(iteration) == files.Keys
    ensures bytes == Canonical(files)
  {
    if SingleFile(files) {
      return Content(MAIN, files[MAIN]);
    }
    hide Framed, Frame, Content, Sort;
    var paths := Sort(iteration);
    assert Framed(files, paths[..0]) == "" by { NoFrames(files); }
    SortOfListing(iteration, files.Keys);
    bytes := "";
    for i := 0 to |paths|
      invariant bytes == Framed(files, paths[..i])
    {
      FramedStep(files, paths, i);
      bytes := bytes + Frame(paths[i], files[paths[i]]);
    }
    assert paths[..|paths|] == paths;
  }

  /** The hashed bytes: a single SKILL.md as its content, anything else frame by frame, paths ascending. */
  lemma CanonicalSpelled(files: Files) returns (paths: seq<string>, frames: seq<string>)
    ensures Ascending(paths) && Elements(paths) == files.Keys && |frames| == |paths|
    ensures forall i :: 0 <= i < |paths| ==>
      paths[i] in files && frames[i] == "\0file:" + paths[i] + "\0\n" + Content(paths[i], files[paths[i]]) + "\n"
    ensures Canonical(files) ==
      if |files| == 1 && "SKILL.md" in files then Content("SKILL.md", files["SKILL.md"]) else Concat(frames)
  {
    hide Content;
    paths := SortedList(files.Keys);
    forall p | p in paths ensures p in files {
      assert p in Elements(paths);
    }
    frames := Frames(files, paths);
    FramesConcat(files, paths);
    forall i | 0 <= i < |paths|
      ensures paths[i] in files
      ensures frames[i] == "\0file:" + paths[i] + "\0\n" + Content(paths[i], files[paths[i]]) + "\n"
    {
      assert paths[i] in paths;
      FrameSpelled(paths[i], files[paths[i]]);
    }
  }

  function FrameOf(files: Files, path: string): string { if path in files then Frame(path, files[path]) else "" }

  function Frames(files: Files, paths: seq<string>): (frames: seq<string>)
    ensures |frames| == |paths| && forall i :: 0 <= i < |paths| ==> frames[i] == FrameOf(files, paths[i])
  {
    if paths == [] then []
    else Frames(files, paths[..|paths| - 1]) + [FrameOf(files, paths[|paths| - 1])]
  }

  lemma FrameSpelled(path: string, content: string)
    ensures Frame(path, content) == "\0file:" + path + "\0\n" + Content(path, content) + "\n"
  {
    hide Content;
    assert [NUL] + "file:" == "\0file:" && [NUL] + "\n" == "\0\n";
    assert ("\0file:" + path + [NUL]) + "\n" == "\0file:" + path + "\0\n";
  }

  lemma {:induction false} FramesConcat(files: Files, paths: seq<string>)
    ensures Framed(files, paths) == Concat(Frames(files, paths))
  {
    if paths != [] {
      hide Framed, FrameOf;
      var init, last := paths[..|paths| - 1], paths[|paths| - 1];
      FramesConcat(files, init);
      FramedLast(files, paths);
      LastFrame(Frames(files, init), FrameOf(files, last));
    }
  }

  lemma FramedLast(files: Files, paths: seq<string>)
    requires paths != []
    ensures Framed(files, paths) == Framed(files, paths[..|paths| - 1]) + FrameOf(files, paths[|paths| - 1])
  {
    hide Framed, Frame;
    var init, last := paths[..|paths| - 1], paths[|paths| - 1];
    assert paths == init + [last];
    if last in files {
      FramedAppend(files, init, last);
    } else {
      FramedSkips(files, init, last);
    }
  }

  lemma {:induction false} FramedSkips(files: Files, paths: seq<string>, path: string)
    requires path !in files
    ensures Framed(files, paths + [path]) == Framed(files, paths)
  {
    hide Frame;
    if paths == [] {
      assert paths + [path] == [path] && [path][1..] == [];
    } else {
      assert (paths + [path])[1..] == paths[1..] + [path];
      FramedSkips(files, paths[1..], path);
    }
  }

  lemma LastFrame(frames: seq<string>, last: string)
    ensures Concat(frames + [last]) == Concat(frames) + last
  {
    assert (frames + [last])[..|frames|] == frames;
  }

  // ----------------------------------------------------------- unambiguity

  /** Paths and contents without NUL, as text files and real paths are. */
  ghost predicate NulFree(files: Files) {
    forall p :: p in files ==> NUL !in p && NUL !in files[p]
  }

  ghost predicate StartsFrame(s: string) { s == "" || s[0] == NUL }

  lemma NulComesAfter(a: string, x: string)
    requires NUL !in a && StartsFrame(x)
    ensures forall k :: 0 <= k < |a| ==> (a + x)[k] != NUL
    ensures |a + x| == |a| || (a + x)[|a|] == NUL
  {
    forall k | 0 <= k < |a| ensures (a + x)[k] != NUL {
      assert a[k] in a;
    }
  }

  // Two NUL-free texts followed by nothing or a NUL can only be equal piece by piece.
  lemma {:induction false} SplitAtNul(a: string, x: string, b: string, y: string)
    requires NUL !in a && NUL !in b && StartsFrame(x) && StartsFrame(y)
    requires a + x == b + y
    ensures a == b && x == y
  {
    var s := a + x;
    NulComesAfter(a, x);
    NulComesAfter(b, y);
    assert |a| == |b|;
    assert a == s[..|a|] && b == s[..|b|];
    assert x == s[|a|..] && y == s[|b|..];
  }

  lemma {:induction false} StripChars(m: Markers, body: string, c: char)
    requires c != '\n' && c != '\r' && c !in body
    ensures c !in Strip(m, body)
  {
    hide IndexOf, NormalizeNewlines, TrimRightNewlines, TrimLeftNewlines;
    var norm := NormalizeNewlines(body);
    NormalizeKeeps(body, c);
    if IndexOf(norm, m.begin).Some? {
      var start := IndexOf(norm, m.begin).value;
      TrimRightNewlinesShape(norm[..start]);
      if IndexOf(norm, m.end).Some? {
        TrimLeftNewlinesChars(norm[IndexOf(norm, m.end).value + |m.end|..], c);
      }
    }
  }

  lemma {:induction false} TrimLeftNewlinesChars(s: string, c: char)
    requires c !in s
    ensures c !in TrimLeftNewlines(s)
  {
    if s != "" && s[0] == '\n' {
      TrimLeftNewlinesChars(s[1..], c);
    }
  }

  lemma ContentNulFree(path: string, content: string)
    requires NUL !in content
    ensures NUL !in Content(path, content)
  {
    StripChars(MARKERS, content, NUL);
    NormalizeKeeps(if path == MAIN then Strip(MARKERS, content) else content, NUL);
  }

  lemma FramedStarts(files: Files, paths: seq<string>)
    requires forall p :: p in paths ==> p in files
    ensures StartsFrame(Framed(files, paths)) && (paths != [] ==> Framed(files, paths) != "")
  {
    if paths != [] {
      assert paths[0] in files;
      var frame := Frame(paths[0], files[paths[0]]);
      assert frame[0] == NUL;
      assert Framed(files, paths)[0] == frame[0];
    }
  }

  lemma FrameParts(files: Files, paths: seq<string>)
    requires paths != [] && paths[0] in files
    ensures var text := "\n" + Content(paths[0], files[paths[0]]) + "\n";
      Framed(files, paths) == ([NUL] + "file:") + (paths[0] + ([NUL] + (text + Framed(files, paths[1..]))))
  {
  }

  lemma {:induction false} FramedInjective(f: Files, ps: seq<string>, g: Files, qs: seq<string>)
    requires NulFree(f) && NulFree(g)
    requires (forall p :: p in ps ==> p in f) && (forall q :: q in qs ==> q in g)
    requires Framed(f, ps) == Framed(g, qs)
    ensures ps == qs && forall p :: p in ps ==> Content(p, f[p]) == Content(p, g[p])
    decreases |ps|
  {
    FramedStarts(f, ps);
    FramedStarts(g, qs);
    if ps != [] && qs != [] {
      hide Framed, Content, NulFree;
      var p, q := ps[0], qs[0];
      var c, d := Content(p, f[p]), Content(q, g[q]);
      FrameParts(f, ps);
      FrameParts(g, qs);
      ContentNulFree(p, f[p]);
      ContentNulFree(q, g[q]);
      FramedStarts(f, ps[1..]);
      FramedStarts(g, qs[1..]);
      SameFrame(p, c, Framed(f, ps[1..]), q, d, Framed(g, qs[1..]));
      FramedInjective(f, ps[1..], g, qs[1..]);
      assert ps == [p] + ps[1..] && qs == [q] + qs[1..];
    }
  }

  /** A frame determines its path, its content and what follows it. */
  lemma SameFrame(p: string, c: string, x: string, q: string, d: string, y: string)
    requires NUL !in p && NUL !in q && NUL !in c && NUL !in d && StartsFrame(x) && StartsFrame(y)
    requires ([NUL] + "file:") + (p + ([NUL] + (("\n" + c + "\n") + x)))
          == ([NUL] + "file:") + (q + ([NUL] + (("\n" + d + "\n") + y)))
    ensures p == q && c == d && x == y
  {
    var u, v := [NUL] + (("\n" + c + "\n") + x), [NUL] + (("\n" + d + "\n") + y);
    SamePrefix([NUL] + "file:", p + u, q + v);
    SplitAtNul(p, u, q, v);
    SamePrefix([NUL], ("\n" + c + "\n") + x, ("\n" + d + "\n") + y);
    SplitAtNul("\n" + c + "\n", x, "\n" + d + "\n", y);
    assert ("\n" + c + "\n")[1..|c| + 1] == c && ("\n" + d + "\n")[1..|d| + 1] == d;
  }

  lemma SamePrefix(a: string, x: string, y: string)
    requires a + x == a + y
    ensures x == y
  {
    assert x == (a + x)[|a|..] && y == (a + y)[|a|..];
  }

  ghost predicate SameContents(f: Files, g: Files) {
    f.Keys == g.Keys && forall p :: p in f ==> Content(p, f[p]) == Content(p, g[p])
  }

  lemma SortedListed(files: Files)
    ensures forall p :: p in SortedList(files.Keys) <==> p in files
  {
    assert forall p :: p in SortedList(files.Keys) <==> p in Elements(SortedList(files.Keys));
  }

  lemma {:induction false} FramedOfSame(f: Files, g: Files, ps: seq<string>)
    requires SameContents(f, g)
    ensures Framed(f, ps) == Framed(g, ps)
  {
    if ps != [] {
      FramedOfSame(f, g, ps[1..]);
    }
  }

  lemma SingleKey(files: Files)
    requires SingleFile(files)
    ensures files.Keys == {MAIN}
  {
    assert |files.Keys - {MAIN}| == 0;
  }

  /** A single-file form never looks like a framed one with a file in it. */
  lemma {:induction false} FormsDiffer(f: Files, g: Files)
    requires NulFree(f) && SingleFile(f) && !SingleFile(g) && g != map[]
    ensures Canonical(f) != Canonical(g)
  {
    ContentNulFree(MAIN, f[MAIN]);
    SortedListed(g);
    FramedStarts(g, SortedList(g.Keys));
    ElementsEmpty(SortedList(g.Keys));
    assert Canonical(g)[0] in Canonical(g);
  }

  /** Canonical bytes agree exactly when the maps agree up to line endings and the injected block. */
  lemma {:induction false} CanonicalExact(f: Files, g: Files)
    requires NulFree(f) && NulFree(g) && f != map[] && g != map[]
    ensures Canonical(f) == Canonical(g) <==> SameContents(f, g)
  {
    if SingleFile(f) && SingleFile(g) {
      SingleKey(f);
      SingleKey(g);
    } else if SingleFile(f) {
      FormsDiffer(f, g);
      SingleKey(f);
      assert SameContents(f, g) ==> |g.Keys| == 1;
    } else if SingleFile(g) {
      FormsDiffer(g, f);
      SingleKey(g);
      assert SameContents(f, g) ==> |f.Keys| == 1;
    } else {
      SortedListed(f);
      SortedListed(g);
      if Canonical(f) == Canonical(g) {
        FramedInjective(f, SortedList(f.Keys), g, SortedList(g.Keys));
      } else if SameContents(f, g) {
        FramedOfSame(f, g, SortedList(f.Keys));
      }
    }
  }

  /** The one exception: no file at all reads like a single SKILL.md that is empty once its block is stripped. */
  lemma {:induction false} EmptyMapCollides(g: Files)
    ensures Canonical(g) == Canonical(map[]) <==> g == map[] || (SingleFile(g) && Content(MAIN, g[MAIN]) == "")
  {
    hide Content, Framed;
    var none: Files := map[];
    SortedListed(none);
    ElementsEmpty(SortedList(none.Keys));
    NoFrames(none);
    if g != none && !SingleFile(g) {
      SortedListed(g);
      ElementsEmpty(SortedList(g.Keys));
      FramedStarts(g, SortedList(g.Keys));
    }
  }

  /** Such a file exists. */
  lemma EmptyFileIsEmpty()
    ensures Content(MAIN, "") == ""
  {
    assert Strip(MARKERS, "") == "" by {
      assert !(MARKERS.begin <= "") by { MarkersUsable(); }
    }
  }

  // --------------------------------------------------------- the injected block

  /** In a multi-file skill the block stays out of the canonical bytes exactly when SKILL.md was
      empty or ended in one newline. */
  lemma {:induction false} InjectionKeepsBytesIff(files: Files, learnings: seq<string>)
    requires NulFree(files) && MAIN in files && !SingleFile(files)
    requires Plain(MARKERS, files[MAIN]) && Clean(MARKERS, learnings) && NUL !in Block(MARKERS, learnings)
    ensures var injected := files[MAIN := Apply(MARKERS, files[MAIN], Block(MARKERS, learnings))];
      Canonical(injected) == Canonical(files)
      <==> NormalizeNewlines(files[MAIN]) == Terminated(Core(files[MAIN]))
  {
    hide Canonical, Content, Apply, Block, Strip, Plain, Clean, Usable;
    MarkersUsable();
    var body := files[MAIN];
    var next := Apply(MARKERS, body, Block(MARKERS, learnings));
    StripUndoesApply(MARKERS, body, learnings);
    InjectedNulFree(body, learnings);
    InjectionInvisibleIff(MARKERS, body, learnings);
    MainContent(next);
    MainContent(body);
    ReplacedMain(files, next);
    CanonicalExact(files[MAIN := next], files);
  }

  lemma MainContent(body: string)
    ensures Content(MAIN, body) == NormalizeNewlines(Strip(MARKERS, body))
  {
    hide Strip;
  }

  lemma ReplacedMain(files: Files, next: string)
    requires MAIN in files && NulFree(files) && NUL !in next
    ensures var replaced := files[MAIN := next];
      && NulFree(replaced) && replaced != map[] && files != map[]
      && (SameContents(replaced, files) <==> Content(MAIN, next) == Content(MAIN, files[MAIN]))
  {
    hide Content;
    var replaced := files[MAIN := next];
    assert MAIN in replaced && replaced.Keys == files.Keys;
  }

  lemma InjectedNulFree(body: string, learnings: seq<string>)
    requires NUL !in body && NUL !in Block(MARKERS, learnings)
    ensures NUL !in Lead(Core(body)) + Block(MARKERS, learnings) + "\n"
  {
    NormalizeKeeps(body, NUL);
    TrimRightNewlinesShape(NormalizeNewlines(body));
  }

  // --------------------------------------------------------- the outer trim

  /** What hashing adds on a framed form: only the last file's trailing spaces go. */
  function TrimmedFramed(files: Files, paths: seq<string>): string
    requires paths != [] && forall p :: p in paths ==> p in files
  {
    if |paths| == 1 then
      [NUL] + "file:" + paths[0] + [NUL] + TrimRightSpace("\n" + Content(paths[0], files[paths[0]]) + "\n")
    else Frame(paths[0], files[paths[0]]) + TrimmedFramed(files, paths[1..])
  }

  lemma {:induction false} TrimRightAppend(a: string, b: string)
    requires a != "" && !Space(a[|a| - 1])
    ensures TrimRightSpace(a + b) == a + TrimRightSpace(b)
    decreases |b|
  {
    if b == "" {
      assert a + b == a;
    } else if Space(b[|b| - 1]) {
      assert (a + b)[..|a + b| - 1] == a + b[..|b| - 1];
      TrimRightAppend(a, b[..|b| - 1]);
    }
  }

  lemma {:induction false} TrimRightKeepsNonspace(a: string, b: string)
    requires TrimRightSpace(b) != ""
    ensures TrimRightSpace(a + b) == a + TrimRightSpace(b)
    decreases |b|
  {
    if Space(b[|b| - 1]) {
      assert (a + b)[..|a + b| - 1] == a + b[..|b| - 1];
      TrimRightKeepsNonspace(a, b[..|b| - 1]);
    }
  }

  lemma {:induction false} FramedTrim(files: Files, paths: seq<string>)
    requires paths != [] && forall p :: p in paths ==> p in files
    ensures TrimSpace(Framed(files, paths)) == TrimRightSpace(Framed(files, paths)) == TrimmedFramed(files, paths)
    ensures TrimmedFramed(files, paths) != "" && TrimmedFramed(files, paths)[0] == NUL
    decreases |paths|
  {
    FramedStarts(files, paths);
    assert TrimLeftSpace(Framed(files, paths)) == Framed(files, paths);
    if |paths| == 1 {
      var head := [NUL] + "file:" + paths[0] + [NUL];
      var tail := "\n" + Content(paths[0], files[paths[0]]) + "\n";
      assert Framed(files, paths[1..]) == "";
      assert Framed(files, paths) == head + tail;
      TrimRightAppend(head, tail);
    } else {
      FramedTrim(files, paths[1..]);
      TrimRightKeepsNonspace(Frame(paths[0], files[paths[0]]), Framed(files, paths[1..]));
    }
  }

  /** Equal but for trailing spaces. */
  predicate SameTrimmed(c: string, d: string) { TrimRightSpace(c) == TrimRightSpace(d) }

  lemma {:induction false} TrimWrapped(c: string)
    ensures TrimRightSpace("\n" + c + "\n") == if TrimRightSpace(c) == "" then "" else "\n" + TrimRightSpace(c)
  {
    var s := "\n" + c + "\n";
    assert s[..|s| - 1] == "\n" + c;
    if TrimRightSpace(c) == "" {
      TrimRightSpaceShape(c);
      TrimRightSpaceDrops("\n" + c, 0);
      assert ("\n" + c)[..0] == "";
    } else {
      TrimRightKeepsNonspace("\n", c);
    }
  }

  /** The listed files agree, the last one up to trailing spaces. */
  ghost predicate SameListed(f: Files, g: Files, ps: seq<string>)
    requires forall p :: p in ps ==> p in f && p in g
  {
    forall i :: 0 <= i < |ps| ==> SameAt(f, g, ps[i], i == |ps| - 1)
  }

  ghost predicate SameAt(f: Files, g: Files, p: string, last: bool)
    requires p in f && p in g
  {
    if last then SameTrimmed(Content(p, f[p]), Content(p, g[p])) else Content(p, f[p]) == Content(p, g[p])
  }

  lemma {:induction false} TrimmedFramedExact(f: Files, ps: seq<string>, g: Files, qs: seq<string>)
    requires NulFree(f) && NulFree(g) && ps != [] && qs != []
    requires (forall p :: p in ps ==> p in f) && (forall q :: q in qs ==> q in g)
    requires TrimmedFramed(f, ps) == TrimmedFramed(g, qs)
    ensures ps == qs && SameListed(f, g, ps)
    decreases |ps|
  {
    hide Content, TrimmedFramed;
    var p, q := ps[0], qs[0];
    var (c, x) := TrimmedParts(f, ps);
    var (d, y) := TrimmedParts(g, qs);
    TrimmedSplit(f, ps);
    TrimmedSplit(g, qs);
    SamePrefix([NUL] + "file:", p + ([NUL] + (c + x)), q + ([NUL] + (d + y)));
    SplitAtNul(p, [NUL] + (c + x), q, [NUL] + (d + y));
    SamePrefix([NUL], c + x, d + y);
    SplitAtNul(c, x, d, y);
    var cf, cg := Content(p, f[p]), Content(q, g[q]);
    if |ps| == 1 || |qs| == 1 {
      assert |ps| == 1 && |qs| == 1;
      TrimWrapped(cf);
      TrimWrapped(cg);
      assert TrimRightSpace(cf) != "" ==> c[1..] == TrimRightSpace(cf);
      assert TrimRightSpace(cg) != "" ==> d[1..] == TrimRightSpace(cg);
    } else {
      assert c[1..|c| - 1] == cf && d[1..|d| - 1] == cg;
      TrimmedFramedExact(f, ps[1..], g, qs[1..]);
      assert ps == [p] + ps[1..] && qs == [q] + qs[1..];
      forall i | 0 <= i < |ps| ensures SameAt(f, g, ps[i], i == |ps| - 1) {
        assert i > 0 ==> ps[i] == ps[1..][i - 1] && SameAt(f, g, ps[1..][i - 1], i - 1 == |ps[1..]| - 1);
      }
    }
  }

  lemma Nest(a: string, b: string, c: string, d: string)
    ensures a + b + c + d == a + (b + (c + d))
  {
  }

  lemma Regather(a: string, b: string, c: string, d: string, e: string)
    ensures (a + (b + (c + d))) + e == a + (b + (c + (d + e)))
  {
  }

  lemma FrameText(path: string, content: string)
    ensures Frame(path, content) == ([NUL] + "file:") + path + [NUL] + ("\n" + Content(path, content) + "\n")
  {
  }

  // The first file's text and what follows it, seen through the trim.
  lemma {:induction false} TrimmedSplit(f: Files, ps: seq<string>)
    requires NulFree(f) && ps != [] && forall p :: p in ps ==> p in f
    ensures var (c, x) := TrimmedParts(f, ps);
      && TrimmedFramed(f, ps) == ([NUL] + "file:") + (ps[0] + ([NUL] + (c + x)))
      && NUL !in c && StartsFrame(x) && (x == "" <==> |ps| == 1)
  {
    var p, wrapped := ps[0], "\n" + Content(ps[0], f[ps[0]]) + "\n";
    ContentNulFree(p, f[p]);
    var (c, x) := TrimmedParts(f, ps);
    if |ps| == 1 {
      TrimRightSpaceShape(wrapped);
      Nest([NUL] + "file:", p, [NUL], c);
      assert c + x == c;
    } else {
      FramedTrim(f, ps[1..]);
      FrameText(p, f[p]);
      Nest([NUL] + "file:", p, [NUL], wrapped);
      Regather([NUL] + "file:", p, [NUL], wrapped, x);
    }
  }

  function TrimmedParts(f: Files, ps: seq<string>): (string, string)
    requires ps != [] && forall p :: p in ps ==> p in f
  {
    var wrapped := "\n" + Content(ps[0], f[ps[0]]) + "\n";
    if |ps| == 1 then (TrimRightSpace(wrapped), "") else (wrapped, TrimmedFramed(f, ps[1..]))
  }

  /** Text whose carriage returns all belong to line ends. */
  ghost predicate CrFree(files: Files) {
    forall p :: p in files ==> '\r' !in p && '\r' !in Content(p, files[p])
  }

  lemma {:induction false} FramedCrFree(files: Files, paths: seq<string>)
    requires CrFree(files) && forall p :: p in paths ==> p in files
    ensures '\r' !in Framed(files, paths)
  {
    if paths != [] {
      assert paths[0] in files;
      FramedCrFree(files, paths[1..]);
      assert '\r' !in Frame(paths[0], files[paths[0]]);
    }
  }

  /** What two framed forms must share to hash alike: all of every file but the last path's trailing spaces. */
  ghost predicate SameHashed(f: Files, g: Files) {
    f.Keys == g.Keys && forall p :: p in f ==> SameAt(f, g, p, IsLast(f, p))
  }

  ghost predicate IsLast(files: Files, path: string) {
    forall p :: p in files && p != path ==> Below(p, path)
  }

  lemma LastListed(files: Files, i: nat)
    requires i < |SortedList(files.Keys)|
    ensures var paths := SortedList(files.Keys); IsLast(files, paths[i]) <==> i == |paths| - 1
  {
    var paths := SortedList(files.Keys);
    SortedListed(files);
    if i < |paths| - 1 && IsLast(files, paths[i]) {
      assert paths[|paths| - 1] in files && Below(paths[i], paths[|paths| - 1]);
      BelowIrreflexive(paths[i]);
      assert Below(paths[|paths| - 1], paths[i]);
      BelowTransitive(paths[i], paths[|paths| - 1], paths[i]);
    }
    if i == |paths| - 1 {
      forall p | p in files && p != paths[i] ensures Below(p, paths[i]) {
        var j :| 0 <= j < |paths| && paths[j] == p;
      }
    }
  }

  lemma {:induction false} TrimmedFramedOfSame(f: Files, g: Files, ps: seq<string>)
    requires ps != [] && forall p :: p in ps ==> p in f && p in g
    requires SameListed(f, g, ps)
    ensures TrimmedFramed(f, ps) == TrimmedFramed(g, ps)
    decreases |ps|
  {
    assert SameAt(f, g, ps[0], 0 == |ps| - 1);
    if |ps| == 1 {
      TrimWrapped(Content(ps[0], f[ps[0]]));
      TrimWrapped(Content(ps[0], g[ps[0]]));
    } else {
      forall i | 0 <= i < |ps[1..]| ensures SameAt(f, g, ps[1..][i], i == |ps[1..]| - 1) {
        assert SameAt(f, g, ps[i + 1], i + 1 == |ps| - 1);
      }
      TrimmedFramedOfSame(f, g, ps[1..]);
    }
  }

  lemma FramedBasis(files: Files)
    requires CrFree(files) && !SingleFile(files) && files != map[]
    ensures var paths := SortedList(files.Keys);
      && paths != [] && (forall p :: p in paths ==> p in files)
      && HashBasis(Canonical(files)) == TrimmedFramed(files, paths)
  {
    var paths := SortedList(files.Keys);
    SortedListed(files);
    ElementsEmpty(paths);
    FramedCrFree(files, paths);
    NormalizeIdentity(Framed(files, paths));
    FramedTrim(files, paths);
  }

  /** A skill hashed without frames: one SKILL.md, or no file at all. */
  ghost predicate Unframed(files: Files) { SingleFile(files) || files == map[] }

  /** The text such a skill hashes. */
  ghost function TextOf(files: Files): string
    requires Unframed(files)
  {
    if files == map[] then "" else Content(MAIN, files[MAIN])
  }

  /** Two skills hash over the same bytes exactly when both are framed and differ at most in the last path's
      trailing spaces, or both are not and differ at most in the spaces around the text. */
  lemma {:induction false} HashExact(f: Files, g: Files)
    requires NulFree(f) && NulFree(g) && CrFree(f) && CrFree(g)
    ensures HashBasis(Canonical(f)) == HashBasis(Canonical(g)) <==>
      && (Unframed(f) <==> Unframed(g))
      && (if Unframed(f) then TrimSpace(TextOf(f)) == TrimSpace(TextOf(g)) else SameHashed(f, g))
  {
    hide Canonical, HashBasis, TrimSpace, SameHashed, NulFree, CrFree;
    if Unframed(f) {
      UnframedBasis(f);
    } else {
      FramedStartsBasis(f);
    }
    if Unframed(g) {
      UnframedBasis(g);
    } else {
      FramedStartsBasis(g);
    }
    if !Unframed(f) && !Unframed(g) {
      FramedHashExact(f, g);
    }
  }

  lemma UnframedBasis(files: Files)
    requires Unframed(files) && NulFree(files) && CrFree(files)
    ensures HashBasis(Canonical(files)) == TrimSpace(TextOf(files)) && NUL !in HashBasis(Canonical(files))
  {
    hide Content;
    var text := TextOf(files);
    if files == map[] {
      SortedListed(files);
      ElementsEmpty(SortedList(files.Keys));
    } else {
      ContentNulFree(MAIN, files[MAIN]);
    }
    NormalizeIdentity(text);
    TrimLeftSpaceShape(text);
    TrimRightSpaceShape(TrimLeftSpace(text));
  }

  lemma FramedStartsBasis(files: Files)
    requires CrFree(files) && !Unframed(files)
    ensures var basis := HashBasis(Canonical(files)); basis != "" && basis[0] == NUL && NUL in basis
  {
    hide Canonical, HashBasis, TrimmedFramed;
    FramedBasis(files);
    FramedTrim(files, SortedList(files.Keys));
  }

  lemma {:induction false} FramedHashExact(f: Files, g: Files)
    requires NulFree(f) && NulFree(g) && CrFree(f) && CrFree(g)
    requires !Unframed(f) && !Unframed(g)
    ensures HashBasis(Canonical(f)) == HashBasis(Canonical(g)) <==> SameHashed(f, g)
  {
    var ps, qs := SortedList(f.Keys), SortedList(g.Keys);
    FramedBasis(f);
    FramedBasis(g);
    if HashBasis(Canonical(f)) == HashBasis(Canonical(g)) {
      TrimmedFramedExact(f, ps, g, qs);
      assert f.Keys == Elements(ps) == g.Keys;
    }
    if f.Keys == g.Keys {
      SameHashedByList(f, g);
      if SameListed(f, g, ps) {
        TrimmedFramedOfSame(f, g, ps);
      }
    }
  }

  lemma {:induction false} SameHashedByList(f: Files, g: Files)
    requires f.Keys == g.Keys
    ensures forall p :: p in SortedList(f.Keys) ==> p in f && p in g
    ensures SameHashed(f, g) <==> SameListed(f, g, SortedList(f.Keys))
  {
    hide SameAt, IsLast;
    var ps := SortedList(f.Keys);
    SortedListed(f);
    forall i | 0 <= i < |ps| ensures ps[i] in f && (IsLast(f, ps[i]) <==> i == |ps| - 1) {
      LastListed(f, i);
    }
    if SameListed(f, g, ps) {
      forall p | p in f ensures SameAt(f, g, p, IsLast(f, p)) {
        var i :| 0 <= i < |ps| && ps[i] == p;
        assert SameAt(f, g, ps[i], i == |ps| - 1);
      }
    }
  }

  /** Injecting a block moves a multi-file skill's hash basis exactly when another file follows SKILL.md
      and SKILL.md neither was empty nor ended in one newline. */
  lemma {:induction false} InjectionMovesHashIff(files: Files, learnings: seq<string>)
    requires NulFree(files) && CrFree(files) && MAIN in files && !SingleFile(files)
    requires Plain(MARKERS, files[MAIN]) && Clean(MARKERS, learnings) && NUL !in Block(MARKERS, learnings)
    ensures var injected := files[MAIN := Apply(MARKERS, files[MAIN], Block(MARKERS, learnings))];
      HashBasis(Canonical(injected)) != HashBasis(Canonical(files))
      <==> !IsLast(files, MAIN) && NormalizeNewlines(files[MAIN]) != Terminated(Core(files[MAIN]))
  {
    var body := files[MAIN];
    var next := Apply(MARKERS, body, Block(MARKERS, learnings));
    InjectedContent(body, learnings);
    TrimRightTerminated(NormalizeNewlines(body));
    ReplacedMainHash(files, next);
  }

  /** Such a skill: a SKILL.md without a final newline, a file behind it, and one learning. */
  lemma {:induction false} InjectionMovesOne(files: Files, learnings: seq<string>)
    requires files == map[MAIN := "x", "z" := "y"] && learnings == ["l"]
    ensures var injected := files[MAIN := Apply(MARKERS, files[MAIN], Block(MARKERS, learnings))];
      HashBasis(Canonical(injected)) != HashBasis(Canonical(files))
  {
    hide Canonical, HashBasis, Apply, Block, Plain, Clean;
    MarkersUsable();
    ShortPlain(MARKERS, "x");
    ShortLearning(MARKERS, "l");
    BlockNulFree("l");
    SmallFiles(files);
    assert files.Keys == {MAIN, "z"} && "z" in files && MAIN != "z";
    assert !SingleFile(files) by { assert |{MAIN, "z"}| == 2; }
    assert !IsLast(files, MAIN) by { NotBefore(); }
    UnfinishedLine("x");
    InjectionMovesHashIff(files, learnings);
  }

  lemma ShortPlain(m: Markers, body: string)
    requires Usable(m) && |body| == 1 && body[0] != '\r'
    ensures Plain(m, body) && Strip(m, body) == body
  {
    hide IndexOf;
    NormalizeIdentity(body);
    IndexNone(body, m.begin);
  }

  lemma ShortLearning(m: Markers, learning: string)
    requires Usable(m) && |learning| == 1 && !Space(learning[0])
    ensures Clean(m, [learning]) && Bullet(learning) == learning && TrimSpace(learning) != ""
  {
    TrimSpaceIdentity(learning);
    CollapseIdentity(learning);
  }

  lemma BlockNulFree(learning: string)
    requires |learning| == 1 && !Space(learning[0]) && learning[0] != NUL
    ensures NUL !in Block(MARKERS, [learning])
  {
    hide Usable, Tagless, JoinWith, Bullet, TrimSpace;
    MarkersUsable();
    ShortLearning(MARKERS, learning);
    TextsNulFree();
    var lines := UpperLines(MARKERS, [learning]);
    OneBullet(learning);
    JoinWithout(lines, "\n", NUL);
  }

  lemma OneBullet(learning: string)
    requires TrimSpace(learning) != ""
    ensures Bullets([learning]) == ["- " + Bullet(learning)]
  {
    hide TrimSpace, Bullet;
    assert [learning][..0] == [];
  }

  lemma TextsNulFree()
    ensures NUL !in MARKERS.begin && NUL !in MARKERS.end && NUL !in MARKERS.heading && NUL !in MARKERS.intro
  {
    hide Tagless;
    TextsTagless();
    PrintableNulFree(BEGIN_0 + BEGIN_1);
    PrintableNulFree(END_0);
    PrintableNulFree(HEADING);
    PrintableNulFree(INTRO);
  }

  lemma PrintableNulFree(text: string)
    requires Tagless(text)
    ensures NUL !in text && NUL !in "<" + text
  {
  }

  lemma NotBefore()
    ensures !Below("z", MAIN)
  {
    assert "z"[0] == 'z' && MAIN[0] == 'S';
  }

  lemma UnfinishedLine(body: string)
    requires |body| == 1 && body[0] != '\n' && body[0] != '\r'
    ensures NormalizeNewlines(body) != Terminated(Core(body))
  {
    NormalizeIdentity(body);
    assert TrimRightNewlines(body) == body;
  }

  lemma SmallFiles(files: Files)
    requires files == map[MAIN := "x", "z" := "y"]
    ensures NulFree(files) && CrFree(files)
  {
    hide NormalizeNewlines;
    assert NUL !in MAIN && '\r' !in MAIN;
    MarkersUsable();
    ShortPlain(MARKERS, "x");
    NormalizeIdentity("x");
    NormalizeIdentity("y");
  }

  lemma InjectedContent(body: string, learnings: seq<string>)
    requires NUL !in body && Plain(MARKERS, body) && Clean(MARKERS, learnings) && NUL !in Block(MARKERS, learnings)
    ensures var next := Apply(MARKERS, body, Block(MARKERS, learnings));
      && NUL !in next && Content(MAIN, next) == Terminated(Core(body)) && '\r' !in Terminated(Core(body))
    ensures Content(MAIN, body) == NormalizeNewlines(body)
  {
    MarkersUsable();
    StripUndoesApply(MARKERS, body, learnings);
    InjectedNulFree(body, learnings);
    TerminatedCore(MARKERS, body);
    CoreFacts(MARKERS, body);
  }

  // Replacing SKILL.md by a file with the same text up to trailing spaces shows only if the text
  // differs and another file follows.
  lemma {:induction false} ReplacedMainHash(files: Files, next: string)
    requires NulFree(files) && CrFree(files) && MAIN in files && !SingleFile(files)
    requires NUL !in next && '\r' !in Content(MAIN, next)
    requires SameTrimmed(Content(MAIN, next), Content(MAIN, files[MAIN]))
    ensures HashBasis(Canonical(files[MAIN := next])) != HashBasis(Canonical(files))
      <==> !IsLast(files, MAIN) && Content(MAIN, next) != Content(MAIN, files[MAIN])
  {
    hide Canonical, HashBasis, Content, TrimmedFramed;
    var replaced := files[MAIN := next];
    assert replaced.Keys == files.Keys;
    HashExact(replaced, files);
    assert IsLast(replaced, MAIN) <==> IsLast(files, MAIN);
    assert SameHashed(replaced, files) <==> SameAt(replaced, files, MAIN, IsLast(replaced, MAIN));
  }

  // --------------------------------------------------------------- the envelope

  const ENVELOPE := "\0skillfiles:"

  ghost function Encode(files: Files): string {
    if SingleFile(files) then files[MAIN] else ENVELOPE + Json.Print(Mcp.StringMap(files))
  }

  /** A whole JSON text holding a string map. */
  function DecodeMap(text: string): Option<Files> {
    match Json.ParseValue(text)
    case None => None
    case Some((v, rest)) => if Json.SkipSpace(rest) == "" then Mcp.ReadMap(v) else None
  }

  function Enveloped(body: string): Option<Files> {
    if ENVELOPE <= body then DecodeMap(body[|ENVELOPE|..]) else None
  }

  function Decode(body: string): Files {
    match Enveloped(body)
    case Some(files) => files
    case None => map[MAIN := body]
  }

  // No string value inside a text is as long as the text.
  lemma {:induction false} ParsedCharsShort(s: string)
    requires Json.ParseChars(s).Some?
    ensures var (chars, rest) := Json.ParseChars(s).value; |chars| + |rest| < |s|
  {
    if s[0] != '"' {
      ParsedCharsShort(s[Json.UnescapeChar(s).value.1..]);
    }
  }

  lemma {:induction false} ParsedTextShort(s: string)
    requires Json.ParseValue(s).Some? && Json.ParseValue(s).value.0.Text?
    ensures |Json.ParseValue(s).value.0.chars| < |s|
    decreases |s|
  {
    var t := Json.SkipSpace(s);
    if t[0] == '"' {
      ParsedCharsShort(t[1..]);
    } else if t[0] == '[' {
      var u := Json.SkipSpace(t[1..]);
      if u == "" || u[0] != ']' {
        ParsedItemsAreArray(u, []);
      }
    } else if t[0] == '{' {
      var u := Json.SkipSpace(t[1..]);
      if u == "" || u[0] != '}' {
        ParsedFieldsShort(u, map[], |u|);
      }
    }
  }

  lemma {:induction false} ParsedItemsAreArray(s: string, sofar: seq<Json.Value>)
    requires Json.ParseItems(s, sofar).Some?
    ensures Json.ParseItems(s, sofar).value.0.Array?
    decreases |s|
  {
    var first := Json.ParseValue(s).value;
    var u := Json.SkipSpace(first.1);
    if u[0] == ',' {
      ParsedItemsAreArray(u[1..], sofar + [first.0]);
    }
  }

  lemma {:induction false} ParsedFieldsShort(s: string, sofar: map<string, Json.Value>, bound: nat)
    requires Json.ParseMembers(s, sofar).Some? && |s| <= bound
    requires forall k :: k in sofar && sofar[k].Text? ==> |sofar[k].chars| < bound
    ensures var v := Json.ParseMembers(s, sofar).value.0;
      v.Object? && forall k :: k in v.fields && v.fields[k].Text? ==> |v.fields[k].chars| < bound
    decreases |s|
  {
    var key := Json.ParseChars(Json.SkipSpace(s)[1..]).value;
    var c := Json.SkipSpace(key.1);
    var v := Json.ParseValue(c[1..]).value;
    if v.0.Text? {
      ParsedTextShort(c[1..]);
    }
    var u := Json.SkipSpace(v.1);
    if u[0] == ',' {
      ParsedFieldsShort(u[1..], sofar[key.0 := v.0], bound);
    }
  }

  lemma {:induction false} DecodedShort(text: string)
    requires DecodeMap(text).Some?
    ensures forall p :: p in DecodeMap(text).value ==> |DecodeMap(text).value[p]| < |text|
  {
    hide Json.NumberEnd, Json.ParseItems, Json.ParseMembers, Json.ParseChars;
    var s := Json.SkipSpace(text);
    if s[0] == '{' {
      var u := Json.SkipSpace(s[1..]);
      if u == "" || u[0] != '}' {
        ParsedFieldsShort(u, map[], |text|);
      }
    } else if s[0] == '[' {
      var u := Json.SkipSpace(s[1..]);
      if u == "" || u[0] != ']' {
        ParsedItemsAreArray(u, []);
      }
    }
  }

  /** Decoding undoes encoding unless a single SKILL.md itself spells an envelope. */
  lemma {:induction false} EnvelopeRoundTrip(files: Files)
    ensures Decode(Encode(files)) == files <==> !(SingleFile(files) && Enveloped(files[MAIN]).Some?)
  {
    hide DecodeMap, Enveloped, Json.Print;
    if SingleFile(files) {
      SingleKey(files);
      var body := files[MAIN];
      EnvelopedShort(body);
      assert map[MAIN := body] == files;
    } else {
      DecodeMapWritten(files);
      OpenEnvelope(Json.Print(Mcp.StringMap(files)));
    }
  }

  /** A single SKILL.md holding the envelope of any file map comes back as that map instead. */
  lemma SpelledEnvelopeIsLost(spelled: Files)
    ensures var files := map["SKILL.md" := "\0skillfiles:" + Json.Print(Mcp.StringMap(spelled))];
      Decode(Encode(files)) == spelled != files
  {
    hide DecodeMap, Enveloped, Json.Print;
    var text := Json.Print(Mcp.StringMap(spelled));
    var files := map[MAIN := ENVELOPE + text];
    assert SingleFile(files);
    DecodeMapWritten(spelled);
    OpenEnvelope(text);
    EnvelopeRoundTrip(files);
  }

  /** An envelope with more text behind it is no envelope. */
  lemma EnvelopeAlone(spelled: Files, tail: string)
    ensures var body := ENVELOPE + (Json.Print(Mcp.StringMap(spelled)) + ("," + tail));
      Decode(body) == map[MAIN := body]
  {
    hide Json.Show, Json.Sorted, Json.Sound, Json.Denote, Json.ParseValue, Json.Proper, Mcp.ReadMap;
    var v := Mcp.StringMap(spelled);
    var text := Json.Print(v) + ("," + tail);
    assert Json.Proper(v) by { StringMapProper(spelled); }
    Json.SortedFaithful(v);
    Json.ParseShow(Json.Sorted(v), "," + tail);
    assert (ENVELOPE + text)[|ENVELOPE|..] == text;
  }

  lemma StringMapProper(m: map<string, string>)
    ensures Json.Proper(Mcp.StringMap(m))
  {
  }

  lemma EnvelopedShort(body: string)
    ensures Enveloped(body).Some? && MAIN in Enveloped(body).value ==> |Enveloped(body).value[MAIN]| < |body|
  {
    hide DecodeMap;
    if Enveloped(body).Some? {
      DecodedShort(body[|ENVELOPE|..]);
    }
  }

  lemma OpenEnvelope(text: string)
    ensures Enveloped(ENVELOPE + text) == DecodeMap(text)
  {
    hide DecodeMap;
    assert (ENVELOPE + text)[|ENVELOPE|..] == text;
  }

  lemma DecodeMapWritten(files: Files)
    ensures DecodeMap(Json.Print(Mcp.StringMap(files))) == Some(files)
  {
    var v := Mcp.StringMap(files);
    Json.SortedFaithful(v);
    Json.ParseShow(Json.Sorted(v), "");
    assert Json.Print(v) + "" == Json.Print(v);
    hide Json.Print, Json.ParseValue, Json.Sorted, Mcp.StringMap, Mcp.ReadMap;
    Mcp.ReadMapWritten(files);
  }

  // ------------------------------------------------------- what a record resolves to

  /** A served file map, completed by the body or the description when its SKILL.md is missing. */
  function FilesFor(served: Files, body: string, description: string): Files {
    var main := if body != "" then body else description;
    if served == map[] then map[MAIN := main]
    else if MAIN !in served && main != "" then served[MAIN := main]
    else served
  }

  /** Every served file is kept as it is, nothing but SKILL.md is added, and SKILL.md is missing exactly
      when a served map lacks it and the record has no text at all. */
  lemma FilesForKeeps(served: Files, body: string, description: string)
    ensures var files := FilesFor(served, body, description);
      && files != map[] && files.Keys <= served.Keys + {MAIN}
      && (forall p :: p in served ==> p in files && files[p] == served[p])
      && (MAIN !in files <==> served != map[] && MAIN !in served && body == "" && description == "")
      && (MAIN in files && MAIN !in served ==> files[MAIN] == if body != "" then body else description)
  {
    assert MAIN in FilesFor(map[], body, description);
  }
}
