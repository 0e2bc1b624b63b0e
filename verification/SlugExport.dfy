/**
 * Exporting skills under unique directory names: slugs, collision suffixes,
 * and the export loop over the skill table.
 */
module SlugExport {
  import opened Collections
  import Numerals
  import Ordering
  import Text

  const SLUG_MAX_LENGTH: nat := 64

  // ------------------------------------------------------------------- slugify

  predicate SlugChar(c: char) { 'a' <= c <= 'z' || '0' <= c <= '9' }

  /** Lower case, as far as it yields ASCII letters: A to Z, the Kelvin sign, and the dotted capital I. */
  function LowerChar(c: char): string {
    if 'A' <= c <= 'Z' then [c - 'A' + 'a']
    else if c == '\U{212A}' then "k"
    else if c == '\U{0130}' then "i\U{0307}"
    else [c]
  }

  function Lower(s: string): string { if s == "" then "" else LowerChar(s[0]) + Lower(s[1..]) }

  function SkipRun(s: string): (rest: string)
    ensures |rest| <= |s|
  {
    if s == "" || SlugChar(s[0]) then s else SkipRun(s[1..])
  }

  /** Every run of other characters becomes one hyphen. */
  function Squash(s: string): string
    decreases |s|
  {
    if s == "" then ""
    else if SlugChar(s[0]) then [s[0]] + Squash(s[1..])
    else "-" + Squash(SkipRun(s[1..]))
  }

  function TrimRight(s: string): (r: string)
    ensures |r| <= |s| && r == s[..|r|] && (r != "" ==> r[|r| - 1] != '-')
  {
    if s != "" && s[|s| - 1] == '-' then TrimRight(s[..|s| - 1]) else s
  }

  function TrimLeft(s: string): (r: string)
    ensures |r| <= |s| && r == s[|s| - |r|..] && (r != "" ==> r[0] != '-')
  {
    if s != "" && s[0] == '-' then TrimLeft(s[1..]) else s
  }

  function Slugify(name: string, maxLength: nat): string {
    var slug := TrimRight(TrimLeft(Squash(Lower(name))));
    var capped := if |slug| > maxLength then TrimRight(slug[..maxLength]) else slug;
    if capped == "" then "skill" else capped
  }

  ghost predicate SlugText(s: string) {
    && (forall c :: c in s ==> SlugChar(c) || c == '-')
    && (forall i, j :: 0 <= i && j == i + 1 && j < |s| ==> s[i] != '-' || s[j] != '-')
  }

  /** Lower-case letters and digits in groups joined by single hyphens. */
  ghost predicate Slug(s: string) {
    s != "" && SlugText(s) && s[0] != '-' && s[|s| - 1] != '-'
  }

  lemma {:induction false} SquashIsSlugText(s: string)
    ensures SlugText(Squash(s))
    ensures s != "" && SlugChar(s[0]) ==> Squash(s)[0] != '-'
    decreases |s|
  {
    if s != "" {
      if SlugChar(s[0]) {
        SquashIsSlugText(s[1..]);
      } else {
        var rest := SkipRun(s[1..]);
        SkipRunStops(s[1..]);
        SquashIsSlugText(rest);
      }
    }
  }

  lemma {:induction false} SkipRunStops(s: string)
    ensures SkipRun(s) == "" || SlugChar(SkipRun(s)[0])
    ensures Letters(SkipRun(s)) == Letters(s)
  {
    if s != "" && !SlugChar(s[0]) {
      SkipRunStops(s[1..]);
    }
  }

  /** The letters and digits of s. */
  function Letters(s: string): string {
    if s == "" then "" else (if SlugChar(s[0]) then [s[0]] else "") + Letters(s[1..])
  }

  lemma {:induction false} LettersAppend(s: string, t: string)
    ensures Letters(s + t) == Letters(s) + Letters(t)
  {
    hide SlugChar;
    if s == "" {
      assert s + t == t;
    } else {
      assert (s + t)[1..] == s[1..] + t;
      LettersAppend(s[1..], t);
      Regroup(if SlugChar(s[0]) then [s[0]] else "", Letters(s[1..]), Letters(t));
    }
  }

  lemma {:induction false} SquashKeepsLetters(s: string)
    ensures Letters(Squash(s)) == Letters(s)
    decreases |s|
  {
    if s != "" {
      if SlugChar(s[0]) {
        SquashKeepsLetters(s[1..]);
        assert Squash(s)[1..] == Squash(s[1..]);
      } else {
        var rest := SkipRun(s[1..]);
        SkipRunStops(s[1..]);
        SquashKeepsLetters(rest);
        assert Squash(s)[1..] == Squash(rest);
      }
    }
  }

  lemma {:induction false} TrimRightKeepsLetters(s: string)
    ensures Letters(TrimRight(s)) == Letters(s)
  {
    if s != "" && s[|s| - 1] == '-' {
      TrimRightKeepsLetters(s[..|s| - 1]);
      assert s == s[..|s| - 1] + "-";
      LettersAppend(s[..|s| - 1], "-");
      assert Letters("-") == "";
    }
  }

  lemma {:induction false} TrimLeftKeepsLetters(s: string)
    ensures Letters(TrimLeft(s)) == Letters(s)
  {
    if s != "" && s[0] == '-' {
      TrimLeftKeepsLetters(s[1..]);
    }
  }

  lemma SlugTextPart(s: string, i: nat, j: nat)
    requires SlugText(s) && i <= j <= |s|
    ensures SlugText(s[i..j])
  {
    var part := s[i..j];
    forall c | c in part ensures SlugChar(c) || c == '-' {
      assert c in s;
    }
    forall a, b | 0 <= a && b == a + 1 && b < |part| ensures part[a] != '-' || part[b] != '-' {
      assert part[a] == s[i + a] && part[b] == s[i + b];
    }
  }

  /** A slug is always well formed and within the cap; uncapped it keeps every letter and digit of the
      lower-cased name, in order, and capped a prefix of them. */
  lemma SlugifySound(name: string, maxLength: nat)
    requires maxLength >= 5
    ensures var slug := Slugify(name, maxLength);
      && Slug(slug) && |slug| <= maxLength
      && (Letters(Lower(name)) == "" ==> slug == "skill")
      && (Letters(Lower(name)) != "" ==> Letters(slug) <= Letters(Lower(name)))
      && (Letters(Lower(name)) != "" && |Squash(Lower(name))| <= maxLength ==> Letters(slug) == Letters(Lower(name)))
  {
    hide Slug, SlugText, Letters, Squash, Lower, TrimLeft, TrimRight;
    var text := Squash(Lower(name));
    var left := TrimLeft(text);
    var slug := TrimRight(left);
    SquashIsSlugText(Lower(name));
    SquashKeepsLetters(Lower(name));
    TrimLeftKeepsLetters(text);
    TrimRightKeepsLetters(left);
    SlugTextPart(text, |text| - |left|, |text|);
    SlugTextPart(left, 0, |slug|);
    assert text[|text| - |left|..] == text[|text| - |left|..|text|];
    assert left[..|slug|] == left[0..|slug|];
    TrimmedEnds(left);
    CapKeepsPrefix(slug, maxLength);
    SkillIsSlug();
    EmptyWithoutLetters(slug);
  }

  lemma TrimmedEnds(left: string)
    requires left != "" ==> left[0] != '-'
    ensures var slug := TrimRight(left); slug != "" ==> slug[0] != '-' && slug[|slug| - 1] != '-'
  {
  }

  lemma SkillIsSlug()
    ensures Slug("skill")
  {
  }

  lemma CapKeepsPrefix(slug: string, maxLength: nat)
    requires SlugText(slug) && (slug != "" ==> slug[0] != '-' && slug[|slug| - 1] != '-') && maxLength > 0
    ensures var capped := if |slug| > maxLength then TrimRight(slug[..maxLength]) else slug;
      && SlugText(capped) && (slug != "" ==> Slug(capped)) && |capped| <= maxLength
      && Letters(capped) <= Letters(slug)
  {
    if |slug| > maxLength {
      var cut := slug[..maxLength];
      var capped := TrimRight(cut);
      TrimRightKeepsLetters(cut);
      LettersOfFront(slug, maxLength);
      assert capped == slug[0..|capped|];
      SlugTextPart(slug, 0, |capped|);
      TrimRightKeepsHead(cut);
    }
  }

  lemma LettersOfFront(s: string, n: nat)
    requires n <= |s|
    ensures Letters(s[..n]) <= Letters(s)
  {
    hide Letters;
    LettersAppend(s[..n], s[n..]);
    assert s == s[..n] + s[n..];
  }

  lemma {:induction false} TrimRightKeepsHead(s: string)
    requires s != "" && s[0] != '-'
    ensures TrimRight(s) != "" && TrimRight(s)[0] == s[0]
  {
    if s[|s| - 1] == '-' {
      TrimRightKeepsHead(s[..|s| - 1]);
    }
  }

  // Text that starts with a letter or digit has one; text without any is empty once trimmed.
  lemma EmptyWithoutLetters(slug: string)
    requires SlugText(slug) && (slug != "" ==> slug[0] != '-')
    ensures Letters(slug) == "" <==> slug == ""
  {
    if slug != "" {
      assert slug[0] in slug;
    }
  }

  // --------------------------------------------------------- what a slug spells

  /** The maximal runs of lower-case letters and digits. */
  function Words(s: string): (words: seq<string>)
    ensures s != "" && ('a' <= s[0] <= 'z' || '0' <= s[0] <= '9') ==> words != []
  {
    if s == "" then []
    else if !('a' <= s[0] <= 'z' || '0' <= s[0] <= '9') then Words(s[1..])
    else if |s| > 1 && ('a' <= s[1] <= 'z' || '0' <= s[1] <= '9')
    then var rest := Words(s[1..]); [[s[0]] + rest[0]] + rest[1..]
    else [[s[0]]] + Words(s[1..])
  }

  /** s cut to at most n characters, less the hyphens at the cut. */
  ghost predicate CutTo(cut: string, s: string, n: nat) {
    && cut <= s && |cut| <= n && (cut == "" || cut[|cut| - 1] != '-')
    && forall i :: |cut| <= i < |s| && i < n ==> s[i] == '-'
  }

  function Joined(words: seq<string>): string { Text.JoinWith(words, "-") }

  /** A slug is the name's runs of letters and digits, lower-cased and joined by hyphens, cut at the cap; a name
      without any is called skill. */
  lemma SlugifySpelled(name: string, maxLength: nat)
    requires maxLength >= 1
    ensures var full := Text.JoinWith(Words(Lower(name)), "-");
      if full == "" then Slugify(name, maxLength) == "skill"
      else Slugify(name, maxLength) != "" && CutTo(Slugify(name, maxLength), full, maxLength)
  {
    var full := Joined(Words(Lower(name)));
    TrimmedSquash(Lower(name));
    WordsEnds(Lower(name));
    hide Words, Lower, Squash, TrimLeft, TrimRight, Text.JoinWith, SlugChar, CutTo;
    if full != "" && |full| > maxLength {
      TrimRightKeepsHead(full[..maxLength]);
      CutFurther(full, maxLength);
    } else if full != "" {
      CutMore(full, maxLength);
    }
  }

  lemma CutMore(s: string, n: nat)
    requires s != "" && s[|s| - 1] != '-' && |s| <= n
    ensures CutTo(s, s, n)
  {
  }

  lemma CutFurther(s: string, n: nat)
    requires n <= |s|
    ensures CutTo(TrimRight(s[..n]), s, n)
  {
    TrimRightCuts(s[..n]);
  }

  lemma {:induction false} TrimRightCuts(s: string)
    ensures CutTo(TrimRight(s), s, |s|)
  {
    if s != "" && s[|s| - 1] == '-' {
      TrimRightCuts(s[..|s| - 1]);
    }
  }

  lemma TrimmedSquash(s: string)
    ensures TrimRight(TrimLeft(Squash(s))) == Joined(Words(s))
  {
    SquashSpelled(s);
    WordsEnds(s);
    hide Words, Squash, TrimLeft, TrimRight, SlugChar, Joined;
    if Words(s) == [] {
      LoneDash();
    } else {
      TrimLead(!SlugChar(s[0]), Joined(Words(s)), !SlugChar(s[|s| - 1]));
      TrimTrail(Joined(Words(s)), !SlugChar(s[|s| - 1]));
    }
  }

  lemma LoneDash()
    ensures TrimRight(TrimLeft("-")) == TrimRight(TrimLeft("")) == ""
  {
    assert "-"[1..] == "";
  }

  function Dash(b: bool): string { if b then "-" else "" }

  lemma TrimLead(lead: bool, full: string, trail: bool)
    requires full != "" && full[0] != '-'
    ensures TrimLeft(Dash(lead) + (full + Dash(trail))) == full + Dash(trail)
  {
    var right := full + Dash(trail);
    assert right[0] == full[0];
    assert TrimLeft(right) == right;
    if lead {
      assert ("-" + right)[1..] == right;
    } else {
      assert "" + right == right;
    }
  }

  lemma TrimTrail(full: string, trail: bool)
    requires full != "" && full[|full| - 1] != '-'
    ensures TrimRight(full + Dash(trail)) == full
  {
    assert TrimRight(full) == full;
    if trail {
      assert (full + "-")[..|full|] == full;
    } else {
      assert full + "" == full;
    }
  }

  // Squashing gives the words joined, with a hyphen at an end where the text has other characters.
  lemma {:induction false} SquashSpelled(s: string)
    ensures if Words(s) == [] then Squash(s) == Dash(s != "")
            else s != "" && Squash(s) == Dash(!SlugChar(s[0])) + (Joined(Words(s)) + Dash(!SlugChar(s[|s| - 1])))
    ensures s != "" && SlugChar(s[0]) ==> Words(s) != []
    decreases |s|
  {
    if s != "" {
      var rest := s[1..];
      if SlugChar(s[0]) {
        SquashSpelled(rest);
        OneMoreChar(s);
        hide Words, SlugChar, Joined, Squash;
        assert Squash(s) == [s[0]] + Squash(rest) by { SquashLetter(s); }
        JoinedOnto(s);
      } else {
        var after := SkipRun(rest);
        SkipRunWords(rest);
        SquashSpelled(after);
        hide SkipRun, Joined;
        assert Squash(s) == "-" + Squash(after);
        if Words(s) != [] {
          assert s[|s| - 1] == after[|after| - 1];
          assert Dash(false) + (Joined(Words(s)) + Dash(!SlugChar(s[|s| - 1])))
              == Joined(Words(s)) + Dash(!SlugChar(s[|s| - 1]));
        }
      }
    }
  }

  lemma SquashLetter(s: string)
    requires s != "" && SlugChar(s[0])
    ensures Squash(s) == [s[0]] + Squash(s[1..])
  {
  }

  lemma JoinedOnto(s: string)
    requires s != "" && SlugChar(s[0]) && Words(s) != []
    requires var rest := s[1..];
      && Joined(Words(s)) == [s[0]] +
           (if Words(rest) == [] then "" else Dash(!SlugChar(rest[0])) + Joined(Words(rest)))
      && Squash(s) == [s[0]] + Squash(rest)
      && (Words(rest) == [] ==> Squash(rest) == Dash(rest != "") && (rest != "" ==> !SlugChar(rest[|rest| - 1])))
      && (Words(rest) != [] ==> rest != "")
      && (Words(rest) != [] ==>
           Squash(rest) == Dash(!SlugChar(rest[0])) + (Joined(Words(rest)) + Dash(!SlugChar(rest[|rest| - 1]))))
    ensures Squash(s) == Dash(!SlugChar(s[0])) + (Joined(Words(s)) + Dash(!SlugChar(s[|s| - 1])))
  {
    hide Words, SlugChar, Joined, Squash;
    var rest := s[1..];
    assert rest != "" ==> rest[|rest| - 1] == s[|s| - 1];
  }

  // A letter or digit starts a word, or joins the one that follows it at once.
  lemma OneMoreChar(s: string)
    requires s != "" && SlugChar(s[0])
    ensures Words(s) != [] && (Words(s[1..]) != [] ==> s[1..] != "")
    ensures Joined(Words(s)) == [s[0]] +
      (if Words(s[1..]) == [] then "" else Dash(!SlugChar(s[1..][0])) + Joined(Words(s[1..])))
    ensures Words(s[1..]) == [] && s[1..] != "" ==> !SlugChar(s[|s| - 1])
  {
    var rest := s[1..];
    var words := Words(rest);
    NoWords(rest);
    if words != [] && SlugChar(rest[0]) {
      assert Words(s) == [[s[0]] + words[0]] + words[1..];
      OntoFirst(s[0], words);
    } else {
      assert Words(s) == [[s[0]]] + words;
      NewFirst(s[0], words);
    }
  }

  lemma {:induction false} NoWords(s: string)
    ensures Words(s) == [] && s != "" ==> !SlugChar(s[|s| - 1])
  {
    if s != "" {
      NoWords(s[1..]);
    }
  }

  lemma OntoFirst(c: char, words: seq<string>)
    requires words != []
    ensures Joined([[c] + words[0]] + words[1..]) == [c] + (Dash(false) + Joined(words))
  {
    var onto := [[c] + words[0]] + words[1..];
    assert onto[1..] == words[1..] && onto[0] == [c] + words[0];
    assert Dash(false) + Joined(words) == Joined(words);
    if |words| > 1 {
      var rest := "-" + Text.JoinWith(words[1..], "-");
      assert Joined(onto) == ([c] + words[0]) + rest;
      assert Joined(words) == words[0] + rest;
      Regroup([c], words[0], rest);
    }
  }

  lemma NewFirst(c: char, words: seq<string>)
    ensures Joined([[c]] + words) == [c] + (if words == [] then "" else Dash(true) + Joined(words))
  {
    assert ([[c]] + words)[1..] == words;
    assert [c] + "" == [c];
  }

  lemma {:induction false} SkipRunWords(s: string)
    ensures Words(SkipRun(s)) == Words(s)
    ensures SkipRun(s) == "" || SlugChar(SkipRun(s)[0])
    ensures SkipRun(s) == s[|s| - |SkipRun(s)|..]
    ensures SkipRun(s) == "" && s != "" ==> !SlugChar(s[|s| - 1])
  {
    if s != "" && !SlugChar(s[0]) {
      SkipRunWords(s[1..]);
      assert Words(s) == Words(s[1..]) && SkipRun(s) == SkipRun(s[1..]);
      hide Words, SkipRun, SlugChar;
    }
  }

  lemma {:induction false} WordsEnds(s: string)
    ensures var full := Joined(Words(s));
      && (full == "" <==> Words(s) == [])
      && (full != "" ==> full[0] != '-' && full[|full| - 1] != '-')
  {
    WordsAreWords(s);
    JoinEnds(Words(s));
  }

  lemma {:induction false} WordsAreWords(s: string)
    ensures forall w :: w in Words(s) ==> w != "" && '-' !in w
  {
    if s != "" {
      var words := Words(s[1..]);
      WordsAreWords(s[1..]);
      if words != [] {
        assert words[0] in words;
      }
      assert forall w :: w in Words(s) ==> w in words || w == [s[0]] || (words != [] && w == [s[0]] + words[0]);
    }
  }

  lemma {:induction false} JoinEnds(words: seq<string>)
    requires forall w :: w in words ==> w != "" && '-' !in w
    ensures var full := Text.JoinWith(words, "-");
      && (full == "" <==> words == [])
      && (full != "" ==> full[0] != '-' && full[|full| - 1] != '-')
  {
    if |words| == 1 {
      assert words[0] in words;
    } else if |words| > 1 {
      var rest := words[1..];
      assert forall w :: w in rest ==> w in words;
      JoinEnds(rest);
      assert words[0] in words;
    }
  }

  /** Two characters outside ASCII have lower-case forms that matter to a slug. */
  lemma LowerBeyondAscii()
    ensures Lower("\U{212A}") == "k" && Lower("\U{0130}") == "i\U{0307}"
  {
  }

  /** ASCII names keep every character but capitals, which become the small letters. */
  lemma {:induction false} LowerAscii(s: string)
    requires forall c :: c in s ==> c < '\U{80}'
    ensures |Lower(s)| == |s|
    ensures forall i :: 0 <= i < |s| ==>
      Lower(s)[i] as int == if 'A' <= s[i] <= 'Z' then s[i] as int + 32 else s[i] as int
  {
    if s != "" {
      assert s[0] in s && forall c :: c in s[1..] ==> c in s;
      LowerAscii(s[1..]);
    }
  }

  /** A well-formed slug within the cap is its own slug. */
  lemma SlugifyIdempotent(slug: string, maxLength: nat)
    requires Slug(slug) && |slug| <= maxLength
    ensures Slugify(slug, maxLength) == slug
  {
    LowerKeeps(slug);
    SquashKeeps(slug);
  }

  lemma {:induction false} LowerKeeps(s: string)
    requires forall c :: c in s ==> SlugChar(c) || c == '-'
    ensures Lower(s) == s
  {
    if s != "" {
      assert s[0] in s;
      LowerKeeps(s[1..]);
    }
  }

  lemma {:induction false} SquashKeeps(s: string)
    requires SlugText(s)
    ensures Squash(s) == s
  {
    if s != "" {
      assert s[0] in s;
      SlugTextPart(s, 1, |s|);
      assert s[1..|s|] == s[1..];
      SquashKeeps(s[1..]);
      if s[0] == '-' && |s| > 1 {
        assert s[1] != '-' && s[1] in s;
      }
    }
  }

  // ---------------------------------------------------------------- allocation

  function Suffix(n: nat): string { "-" + Numerals.Decimal(n) }

  predicate Fits(n: nat, maxLength: nat) { |Suffix(n)| <= maxLength }

  /** The base, cut to leave room, with the n-th suffix. */
  function Candidate(base: string, n: nat, maxLength: nat): string
    requires Fits(n, maxLength)
  {
    var room := maxLength - |Suffix(n)|;
    TrimRight(if room < |base| then base[..room] else base) + Suffix(n)
  }

  lemma {:induction false} DecimalGrows(m: nat, n: nat)
    requires m <= n
    ensures |Numerals.Decimal(m)| <= |Numerals.Decimal(n)|
  {
    if m >= 10 {
      DecimalGrows(m / 10, n / 10);
    }
  }

  lemma FitsBelow(m: nat, n: nat)
    requires m <= n && Fits(n, SLUG_MAX_LENGTH)
    ensures Fits(m, SLUG_MAX_LENGTH)
  {
    DecimalGrows(m, n);
  }

  /** slug is base, cut to leave room for it, with the suffix for n. */
  ghost predicate Numbered(slug: string, base: string, n: nat, maxLength: nat) {
    var suffix := "-" + Numerals.Decimal(n);
    && |suffix| <= |slug| <= maxLength && slug[|slug| - |suffix|..] == suffix
    && CutTo(slug[..|slug| - |suffix|], base, maxLength - |suffix|)
  }

  /** Exactly one text is the base with a given number. */
  lemma CandidateIsNumbered(base: string, n: nat, maxLength: nat, slug: string)
    requires Fits(n, maxLength)
    ensures Numbered(slug, base, n, maxLength) <==> slug == Candidate(base, n, maxLength)
  {
    hide TrimRight;
    var suffix := Suffix(n);
    var room := maxLength - |suffix|;
    var cut := if room < |base| then base[..room] else base;
    var stem := TrimRight(cut);
    TrimRightCuts(cut);
    assert stem <= base && CutTo(stem, base, room);
    assert Candidate(base, n, maxLength) == stem + suffix;
    assert (stem + suffix)[..|stem|] == stem && (stem + suffix)[|stem|..] == suffix;
    hide CutTo, Candidate;
    if Numbered(slug, base, n, maxLength) {
      var front := slug[..|slug| - |suffix|];
      assert slug == front + suffix;
      CutUnique(front, stem, base, room);
    }
  }

  lemma CutUnique(a: string, b: string, s: string, n: nat)
    requires CutTo(a, s, n) && CutTo(b, s, n)
    ensures a == b
  {
    LongerCut(a, b, s, n);
    LongerCut(b, a, s, n);
    assert a == s[..|a|] && b == s[..|b|];
  }

  lemma LongerCut(a: string, b: string, s: string, n: nat)
    requires CutTo(a, s, n) && CutTo(b, s, n)
    ensures |b| <= |a|
  {
    CutEnd(b, s, n);
  }

  lemma CutEnd(cut: string, s: string, n: nat)
    requires CutTo(cut, s, n)
    ensures cut != "" ==> |cut| <= |s| && s[|cut| - 1] != '-'
  {
  }

  /** Candidates for different numbers differ. */
  lemma CandidateInjective(base: string, m: nat, n: nat, maxLength: nat)
    requires Fits(m, maxLength) && Fits(n, maxLength)
    requires Candidate(base, m, maxLength) == Candidate(base, n, maxLength)
    ensures m == n
  {
    var a, b := Numerals.Decimal(m), Numerals.Decimal(n);
    var s := Candidate(base, m, maxLength);
    TailAfterHyphen(s, a);
    TailAfterHyphen(s, b);
    assert s[|s| - |a|..] == a && s[|s| - |b|..] == b;
    Numerals.DecimalInjective(m, n);
  }

  // What follows the last hyphen is determined by the text.
  lemma TailAfterHyphen(s: string, digits: string)
    requires |s| > |digits| && s[|s| - |digits| - 1..] == "-" + digits
    requires forall c :: c in digits ==> Numerals.IsDigit(c)
    ensures s[|s| - |digits|..] == digits
    ensures s[|s| - |digits| - 1] == '-' && forall i :: |s| - |digits| <= i < |s| ==> s[i] != '-'
  {
    forall i | |s| - |digits| <= i < |s| ensures s[i] != '-' {
      assert s[i] == ("-" + digits)[i - (|s| - |digits| - 1)];
      assert s[i] in digits;
    }
  }

  predicate Taken(base: string, used: set<string>, n: nat, maxLength: nat) {
    Fits(n, maxLength) && Candidate(base, n, maxLength) in used
  }

  /** Numbers 2 to n can only all be taken when there are that many used slugs. */
  lemma TakenBound(base: string, used: set<string>, n: nat, maxLength: nat)
    requires n >= 1 && forall m :: 2 <= m <= n ==> Taken(base, used, m, maxLength)
    ensures n - 1 <= |used|
  {
    hide Candidate, Fits;
    if n - 1 > |used| {
      var tried := seq(n - 1, i requires 0 <= i < n - 1 =>
        if Taken(base, used, i + 2, maxLength) then Candidate(base, i + 2, maxLength) else "");
      forall x | x in tried ensures x in used {
        var i :| 0 <= i < |tried| && tried[i] == x;
        assert Taken(base, used, i + 2, maxLength);
      }
      var i, j := Pigeonhole(tried, used);
      assert Taken(base, used, i + 2, maxLength) && Taken(base, used, j + 2, maxLength);
      CandidateInjective(base, i + 2, j + 2, maxLength);
      assert false;
    }
  }

  /** The first free candidate from n on. */
  function Probe(base: string, used: set<string>, n: nat, maxLength: nat): string
    requires n >= 2 && Fits(|used| + 2, maxLength)
    requires forall m :: 2 <= m < n ==> Taken(base, used, m, maxLength)
    decreases |used| + 2 - n
  {
    TakenBound(base, used, n - 1, maxLength);
    DecimalGrows(n, |used| + 2);
    if Candidate(base, n, maxLength) !in used then Candidate(base, n, maxLength)
    else
      TakenBound(base, used, n, maxLength);
      Probe(base, used, n + 1, maxLength)
  }

  /** The base if it is free, otherwise the first free candidate. */
  function FirstFree(base: string, used: set<string>, maxLength: nat): string
    requires Fits(|used| + 2, maxLength)
  {
    if base !in used then base else Probe(base, used, 2, maxLength)
  }

  method AllocateSlug(base: string, used: set<string>, maxLength: nat) returns (slug: string, tries: nat)
    requires Fits(|used| + 2, maxLength)
    ensures slug == FirstFree(base, used, maxLength)
    ensures tries <= |used| + 1
  {
    if base !in used {
      return base, 0;
    }
    var n := 2;
    while true
      invariant n >= 2 && forall m :: 2 <= m < n ==> Taken(base, used, m, maxLength)
      invariant FirstFree(base, used, maxLength) == Probe(base, used, n, maxLength)
      decreases |used| + 2 - n
    {
      TakenBound(base, used, n - 1, maxLength);
      DecimalGrows(n, |used| + 2);
      var candidate := Candidate(base, n, maxLength);
      if candidate !in used {
        return candidate, n - 1;
      }
      TakenBound(base, used, n, maxLength);
      n := n + 1;
    }
  }

  /** What is allocated was free, fits the cap, and is a slug when the base is one and a letter of it fits. */
  lemma {:induction false} ProbeSound(base: string, used: set<string>, n: nat, maxLength: nat)
    requires n >= 2 && Fits(|used| + 2, maxLength)
    requires forall m :: 2 <= m < n ==> Taken(base, used, m, maxLength)
    ensures var slug := Probe(base, used, n, maxLength);
      && slug !in used && slug != "" && |slug| <= maxLength
      && (Slug(base) && |Suffix(|used| + 2)| < maxLength ==> Slug(slug))
    decreases |used| + 2 - n
  {
    hide Slug, Candidate;
    TakenBound(base, used, n - 1, maxLength);
    DecimalGrows(n, |used| + 2);
    if Candidate(base, n, maxLength) in used {
      TakenBound(base, used, n, maxLength);
      ProbeSound(base, used, n + 1, maxLength);
    } else {
      CandidateShape(base, n, maxLength);
    }
  }

  lemma CandidateShape(base: string, n: nat, maxLength: nat)
    requires Fits(n, maxLength)
    ensures var slug := Candidate(base, n, maxLength);
      && slug != "" && |slug| <= maxLength && (Slug(base) && |Suffix(n)| < maxLength ==> Slug(slug))
  {
    if Slug(base) && |Suffix(n)| < maxLength {
      var room := maxLength - |Suffix(n)|;
      var cut := if room < |base| then base[..room] else base;
      var stem := TrimRight(cut);
      TrimRightKeepsHead(cut);
      assert stem == base[0..|stem|];
      SlugTextPart(base, 0, |stem|);
      JoinSlug(stem, Numerals.Decimal(n));
    }
  }

  lemma JoinSlug(stem: string, digits: string)
    requires Slug(stem) && digits != "" && forall c :: c in digits ==> Numerals.IsDigit(c)
    ensures Slug(stem + ("-" + digits))
  {
    var s := stem + ("-" + digits);
    forall c | c in s ensures SlugChar(c) || c == '-' {
      assert c in stem || c == '-' || c in digits;
    }
    forall i, j | 0 <= i && j == i + 1 && j < |s| ensures s[i] != '-' || s[j] != '-' {
      if i < |stem| {
        assert s[i] == stem[i];
      } else if i > |stem| {
        assert s[i] == digits[i - |stem| - 1] && s[i] in digits;
      } else {
        assert s[j] == digits[0] && s[j] in digits;
      }
    }
    assert s[|s| - 1] == digits[|digits| - 1] && digits[|digits| - 1] in digits;
  }

  // -------------------------------------------------------------------- export

  /** The skill row as far as export looks at it; empty means no active member. */
  datatype Skill = Skill(name: Option<string>, empty: bool)

  datatype Exported = Exported(id: nat, slug: string)

  /** The skill table afterwards, what was written and skipped, and the first id that does not exist. */
  datatype Outcome = Outcome(skills: map<nat, Skill>, exported: seq<Exported>, skipped: seq<nat>, missing: Option<nat>)

  function Named(skill: Skill, id: nat, namer: Option<nat -> string>): Skill {
    if skill.name.None? && namer.Some? then skill.(name := Some(namer.value(id))) else skill
  }

  function Base(skill: Skill, id: nat): string {
    if skill.name.Some? then Slugify(skill.name.value, SLUG_MAX_LENGTH) else "module-" + Numerals.Decimal(id)
  }

  function Slugs(exported: seq<Exported>): (slugs: set<string>)
    ensures |slugs| <= |exported|
  {
    if exported == [] then {} else Slugs(exported[..|exported| - 1]) + {exported[|exported| - 1].slug}
  }

  function ExportNext(before: Outcome, id: nat, namer: Option<nat -> string>): Outcome
    requires Fits(|before.exported| + 2, SLUG_MAX_LENGTH)
  {
    if before.missing.Some? then before
    else if id !in before.skills then before.(missing := Some(id))
    else
      var skill := Named(before.skills[id], id, namer);
      var named := before.(skills := before.skills[id := skill]);
      if skill.empty then named.(skipped := named.skipped + [id])
      else
        var used := Slugs(before.exported);
        DecimalGrows(|used| + 2, |before.exported| + 2);
        named.(exported := named.exported + [Exported(id, FirstFree(Base(skill, id), used, SLUG_MAX_LENGTH))])
  }

  /** Exporting in a given order of ids. */
  function Export(skills: map<nat, Skill>, order: seq<nat>, namer: Option<nat -> string>): (out: Outcome)
    requires Fits(|order| + 2, SLUG_MAX_LENGTH)
    ensures |out.exported| <= |order|
  {
    if order == [] then Outcome(skills, [], [], None)
    else
      DecimalGrows(|order| + 1, |order| + 2);
      var before := Export(skills, order[..|order| - 1], namer);
      DecimalGrows(|before.exported| + 2, |order| + 2);
      ExportNext(before, order[|order| - 1], namer)
  }

  /** The ids are rows of a table with 64-bit keys. */
  predicate RowIds(ids: set<nat>) { forall id :: id in ids ==> id <= Numerals.INT64_MAX }

  /** One id of the loop: the row is named if need be, and exported under a free slug or skipped. */
  method ExportOne(before: Outcome, used: set<string>, id: nat, namer: Option<nat -> string>)
    returns (out: Outcome, slugs: set<string>)
    requires before.missing.None? && used == Slugs(before.exported)
    requires Fits(|used| + 2, SLUG_MAX_LENGTH) && Fits(|before.exported| + 2, SLUG_MAX_LENGTH)
    ensures out == ExportNext(before, id, namer) && slugs == Slugs(out.exported)
    ensures out.missing.Some? <==> id !in before.skills
    ensures |out.exported| <= |before.exported| + 1
  {
    hide FirstFree, Base, Slugs, Fits;
    out, slugs := before, used;
    if id !in out.skills {
      out := out.(missing := Some(id));
      return;
    }
    var skill := out.skills[id];
    if skill.name.None? && namer.Some? {
      skill := skill.(name := Some(namer.value(id)));
      out := out.(skills := out.skills[id := skill]);
    }
    assert out.skills == before.skills[id := skill];
    if skill.empty {
      out := out.(skipped := out.skipped + [id]);
    } else {
      var slug, tries := AllocateSlug(Base(skill, id), used, SLUG_MAX_LENGTH);
      SlugsAppend(out.exported, Exported(id, slug));
      slugs := used + {slug};
      out := out.(exported := out.exported + [Exported(id, slug)]);
    }
  }

  /** However the caller lists them, the ids are exported in ascending order, each once. */
  method ExportSkills(skills: map<nat, Skill>, ids: seq<nat>, namer: Option<nat -> string>) returns (out: Outcome)
    requires RowIds(Elements(ids))
    ensures var order := Ordering.SortedIds(Elements(ids));
      Fits(|order| + 2, SLUG_MAX_LENGTH) && out == Export(skills, order, namer)
  {
    hide Export, ExportNext, Exporting, Slugs, Fits, RowIds;
    var order := Ordering.SortedIds(Elements(ids));
    RowOrder(order);
    RowIdsFit(order);
    ExportStarts(skills, order, namer);
    out := Outcome(skills, [], [], None);
    var used: set<string> := {};
    for i := 0 to |order|
      invariant Exporting(skills, order, namer, i, out, used)
    {
      ghost var before := out;
      ExportGoesOn(skills, order, namer, i, out, used);
      out, used := ExportOne(out, used, order[i], namer);
      ExportWent(skills, order, namer, i, before, out, used);
      if out.missing.Some? {
        return;
      }
    }
    ExportEnds(skills, order, namer, out, used);
  }

  /** The first i ids are exported, none of them missing. */
  ghost predicate Exporting(skills: map<nat, Skill>, order: seq<nat>, namer: Option<nat -> string>, i: nat,
                            out: Outcome, used: set<string>)
    requires Fits(|order| + 2, SLUG_MAX_LENGTH) && i <= |order|
  {
    FitsBelow(i + 2, |order| + 2);
    && out == Export(skills, order[..i], namer) && out.missing.None?
    && used == Slugs(out.exported) && |out.exported| <= i
  }

  lemma ExportStarts(skills: map<nat, Skill>, order: seq<nat>, namer: Option<nat -> string>)
    requires Fits(|order| + 2, SLUG_MAX_LENGTH)
    ensures Exporting(skills, order, namer, 0, Outcome(skills, [], [], None), {})
  {
    hide Export, Slugs, Fits;
    EmptyExport(skills, namer);
    assert order[..0] == [];
  }

  lemma ExportGoesOn(skills: map<nat, Skill>, order: seq<nat>, namer: Option<nat -> string>, i: nat,
                     out: Outcome, used: set<string>)
    requires Fits(|order| + 2, SLUG_MAX_LENGTH) && i < |order|
    requires Exporting(skills, order, namer, i, out, used)
    ensures out.missing.None? && used == Slugs(out.exported)
    ensures Fits(|used| + 2, SLUG_MAX_LENGTH) && Fits(|out.exported| + 2, SLUG_MAX_LENGTH)
  {
    hide Export, Slugs, Fits;
    OneMoreFits(i, order);
    SlugCount(out.exported, i);
  }

  lemma ExportWent(skills: map<nat, Skill>, order: seq<nat>, namer: Option<nat -> string>, i: nat,
                   before: Outcome, out: Outcome, used: set<string>)
    requires Fits(|order| + 2, SLUG_MAX_LENGTH) && i < |order|
    requires Exporting(skills, order, namer, i, before, Slugs(before.exported))
    requires Fits(|before.exported| + 2, SLUG_MAX_LENGTH) && out == ExportNext(before, order[i], namer)
    requires used == Slugs(out.exported) && |out.exported| <= |before.exported| + 1
    ensures if out.missing.Some? then out == Export(skills, order, namer)
            else Exporting(skills, order, namer, i + 1, out, used)
  {
    hide Export, ExportNext, Slugs, Fits;
    OneMoreFits(i, order);
    StepExport(skills, order[..i + 1], namer);
    assert order[..i + 1][..i] == order[..i];
    if out.missing.Some? {
      StoppedExport(skills, order, i + 1, namer);
    }
  }

  lemma ExportEnds(skills: map<nat, Skill>, order: seq<nat>, namer: Option<nat -> string>, out: Outcome,
                   used: set<string>)
    requires Fits(|order| + 2, SLUG_MAX_LENGTH) && Exporting(skills, order, namer, |order|, out, used)
    ensures out == Export(skills, order, namer)
  {
    hide Export, Slugs, Fits;
    assert order[..|order|] == order;
  }

  lemma SlugCount(exported: seq<Exported>, i: nat)
    requires |exported| <= i && Fits(i + 2, SLUG_MAX_LENGTH)
    ensures Fits(|Slugs(exported)| + 2, SLUG_MAX_LENGTH) && Fits(|exported| + 2, SLUG_MAX_LENGTH)
  {
    hide Fits, Slugs;
    FitsBelow(|Slugs(exported)| + 2, i + 2);
    FitsBelow(|exported| + 2, i + 2);
  }

  lemma OneMoreFits(i: nat, order: seq<nat>)
    requires Fits(|order| + 2, SLUG_MAX_LENGTH)
    ensures i <= |order| ==> Fits(i + 2, SLUG_MAX_LENGTH)
    ensures i < |order| ==> Fits(i + 3, SLUG_MAX_LENGTH)
  {
    if i <= |order| {
      FitsBelow(i + 2, |order| + 2);
    }
    if i < |order| {
      FitsBelow(i + 3, |order| + 2);
    }
  }

  lemma RowOrder(order: seq<nat>)
    requires RowIds(Elements(order))
    ensures forall id :: id in order ==> id <= Numerals.INT64_MAX
  {
    assert forall id :: id in order ==> id in Elements(order);
  }

  lemma EmptyExport(skills: map<nat, Skill>, namer: Option<nat -> string>)
    ensures Fits(2, SLUG_MAX_LENGTH) && Export(skills, [], namer) == Outcome(skills, [], [], None) && Slugs([]) == {}
  {
    assert Numerals.Decimal(2) == "2";
  }

  lemma SlugsAppend(exported: seq<Exported>, e: Exported)
    ensures Slugs(exported + [e]) == Slugs(exported) + {e.slug}
  {
    assert (exported + [e])[..|exported|] == exported;
  }

  lemma StepExport(skills: map<nat, Skill>, order: seq<nat>, namer: Option<nat -> string>)
    requires order != [] && Fits(|order| + 2, SLUG_MAX_LENGTH)
    ensures Fits(|order| + 1, SLUG_MAX_LENGTH)
    ensures var before := Export(skills, order[..|order| - 1], namer);
      && Fits(|before.exported| + 2, SLUG_MAX_LENGTH)
      && Export(skills, order, namer) == ExportNext(before, order[|order| - 1], namer)
  {
    DecimalGrows(|order| + 1, |order| + 2);
    DecimalGrows(|Export(skills, order[..|order| - 1], namer).exported| + 2, |order| + 2);
  }

  lemma {:induction false} StoppedExport(skills: map<nat, Skill>, order: seq<nat>, i: nat, namer: Option<nat -> string>)
    requires i <= |order| && Fits(|order| + 2, SLUG_MAX_LENGTH) && Fits(i + 2, SLUG_MAX_LENGTH)
    requires Export(skills, order[..i], namer).missing.Some?
    ensures Export(skills, order, namer) == Export(skills, order[..i], namer)
  {
    if i == |order| {
      assert order[..i] == order;
    } else {
      StepExport(skills, order, namer);
      assert order[..|order| - 1][..i] == order[..i];
      StoppedExport(skills, order[..|order| - 1], i, namer);
    }
  }

  // ------------------------------------------------------- room for the suffixes

  function Pow10(k: nat): nat { if k == 0 then 1 else 10 * Pow10(k - 1) }

  lemma PowersOfTen()
    ensures Numerals.INT64_MAX < Pow10(19) && Numerals.INT64_MAX + 3 < Pow10(20)
  {
    assert Pow10(2) == 100;
    assert Pow10(4) == 10000;
    assert Pow10(6) == 1000000;
    assert Pow10(8) == 100000000;
    assert Pow10(10) == 10000000000;
    assert Pow10(12) == 1000000000000;
    assert Pow10(14) == 100000000000000;
    assert Pow10(16) == 10000000000000000;
    assert Pow10(18) == 1000000000000000000;
  }

  lemma {:induction false} DecimalLength(n: nat, k: nat)
    requires k >= 1 && n < Pow10(k)
    ensures |Numerals.Decimal(n)| <= k
  {
    if n >= 10 {
      assert k > 1;
      assert n / 10 < Pow10(k - 1);
      DecimalLength(n / 10, k - 1);
    }
  }

  lemma {:induction false} AscendingBound(order: seq<nat>, i: nat)
    requires i < |order| && forall j, k :: 0 <= j < k < |order| ==> order[j] < order[k]
    ensures i <= order[i]
  {
    if i > 0 {
      AscendingBound(order, i - 1);
    }
  }

  lemma RowIdsFit(order: seq<nat>)
    requires forall j, k :: 0 <= j < k < |order| ==> order[j] < order[k]
    requires forall id :: id in order ==> id <= Numerals.INT64_MAX
    ensures Fits(|order| + 2, SLUG_MAX_LENGTH) && |Suffix(|order| + 2)| < SLUG_MAX_LENGTH
  {
    if order != [] {
      AscendingBound(order, |order| - 1);
      assert order[|order| - 1] in order;
    }
    PowersOfTen();
    DecimalLength(|order| + 2, 20);
  }

  // ------------------------------------------------------------------ theorems

  ghost predicate GoodSlugs(exported: seq<Exported>) {
    && (forall i :: 0 <= i < |exported| ==> Slug(exported[i].slug) && |exported[i].slug| <= 64)
    && (forall i, j :: 0 <= i < j < |exported| ==> exported[i].slug != exported[j].slug)
  }

  lemma BaseIsSlug(skill: Skill, id: nat)
    requires id <= Numerals.INT64_MAX
    ensures Slug(Base(skill, id)) && |Base(skill, id)| <= SLUG_MAX_LENGTH
  {
    if skill.name.Some? {
      SlugifySound(skill.name.value, SLUG_MAX_LENGTH);
    } else {
      PowersOfTen();
      DecimalLength(id, 19);
      ModuleIsSlug();
      JoinSlug("module", Numerals.Decimal(id));
      assert "module-" == "module" + "-";
      assert ("module" + "-") + Numerals.Decimal(id) == "module" + ("-" + Numerals.Decimal(id));
    }
  }

  lemma ModuleIsSlug()
    ensures Slug("module")
  {
  }

  lemma {:induction false} SlugsHas(exported: seq<Exported>, i: nat)
    requires i < |exported|
    ensures exported[i].slug in Slugs(exported)
  {
    if i < |exported| - 1 {
      SlugsHas(exported[..|exported| - 1], i);
    }
  }

  lemma FirstFreeSound(base: string, used: set<string>)
    requires Slug(base) && |base| <= SLUG_MAX_LENGTH
    requires Fits(|used| + 2, SLUG_MAX_LENGTH) && |Suffix(|used| + 2)| < SLUG_MAX_LENGTH
    ensures var slug := FirstFree(base, used, SLUG_MAX_LENGTH);
      slug !in used && Slug(slug) && |slug| <= SLUG_MAX_LENGTH && (base !in used ==> slug == base)
  {
    if base in used {
      ProbeSound(base, used, 2, SLUG_MAX_LENGTH);
    }
  }

  lemma {:induction false} ExportIsGood(skills: map<nat, Skill>, order: seq<nat>, namer: Option<nat -> string>)
    requires Fits(|order| + 2, SLUG_MAX_LENGTH) && |Suffix(|order| + 2)| < SLUG_MAX_LENGTH
    requires forall id :: id in order ==> id <= Numerals.INT64_MAX
    ensures GoodSlugs(Export(skills, order, namer).exported)
  {
    if order != [] {
      var init, id := order[..|order| - 1], order[|order| - 1];
      StepExport(skills, order, namer);
      DecimalGrows(|order| + 1, |order| + 2);
      assert id in order && forall x :: x in init ==> x in order;
      ExportIsGood(skills, init, namer);
      NextIsGood(Export(skills, init, namer), id, namer, |order|);
    }
  }

  lemma NextIsGood(before: Outcome, id: nat, namer: Option<nat -> string>, n: nat)
    requires GoodSlugs(before.exported) && |before.exported| <= n && id <= Numerals.INT64_MAX
    requires Fits(n + 2, SLUG_MAX_LENGTH) && |Suffix(n + 2)| < SLUG_MAX_LENGTH
      && Fits(|before.exported| + 2, SLUG_MAX_LENGTH)
    ensures GoodSlugs(ExportNext(before, id, namer).exported)
  {
    hide Slug, Base, FirstFree, Slugs, Named;
    if before.missing.None? && id in before.skills && !Named(before.skills[id], id, namer).empty {
      var base, used := Base(Named(before.skills[id], id, namer), id), Slugs(before.exported);
      BaseIsSlug(Named(before.skills[id], id, namer), id);
      DecimalGrows(|used| + 2, |before.exported| + 2);
      DecimalGrows(|used| + 2, n + 2);
      FirstFreeSound(base, used);
      forall i | 0 <= i < |before.exported| ensures before.exported[i].slug in used {
        SlugsHas(before.exported, i);
      }
    }
  }

  /** For every table and every list of ids: the exported slugs are well formed, within the cap and pairwise
      distinct; ids listed in another order or repeatedly give the same export. */
  lemma ExportSound(skills: map<nat, Skill>, ids: seq<nat>, others: seq<nat>, namer: Option<nat -> string>)
    requires RowIds(Elements(ids)) && Elements(others) == Elements(ids)
    ensures var order := Ordering.SortedIds(Elements(ids));
      && Ordering.SortedIds(Elements(others)) == order
      && Fits(|order| + 2, SLUG_MAX_LENGTH) && GoodSlugs(Export(skills, order, namer).exported)
  {
    var order := Ordering.SortedIds(Elements(ids));
    assert forall id :: id in order ==> id in Elements(order);
    RowIdsFit(order);
    ExportIsGood(skills, order, namer);
  }

  /** Every listed id is exported or skipped, each once, unless one does not exist. */
  lemma {:induction false} ExportPartitions(skills: map<nat, Skill>, order: seq<nat>, namer: Option<nat -> string>)
    requires Fits(|order| + 2, SLUG_MAX_LENGTH)
    ensures var out := Export(skills, order, namer);
      && (out.missing.None? <==> forall id :: id in order ==> id in skills)
      && out.skills.Keys == skills.Keys
      && (out.missing.None? ==> multiset(Ids(out.exported)) + multiset(out.skipped) == multiset(order))
  {
    if order == [] {
      assert Ids([]) == [];
    } else {
      hide Export, Fits, ExportNext, Ids;
      var init, id := order[..|order| - 1], order[|order| - 1];
      StepExport(skills, order, namer);
      ExportPartitions(skills, init, namer);
      LastOnce(order);
      NextPartitions(Export(skills, init, namer), id, namer);
    }
  }

  /** How far an export gets: to the first id that does not exist. Of the ids before it, those with an active
      member are exported and the others skipped, both in the order of the ids. */
  lemma {:induction false} ExportDecides(skills: map<nat, Skill>, order: seq<nat>, namer: Option<nat -> string>)
    returns (n: nat)
    requires Fits(|order| + 2, SLUG_MAX_LENGTH) && Ordering.AscendingIds(order)
    ensures n <= |order| && (forall j :: 0 <= j < n ==> order[j] in skills) && (n < |order| ==> order[n] !in skills)
    ensures var out := Export(skills, order, namer);
      && out.missing == (if n < |order| then Some(order[n]) else None)
      && (forall id :: id in Ids(out.exported) <==> id in order[..n] && id in skills && !skills[id].empty)
      && (forall id :: id in out.skipped <==> id in order[..n] && id in skills && skills[id].empty)
      && Ordering.AscendingIds(Ids(out.exported)) && Ordering.AscendingIds(out.skipped)
  {
    hide Fits, ExportNext, Export, Ids;
    if order == [] {
      n := 0;
      EmptyExport(skills, namer);
      assert Ids([]) == [] by { NoIds(); }
    } else {
      var init, id := order[..|order| - 1], order[|order| - 1];
      StepExport(skills, order, namer);
      n := ExportDecides(skills, init, namer);
      assert order[..n] == init[..n];
      assert n < |init| ==> order[n] == init[n];
      var before := Export(skills, init, namer);
      ExportRows(skills, init, namer);
      NextDecides(skills, before, init, n, id, namer);
      if n == |init| && id in skills {
        assert order[..n + 1] == init[..n] + [id];
        n := n + 1;
      }
    }
  }

  lemma NoIds()
    ensures Ids([]) == []
  {
  }

  lemma {:induction false} ExportRows(skills: map<nat, Skill>, order: seq<nat>, namer: Option<nat -> string>)
    requires Fits(|order| + 2, SLUG_MAX_LENGTH)
    ensures var after := Export(skills, order, namer).skills;
      && after.Keys == skills.Keys
      && forall id :: id in skills ==>
           && after[id].empty == skills[id].empty
           && (id !in order ==> after[id] == skills[id])
           && Named(after[id], id, namer) == Named(skills[id], id, namer)
  {
    if order != [] {
      hide Fits, Export, ExportNext, Named;
      var init, id := order[..|order| - 1], order[|order| - 1];
      StepExport(skills, order, namer);
      ExportRows(skills, init, namer);
      NextRows(Export(skills, init, namer), id, namer);
      LastOnce(order);
    } else {
      EmptyExport(skills, namer);
    }
  }

  lemma NextRows(before: Outcome, id: nat, namer: Option<nat -> string>)
    requires Fits(|before.exported| + 2, SLUG_MAX_LENGTH)
    ensures var after := ExportNext(before, id, namer).skills;
      && after.Keys == before.skills.Keys
      && forall x :: x in after ==>
           && after[x].empty == before.skills[x].empty && (x != id ==> after[x] == before.skills[x])
           && Named(after[x], x, namer) == Named(before.skills[x], x, namer)
  {
    hide Fits, FirstFree, Base, Slugs;
  }

  lemma NextDecides(skills: map<nat, Skill>, before: Outcome, init: seq<nat>, n: nat, id: nat,
                    namer: Option<nat -> string>)
    requires Fits(|before.exported| + 2, SLUG_MAX_LENGTH) && n <= |init| && forall x :: x in init ==> x < id
    requires before.missing.Some? <==> n < |init|
    requires before.skills.Keys == skills.Keys && forall x :: x in skills ==> before.skills[x].empty == skills[x].empty
    requires forall x :: x in Ids(before.exported) <==> x in init[..n] && x in skills && !skills[x].empty
    requires forall x :: x in before.skipped <==> x in init[..n] && x in skills && skills[x].empty
    requires Ordering.AscendingIds(Ids(before.exported)) && Ordering.AscendingIds(before.skipped)
    ensures var out := ExportNext(before, id, namer);
      if n < |init| then out == before
      else
        && out.missing == (if id in skills then None else Some(id))
        && (forall x :: x in Ids(out.exported) <==>
             (x in init[..n] || (x == id && id in skills)) && x in skills && !skills[x].empty)
        && (forall x :: x in out.skipped <==>
             (x in init[..n] || (x == id && id in skills)) && x in skills && skills[x].empty)
        && Ordering.AscendingIds(Ids(out.exported)) && Ordering.AscendingIds(out.skipped)
  {
    hide Fits, FirstFree, Base, Slugs, Named, Ids;
    forall e: Exported ensures Ids(before.exported + [e]) == Ids(before.exported) + [e.id] {
      IdsAppend(before.exported, e);
    }
    assert forall x :: x in init[..n] ==> x in init;
    NamedKeepsEmpty(id, namer);
    AscendingAppend(Ids(before.exported), id);
    AscendingAppend(before.skipped, id);
  }

  lemma NamedKeepsEmpty(id: nat, namer: Option<nat -> string>)
    ensures forall skill: Skill :: Named(skill, id, namer).empty == skill.empty
  {
  }

  lemma AscendingAppend(ids: seq<nat>, id: nat)
    requires Ordering.AscendingIds(ids)
    ensures (forall x :: x in ids ==> x < id) ==> Ordering.AscendingIds(ids + [id])
    ensures forall x :: x in ids + [id] <==> x in ids || x == id
  {
    var grown: seq<nat> := ids + [id];
    if forall x :: x in ids ==> x < id {
      forall a | 0 <= a < |ids| ensures ids[a] < id {
        assert ids[a] in ids;
      }
      assert Ordering.AscendingIds(grown);
    }
  }

  /** The slug a skill should get: of its name, or of the one the namer gives it, or module- and its id. */
  ghost function OwnSlug(skill: Skill, id: nat, namer: Option<nat -> string>): string {
    if skill.name.Some? then Slugify(skill.name.value, 64)
    else if namer.Some? then Slugify(namer.value(id), 64)
    else "module-" + Numerals.Decimal(id)
  }

  /** Some skill exported earlier has the slug. */
  ghost predicate HasSlug(earlier: seq<Exported>, slug: string) {
    exists i :: 0 <= i < |earlier| && earlier[i].slug == slug
  }

  ghost predicate HasNumbered(earlier: seq<Exported>, base: string, n: nat) {
    exists i :: 0 <= i < |earlier| && Numbered(earlier[i].slug, base, n, 64)
  }

  /** A skill gets its own slug unless one exported earlier has it; then that slug with the first number, from 2
      on, that no earlier one has. */
  ghost predicate RightSlug(e: Exported, earlier: seq<Exported>, base: string) {
    if !HasSlug(earlier, base) then e.slug == base
    else !HasSlug(earlier, e.slug) && exists n :: FirstNumber(e.slug, earlier, base, n)
  }

  ghost predicate FirstNumber(slug: string, earlier: seq<Exported>, base: string, n: nat) {
    n >= 2 && Numbered(slug, base, n, 64) && forall m :: 2 <= m < n ==> HasNumbered(earlier, base, m)
  }

  /** Every exported skill has the slug its name, its id and the skills exported before it call for. */
  lemma {:induction false} ExportSlugs(skills: map<nat, Skill>, order: seq<nat>, namer: Option<nat -> string>, k: nat)
    requires Fits(|order| + 2, SLUG_MAX_LENGTH) && k < |Export(skills, order, namer).exported|
    ensures var exported := Export(skills, order, namer).exported;
      && exported[k].id in skills
      && RightSlug(exported[k], exported[..k], OwnSlug(skills[exported[k].id], exported[k].id, namer))
  {
    hide Fits, Export, RightSlug, OwnSlug;
    if order == [] {
      EmptyExport(skills, namer);
    } else {
      var init, id := order[..|order| - 1], order[|order| - 1];
      StepExport(skills, order, namer);
      var before := Export(skills, init, namer);
      ExportRows(skills, init, namer);
      NextExports(before, id, namer);
      var exported := Export(skills, order, namer).exported;
      if k < |before.exported| {
        ExportSlugs(skills, init, namer, k);
        assert exported[..k] == before.exported[..k] && exported[k] == before.exported[k];
      } else {
        assert exported[..k] == before.exported;
        OwnSlugIs(before.skills[id], id, namer);
        OwnSlugIs(skills[id], id, namer);
        NextSlugRight(before, id, namer);
      }
    }
  }

  lemma OwnSlugIs(skill: Skill, id: nat, namer: Option<nat -> string>)
    ensures OwnSlug(skill, id, namer) == Base(Named(skill, id, namer), id)
  {
  }

  lemma NextExports(before: Outcome, id: nat, namer: Option<nat -> string>)
    requires Fits(|before.exported| + 2, SLUG_MAX_LENGTH)
    ensures var after := ExportNext(before, id, namer).exported;
      || after == before.exported
      || (id in before.skills && |after| == |before.exported| + 1
          && after[..|before.exported|] == before.exported && after[|before.exported|].id == id
          && |Slugs(before.exported)| <= |before.exported| && Fits(|Slugs(before.exported)| + 2, SLUG_MAX_LENGTH)
          && after[|before.exported|].slug
             == FirstFree(Base(Named(before.skills[id], id, namer), id), Slugs(before.exported), SLUG_MAX_LENGTH))
  {
    hide Fits, FirstFree, Base, Named, Slugs;
    FitsBelow(|Slugs(before.exported)| + 2, |before.exported| + 2);
  }

  lemma {:induction false} SlugsAre(exported: seq<Exported>, slug: string)
    ensures slug in Slugs(exported) <==> HasSlug(exported, slug)
  {
    if exported != [] {
      var init, last := exported[..|exported| - 1], exported[|exported| - 1];
      SlugsAre(init, slug);
      if HasSlug(init, slug) {
        var i :| 0 <= i < |init| && init[i].slug == slug;
        assert exported[i].slug == slug;
      }
      assert last.slug == slug ==> exported[|exported| - 1].slug == slug;
    }
  }

  lemma NextSlugRight(before: Outcome, id: nat, namer: Option<nat -> string>)
    requires Fits(|before.exported| + 2, SLUG_MAX_LENGTH)
    requires |ExportNext(before, id, namer).exported| == |before.exported| + 1 && id in before.skills
    ensures RightSlug(ExportNext(before, id, namer).exported[|before.exported|], before.exported,
                      Base(Named(before.skills[id], id, namer), id))
  {
    hide Fits, FirstFree, Base, Named, Slugs, HasSlug, ExportNext;
    NextExports(before, id, namer);
    var base, used := Base(Named(before.skills[id], id, namer), id), Slugs(before.exported);
    SlugsAre(before.exported, base);
    if HasSlug(before.exported, base) {
      FreeIsProbed(base, used);
      ProbeNumbered(base, used, 2, before.exported);
    } else {
      FreeIsProbed(base, used);
    }
  }

  lemma FreeIsProbed(base: string, used: set<string>)
    requires Fits(|used| + 2, SLUG_MAX_LENGTH)
    ensures FirstFree(base, used, SLUG_MAX_LENGTH)
      == if base in used then Probe(base, used, 2, SLUG_MAX_LENGTH) else base
  {
  }

  lemma {:induction false} ProbeNumbered(base: string, used: set<string>, n: nat, earlier: seq<Exported>)
    requires n >= 2 && Fits(|used| + 2, SLUG_MAX_LENGTH) && used == Slugs(earlier)
    requires forall m :: 2 <= m < n ==> Taken(base, used, m, SLUG_MAX_LENGTH)
    ensures var slug := Probe(base, used, n, SLUG_MAX_LENGTH);
      !HasSlug(earlier, slug) && exists k :: FirstNumber(slug, earlier, base, k)
    decreases |used| + 2 - n
  {
    hide Candidate, Slugs, HasSlug, Numbered, HasNumbered, Fits;
    TakenBound(base, used, n - 1, SLUG_MAX_LENGTH);
    FitsBelow(n, |used| + 2);
    if Candidate(base, n, SLUG_MAX_LENGTH) in used {
      TakenBound(base, used, n, SLUG_MAX_LENGTH);
      ProbeNumbered(base, used, n + 1, earlier);
    } else {
      var slug := Candidate(base, n, SLUG_MAX_LENGTH);
      SlugsAre(earlier, slug);
      CandidateIsNumbered(base, n, SLUG_MAX_LENGTH, slug);
      forall m | 2 <= m < n ensures HasNumbered(earlier, base, m) {
        assert Taken(base, used, m, SLUG_MAX_LENGTH);
        TakenHasNumbered(base, earlier, m);
      }
      assert FirstNumber(slug, earlier, base, n);
    }
  }

  lemma TakenHasNumbered(base: string, earlier: seq<Exported>, m: nat)
    requires Taken(base, Slugs(earlier), m, SLUG_MAX_LENGTH)
    ensures HasNumbered(earlier, base, m)
  {
    hide Candidate, Slugs, Numbered;
    SlugsAre(earlier, Candidate(base, m, SLUG_MAX_LENGTH));
    CandidateIsNumbered(base, m, SLUG_MAX_LENGTH, Candidate(base, m, SLUG_MAX_LENGTH));
  }

  lemma LastOnce(order: seq<nat>)
    requires order != []
    ensures var init, id := order[..|order| - 1], order[|order| - 1];
      && multiset(order) == multiset(init) + multiset{id}
      && forall x :: x in order <==> x in init || x == id
  {
    assert order == order[..|order| - 1] + [order[|order| - 1]];
  }

  lemma NextPartitions(before: Outcome, id: nat, namer: Option<nat -> string>)
    requires Fits(|before.exported| + 2, SLUG_MAX_LENGTH)
    ensures var out := ExportNext(before, id, namer);
      && (out.missing.None? <==> before.missing.None? && id in before.skills)
      && out.skills.Keys == before.skills.Keys
      && (out.missing.None? ==> multiset(Ids(out.exported)) + multiset(out.skipped)
                                == multiset(Ids(before.exported)) + multiset(before.skipped) + multiset{id})
  {
    hide Fits, FirstFree, Base, Slugs, Named, Ids;
    forall e: Exported ensures Ids(before.exported + [e]) == Ids(before.exported) + [e.id] {
      IdsAppend(before.exported, e);
    }
  }

  lemma IdsAppend(exported: seq<Exported>, e: Exported)
    ensures Ids(exported + [e]) == Ids(exported) + [e.id]
  {
    assert (exported + [e])[..|exported|] == exported;
  }

  function Ids(exported: seq<Exported>): seq<nat> {
    if exported == [] then [] else Ids(exported[..|exported| - 1]) + [exported[|exported| - 1].id]
  }

  /** Names given during an export stay: the table afterwards holds them, and nothing else changed. */
  lemma {:induction false} ExportNames(skills: map<nat, Skill>, order: seq<nat>, namer: Option<nat -> string>)
    requires Fits(|order| + 2, SLUG_MAX_LENGTH) && Distinct(order)
    requires Export(skills, order, namer).missing.None?
    ensures var after := Export(skills, order, namer).skills;
      && after.Keys == skills.Keys
      && forall id :: id in skills ==> after[id] == if id in order then Named(skills[id], id, namer) else skills[id]
  {
    if order != [] {
      var init, id := order[..|order| - 1], order[|order| - 1];
      StepExport(skills, order, namer);
      ExportNames(skills, init, namer);
      assert id !in init;
      assert forall x :: x in order <==> x in init || x == id;
    }
  }

  /** Exporting again writes the same slugs, with any namer if the first run had one. */
  lemma ReexportIsStable(skills: map<nat, Skill>, order: seq<nat>, namer: Option<nat -> string>,
                         again: Option<nat -> string>)
    requires Fits(|order| + 2, SLUG_MAX_LENGTH) && Distinct(order) && (namer.Some? || again.None?)
    requires Export(skills, order, namer).missing.None?
    ensures Export(Export(skills, order, namer).skills, order, again) == Export(skills, order, namer)
  {
    hide Export, Fits;
    ExportNames(skills, order, namer);
    ExportPartitions(skills, order, namer);
    var after := Export(skills, order, namer).skills;
    SameRows(skills, after, order, namer, again);
    ExportPartitions(after, order, again);
    ExportNames(after, order, again);
    assert Export(after, order, again).skills == after;
  }

  // Export looks at the rows only after naming them.
  lemma {:induction false} SameRows(skills: map<nat, Skill>, after: map<nat, Skill>, order: seq<nat>,
                                    namer: Option<nat -> string>, again: Option<nat -> string>)
    requires Fits(|order| + 2, SLUG_MAX_LENGTH) && Distinct(order)
    requires forall id :: id in order ==>
      id in skills && id in after && Named(after[id], id, again) == Named(skills[id], id, namer)
    ensures var first, second := Export(skills, order, namer), Export(after, order, again);
      && second.exported == first.exported && second.skipped == first.skipped && second.missing == first.missing == None
  {
    if order != [] {
      var init, id := order[..|order| - 1], order[|order| - 1];
      StepExport(skills, order, namer);
      StepExport(after, order, again);
      SameRows(skills, after, init, namer, again);
      ExportNames(skills, init, namer);
      ExportNames(after, init, again);
      assert id in order && id !in init;
    }
  }
}
