/** The string operations behind hashing and file formats, with the laws the formats need. */
module Text {
  import opened Collections

  /** CRLF folded to LF in one pass: a carriage return before a newline is dropped. */
  function NormalizeNewlines(s: string): string {
    if s == [] then []
    else if |s| >= 2 && s[0] == '\r' && s[1] == '\n' then NormalizeNewlines(s[1..])
    else [s[0]] + NormalizeNewlines(s[1..])
  }

  predicate Space(c: char) {
    || '\t' <= c <= '\r' || c == ' ' || c == '\U{85}' || c == '\U{A0}' || c == '\U{1680}'
    || '\U{2000}' <= c <= '\U{200A}' || c == '\U{2028}' || c == '\U{2029}' || c == '\U{202F}'
    || c == '\U{205F}' || c == '\U{3000}'
  }

  /** By code point: the characters with the Unicode property White_Space. */
  lemma SpaceExactly(c: char)
    ensures Space(c) <==> var n := c as int;
      n in {9, 10, 11, 12, 13, 32, 133, 160, 5760, 8232, 8233, 8239, 8287, 12288} || 8192 <= n <= 8202
  {
  }

  function TrimLeftSpace(s: string): string {
    if s != [] && Space(s[0]) then TrimLeftSpace(s[1..]) else s
  }

  function TrimRightSpace(s: string): string {
    if s != [] && Space(s[|s| - 1]) then TrimRightSpace(s[..|s| - 1]) else s
  }

  function TrimSpace(s: string): string { TrimRightSpace(TrimLeftSpace(s)) }

  function TrimRightNewlines(s: string): string {
    if s != [] && s[|s| - 1] == '\n' then TrimRightNewlines(s[..|s| - 1]) else s
  }

  function TrimLeftNewlines(s: string): string {
    if s != [] && s[0] == '\n' then TrimLeftNewlines(s[1..]) else s
  }

  /** What the content hash is taken over. */
  function HashBasis(s: string): string { TrimSpace(NormalizeNewlines(s)) }

  // ------------------------------------------------------------------- search

  ghost predicate Occurs(s: string, pat: string, i: nat) {
    i + |pat| <= |s| && s[i..i + |pat|] == pat
  }

  lemma OccursAt(s: string, pat: string, i: nat, k: nat)
    requires k < |pat|
    ensures Occurs(s, pat, i) ==> i + k < |s| && s[i + k] == pat[k]
  {
    if Occurs(s, pat, i) {
      assert s[i..i + |pat|][k] == s[i + k];
    }
  }

  lemma OccursAfter(a: string, b: string, pat: string, i: nat)
    ensures Occurs(a + b, pat, |a| + i) <==> Occurs(b, pat, i)
  {
    if i + |pat| <= |b| {
      assert (a + b)[|a| + i..|a| + i + |pat|] == b[i..i + |pat|];
    }
  }

  /** The first place pat occurs in s. */
  function IndexOf(s: string, pat: string): (r: Option<nat>)
    ensures r.Some? ==> Occurs(s, pat, r.value) && forall i :: 0 <= i < r.value ==> !Occurs(s, pat, i)
    ensures r.None? ==> forall i :: 0 <= i ==> !Occurs(s, pat, i)
  {
    if pat <= s then assert s[0..0 + |pat|] == pat; Some(0)
    else if s == [] then None
    else
      var r := IndexOf(s[1..], pat);
      assert !Occurs(s, pat, 0);
      assert forall i {:trigger Occurs(s, pat, i)} :: 1 <= i ==>
        (Occurs(s, pat, i) <==> Occurs(s[1..], pat, i - 1)) by {
        ShiftedOccurrences(s, pat);
      }
      if r == None then None else Some(r.value + 1)
  }

  lemma ShiftedOccurrences(s: string, pat: string)
    requires s != []
    ensures forall i {:trigger Occurs(s, pat, i)} :: 1 <= i ==> (Occurs(s, pat, i) <==> Occurs(s[1..], pat, i - 1))
  {
    forall i | 1 <= i ensures Occurs(s, pat, i) <==> Occurs(s[1..], pat, i - 1) {
      if i + |pat| <= |s| {
        assert s[1..][i - 1..i - 1 + |pat|] == s[i..i + |pat|];
      }
    }
  }

  ghost predicate Free(s: string, pat: string) {
    forall i :: 0 <= i ==> !Occurs(s, pat, i)
  }

  /** The first occurrence is the only candidate IndexOf can return. */
  lemma IndexIs(s: string, pat: string, i: nat)
    requires Occurs(s, pat, i) && forall j :: 0 <= j < i ==> !Occurs(s, pat, j)
    ensures IndexOf(s, pat) == Some(i)
  {
  }

  lemma IndexNone(s: string, pat: string)
    requires Free(s, pat)
    ensures IndexOf(s, pat) == None
  {
  }

  // A newline cannot lie inside a match of a newline-free pattern.
  lemma {:induction false} NoMatchAcrossNewline(a: string, b: string, pat: string, i: nat)
    requires '\n' !in pat && pat != []
    requires Occurs(a + "\n" + b, pat, i)
    ensures Occurs(a, pat, i) || (i > |a| && Occurs(b, pat, i - |a| - 1))
  {
    var s := a + "\n" + b;
    assert s[|a|] == '\n';
    assert forall j :: i <= j < i + |pat| ==> s[j] == s[i..i + |pat|][j - i];
    if i + |pat| <= |a| {
      assert s[i..i + |pat|] == a[i..i + |pat|];
    } else if i > |a| {
      assert s[i..i + |pat|] == b[i - |a| - 1..i - |a| - 1 + |pat|];
    } else {
      assert false;
    }
  }

  lemma {:induction false} FreeLines(a: string, b: string, pat: string)
    requires '\n' !in pat && pat != [] && Free(a, pat) && Free(b, pat)
    ensures Free(a + "\n" + b, pat)
  {
    forall i: nat | Occurs(a + "\n" + b, pat, i) ensures false {
      NoMatchAcrossNewline(a, b, pat, i);
    }
  }

  // ------------------------------------------------------------ newline folding

  lemma {:induction false} NormalizeIdentity(s: string)
    requires '\r' !in s
    ensures NormalizeNewlines(s) == s
  {
    if s != [] {
      NormalizeIdentity(s[1..]);
    }
  }

  /** No carriage return stands before a newline. */
  ghost predicate NoPairs(s: string) { forall i :: 0 <= i < |s| - 1 ==> !(s[i] == '\r' && s[i + 1] == '\n') }

  /** Folding changes nothing but CRLF pairs. */
  lemma {:induction false} NormalizeUnpaired(s: string)
    requires NoPairs(s)
    ensures NormalizeNewlines(s) == s
  {
    if s != [] {
      assert NoPairs(s[1..]);
      NormalizeUnpaired(s[1..]);
    }
  }

  /** Folding works piecewise unless a CRLF straddles the seam. */
  lemma {:induction false} NormalizeAppend(a: string, b: string)
    requires a == [] || a[|a| - 1] != '\r' || b == [] || b[0] != '\n'
    ensures NormalizeNewlines(a + b) == NormalizeNewlines(a) + NormalizeNewlines(b)
    decreases |a|
  {
    if a == [] {
      assert a + b == b;
    } else {
      assert (a + b)[1..] == a[1..] + b;
      NormalizeAppend(a[1..], b);
    }
  }

  /** A CRLF becomes one newline wherever it stands. */
  lemma NormalizePair(a: string, b: string)
    ensures NormalizeNewlines(a + ("\r\n" + b)) == NormalizeNewlines(a) + ("\n" + NormalizeNewlines(b))
  {
    var pair := "\r\n" + b;
    NormalizeAppend(a, pair);
    assert pair[1..] == "\n" + b && ("\n" + b)[1..] == b;
  }

  lemma {:induction false} NormalizeKeeps(s: string, c: char)
    requires c != '\r'
    ensures c in NormalizeNewlines(s) <==> c in s
    decreases |s|
  {
    if s != [] {
      NormalizeKeeps(s[1..], c);
      assert s == [s[0]] + s[1..];
    }
  }

  // ------------------------------------------------------------------ trimming

  lemma {:induction false} TrimRightNewlinesShape(s: string)
    ensures var t := TrimRightNewlines(s);
      && |t| <= |s| && t == s[..|t|]
      && (t == [] || t[|t| - 1] != '\n')
      && (forall i :: |t| <= i < |s| ==> s[i] == '\n')
  {
    if s != [] && s[|s| - 1] == '\n' {
      TrimRightNewlinesShape(s[..|s| - 1]);
    }
  }

  lemma {:induction false} TrimRightSpaceShape(s: string)
    ensures var t := TrimRightSpace(s);
      && |t| <= |s| && t == s[..|t|]
      && (t == [] || !Space(t[|t| - 1]))
      && (forall i :: |t| <= i < |s| ==> Space(s[i]))
  {
    hide Space;
    if s != [] && Space(s[|s| - 1]) {
      TrimRightSpaceShape(s[..|s| - 1]);
    }
  }

  lemma {:induction false} TrimLeftSpaceShape(s: string)
    ensures var t := TrimLeftSpace(s);
      && |t| <= |s| && t == s[|s| - |t|..]
      && (t == [] || !Space(t[0]))
      && (forall i :: 0 <= i < |s| - |t| ==> Space(s[i]))
  {
    hide Space;
    if s != [] && Space(s[0]) {
      var rest := s[1..];
      TrimLeftSpaceShape(rest);
      var t := TrimLeftSpace(rest);
      assert t == rest[|rest| - |t|..] == s[|s| - |t|..];
      forall i | 0 <= i < |s| - |t| ensures Space(s[i]) {
        if i > 0 {
          assert s[i] == rest[i - 1];
        }
      }
    }
  }

  lemma {:induction false} TrimRightSpaceDrops(s: string, n: nat)
    requires n <= |s| && forall i :: n <= i < |s| ==> Space(s[i])
    ensures TrimRightSpace(s) == TrimRightSpace(s[..n])
    decreases |s|
  {
    hide Space;
    if n == |s| {
      assert s[..n] == s;
    } else {
      TrimRightSpaceDrops(s[..|s| - 1], n);
      assert s[..|s| - 1][..n] == s[..n];
    }
  }

  /** Text that neither starts nor ends with a space is already trimmed. */
  lemma TrimSpaceIdentity(s: string)
    requires s == [] || (!Space(s[0]) && !Space(s[|s| - 1]))
    ensures TrimSpace(s) == s
  {
    hide Space;
  }

  // ------------------------------------------------------- joining, splitting

  function JoinWith(parts: seq<string>, separator: string): string {
    if parts == [] then ""
    else if |parts| == 1 then parts[0]
    else parts[0] + separator + JoinWith(parts[1..], separator)
  }

  lemma {:induction false} JoinWithout(parts: seq<string>, separator: string, c: char)
    requires c !in separator && forall p :: p in parts ==> c !in p
    ensures c !in JoinWith(parts, separator)
  {
    if |parts| > 1 {
      assert forall p :: p in parts[1..] ==> p in parts;
      JoinWithout(parts[1..], separator, c);
    }
  }

  lemma {:induction false} JoinLast(parts: seq<string>, separator: string)
    requires |parts| > 1
    ensures JoinWith(parts, separator)
         == JoinWith(parts[..|parts| - 1], separator) + separator + parts[|parts| - 1]
  {
    var init := parts[..|parts| - 1];
    if |parts| > 2 {
      JoinLast(parts[1..], separator);
      assert parts[1..][..|parts| - 2] == init[1..];
    }
  }


  /** strings.Split on one character. */
  function SplitOn(s: string, c: char): (parts: seq<string>)
    ensures parts != []
  {
    if s == "" then [""]
    else
      var rest := SplitOn(s[1..], c);
      if s[0] == c then [""] + rest else [[s[0]] + rest[0]] + rest[1..]
  }

  lemma {:induction false} SplitPlain(s: string, c: char)
    requires c !in s
    ensures SplitOn(s, c) == [s]
  {
    if s != "" {
      SplitPlain(s[1..], c);
      assert s == [s[0]] + s[1..];
      assert [s[1..]][1..] == [];
    }
  }

  lemma {:induction false} SplitFirst(a: string, b: string, c: char)
    requires c !in a
    ensures SplitOn(a + [c] + b, c) == [a] + SplitOn(b, c)
  {
    if a == "" {
      assert a + [c] + b == [c] + b;
    } else {
      assert (a + [c] + b)[1..] == a[1..] + [c] + b;
      SplitFirst(a[1..], b, c);
      assert a == [a[0]] + a[1..];
    }
  }
}
