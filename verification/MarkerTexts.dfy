/**
 * The fixed texts of the candidate-learnings block, in pieces short enough to
 * be checked character by character.
 */
module MarkerTexts {
  const BEGIN_0 := "!-- BEGIN claude+ candidate-learnings "
  const BEGIN_1 := "(auto-injected; excluded from drift) -->"
  const END_0 := "!-- END claude+ candidate-learnings -->"
  const HEADING_0 := "## Candidate learnings (corroborated, "
  const HEADING_1 := "surfaced read-only)"
  const INTRO_0 := "These are corroborated, session-derived "
  const INTRO_1 := "suggestions surfaced read-only. They are "
  const INTRO_2 := "NOT part of the skill body and are not "
  const INTRO_3 := "yet folded in."

  const BEGIN := "<" + (BEGIN_0 + BEGIN_1)
  const END := "<" + END_0
  const HEADING := HEADING_0 + HEADING_1
  const INTRO := INTRO_0 + INTRO_1 + (INTRO_2 + INTRO_3)

  /** Printable characters, no tag. */
  predicate Tagless(s: string) { forall c :: c in s ==> ' ' <= c && c != '<' }

  lemma BeginFront()
    ensures Tagless(BEGIN_0)
  {
  }

  lemma BeginBack()
    ensures Tagless(BEGIN_1)
  {
  }

  lemma EndWhole()
    ensures Tagless(END_0)
  {
  }

  lemma HeadingFront()
    ensures Tagless(HEADING_0)
  {
  }

  lemma HeadingBack()
    ensures Tagless(HEADING_1)
  {
  }

  lemma IntroOne()
    ensures Tagless(INTRO_0)
  {
  }

  lemma IntroTwo()
    ensures Tagless(INTRO_1)
  {
  }

  lemma IntroThree()
    ensures Tagless(INTRO_2)
  {
  }

  lemma IntroFour()
    ensures Tagless(INTRO_3)
  {
  }

  lemma Starts()
    ensures |BEGIN_0| > 5 && BEGIN_0[4] == 'B' && |END_0| > 5 && END_0[4] == 'E'
  {
  }

  lemma EndEnds()
    ensures |END| > 5 && END[4] == ' ' && END[|END| - 1] == '>'
  {
  }

  lemma Together(a: string, b: string)
    requires Tagless(a) && Tagless(b)
    ensures Tagless(a + b)
  {
  }

  lemma TextsTagless()
    ensures Tagless(BEGIN_0 + BEGIN_1) && Tagless(END_0) && Tagless(HEADING) && Tagless(INTRO)
    ensures |BEGIN| > 5 && |END| > 5 && BEGIN[0] == END[0] == '<' && BEGIN[5] != END[5]
  {
    hide Tagless;
    BeginFront();
    BeginBack();
    EndWhole();
    HeadingFront();
    HeadingBack();
    IntroOne();
    IntroTwo();
    IntroThree();
    IntroFour();
    Starts();
    Together(BEGIN_0, BEGIN_1);
    Together(HEADING_0, HEADING_1);
    Together(INTRO_0, INTRO_1);
    Together(INTRO_2, INTRO_3);
    Together(INTRO_0 + INTRO_1, INTRO_2 + INTRO_3);
  }
}
