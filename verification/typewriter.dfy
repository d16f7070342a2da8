/** The hero's typewriter (components/magicui/typewriter.tsx): it types a
    phrase one character at a time, pauses, deletes it one character at a
    time, and moves on to the next phrase, cyclically. Only the state update
    is modelled; each step also reports how long the page waits before it
    happens. Lengths and `slice` count Unicode scalar values (Dafny's
    `char`), where JavaScript counts UTF-16 code units; the two differ only
    on characters outside the Basic Multilingual Plane. */
module Typewriter {

  import opened Text

  datatype Speeds = Speeds(typing: nat, deleting: nat, pause: nat)

  /** The component's default props. */
  const DefaultSpeeds: Speeds := Speeds(80, 40, 2000)

  datatype TypewriterState = TypewriterState(displayText: string, phraseIndex: nat, isDeleting: bool)

  const Start: TypewriterState := TypewriterState("", 0, false)

  /** One step and the delay before it. */
  datatype Tick = Tick(next: TypewriterState, delay: nat)

  /** The text shown is a prefix of the current phrase, which exists. */
  predicate Valid(phrases: seq<string>, s: TypewriterState) {
    && s.phraseIndex < |phrases|
    && |s.displayText| <= |phrases[s.phraseIndex]|
    && phrases[s.phraseIndex][..|s.displayText|] == s.displayText
  }

  /** The effect's timeout callback, with the timeout's delay. Typing
      appends the phrase's next character; a complete phrase waits for the
      pause and then starts deleting; deleting drops the last character; an
      empty text moves on to the next phrase and types again. */
  function Step(phrases: seq<string>, speeds: Speeds, s: TypewriterState): (t: Tick)
    requires Valid(phrases, s)
    ensures Valid(phrases, t.next)
    ensures t.delay == (if s.isDeleting then speeds.deleting
                        else if |s.displayText| < |phrases[s.phraseIndex]| then speeds.typing
                        else speeds.typing + speeds.pause)
  {
    var phrase := phrases[s.phraseIndex];
    var text := s.displayText;
    if !s.isDeleting then
      if |text| < |phrase| then
        assert phrase[..|text|] == text;
        Tick(s.(displayText := Slice(phrase, 0, |text| + 1)), speeds.typing)
      else
        Tick(s.(isDeleting := true), speeds.typing + speeds.pause)
    else if |text| > 0 then
      Tick(s.(displayText := Slice(text, 0, -1)), speeds.deleting)
    else
      Tick(s.(isDeleting := false, phraseIndex := (s.phraseIndex + 1) % |phrases|), speeds.deleting)
  }

  /** The start state is valid whenever there is a phrase. */
  lemma StartValid(phrases: seq<string>)
    requires |phrases| > 0
    ensures Valid(phrases, Start)
  {
  }

  /** The four kinds of step, each stated against the phrase. */
  lemma StepEffect(phrases: seq<string>, speeds: Speeds, s: TypewriterState)
    requires Valid(phrases, s)
    ensures var phrase := phrases[s.phraseIndex];
      var t := Step(phrases, speeds, s);
      && (!s.isDeleting && |s.displayText| < |phrase| ==>
            t.next == s.(displayText := s.displayText + [phrase[|s.displayText|]]))
      && (!s.isDeleting && |s.displayText| >= |phrase| ==>
            t.next.displayText == phrase && t.next.isDeleting && t.next.phraseIndex == s.phraseIndex)
      && (s.isDeleting && |s.displayText| > 0 ==>
            t.next == s.(displayText := s.displayText[..|s.displayText| - 1]))
      && (s.isDeleting && |s.displayText| == 0 ==>
            t.next == TypewriterState("", (s.phraseIndex + 1) % |phrases|, false))
  {
    var phrase := phrases[s.phraseIndex];
    var text := s.displayText;
    if !s.isDeleting && |text| < |phrase| {
      assert phrase[..|text|] == text;
      assert phrase[..|text| + 1] == text + [phrase[|text|]];
    }
  }

  /** `k` steps from `s`, and the total time they take. */
  function Advance(phrases: seq<string>, speeds: Speeds, s: TypewriterState, k: nat): (t: Tick)
    requires Valid(phrases, s)
    ensures Valid(phrases, t.next)
    decreases k
  {
    if k == 0 then Tick(s, 0)
    else
      var first := Step(phrases, speeds, s);
      var rest := Advance(phrases, speeds, first.next, k - 1);
      Tick(rest.next, first.delay + rest.delay)
  }

  /** Typing from a prefix of length `j`: `k` more steps show the first
      `j + k` characters, one typing delay each. */
  lemma {:induction false} TypingPhase(phrases: seq<string>, speeds: Speeds, i: nat, j: nat, k: nat)
    requires i < |phrases| && j + k <= |phrases[i]|
    ensures Valid(phrases, TypewriterState(phrases[i][..j], i, false))
    ensures Advance(phrases, speeds, TypewriterState(phrases[i][..j], i, false), k) ==
      Tick(TypewriterState(phrases[i][..j + k], i, false), k * speeds.typing)
    decreases k
  {
    if k > 0 {
      TypingStep(phrases, speeds, i, j);
      TypingPhase(phrases, speeds, i, j + 1, k - 1);
      MulStep(k, speeds.typing);
    }
  }

  /** One typing step shows one more character of the phrase. */
  lemma TypingStep(phrases: seq<string>, speeds: Speeds, i: nat, j: nat)
    requires i < |phrases| && j < |phrases[i]|
    ensures Valid(phrases, TypewriterState(phrases[i][..j], i, false))
    ensures Step(phrases, speeds, TypewriterState(phrases[i][..j], i, false)) ==
      Tick(TypewriterState(phrases[i][..j + 1], i, false), speeds.typing)
  {
    StepEffect(phrases, speeds, TypewriterState(phrases[i][..j], i, false));
    assert phrases[i][..j] + [phrases[i][j]] == phrases[i][..j + 1];
  }

  /** One deleting step removes the last character shown. */
  lemma DeletingStep(phrases: seq<string>, speeds: Speeds, i: nat, j: nat)
    requires i < |phrases| && 0 < j <= |phrases[i]|
    ensures Valid(phrases, TypewriterState(phrases[i][..j], i, true))
    ensures Step(phrases, speeds, TypewriterState(phrases[i][..j], i, true)) ==
      Tick(TypewriterState(phrases[i][..j - 1], i, true), speeds.deleting)
  {
    StepEffect(phrases, speeds, TypewriterState(phrases[i][..j], i, true));
    assert phrases[i][..j][..j - 1] == phrases[i][..j - 1];
  }

  /** k delays of length t are one delay and k - 1 more. */
  lemma MulStep(k: nat, t: nat)
    requires k > 0
    ensures t + (k - 1) * t == k * t
  {
  }

  /** Deleting from a prefix of length `j`: `k` steps later the first
      `j - k` characters remain, one deleting delay each. */
  lemma {:induction false} DeletingPhase(phrases: seq<string>, speeds: Speeds, i: nat, j: nat, k: nat)
    requires i < |phrases| && k <= j <= |phrases[i]|
    ensures Valid(phrases, TypewriterState(phrases[i][..j], i, true))
    ensures Advance(phrases, speeds, TypewriterState(phrases[i][..j], i, true), k) ==
      Tick(TypewriterState(phrases[i][..j - k], i, true), k * speeds.deleting)
    decreases k
  {
    if k > 0 {
      DeletingStep(phrases, speeds, i, j);
      DeletingPhase(phrases, speeds, i, j - 1, k - 1);
      MulStep(k, speeds.deleting);
    }
  }

  /** Splitting a run of steps. */
  lemma {:induction false} AdvanceSplit(phrases: seq<string>, speeds: Speeds, s: TypewriterState, a: nat, b: nat)
    requires Valid(phrases, s)
    ensures var first := Advance(phrases, speeds, s, a);
      var second := Advance(phrases, speeds, first.next, b);
      Advance(phrases, speeds, s, a + b) == Tick(second.next, first.delay + second.delay)
    decreases a
  {
    if a > 0 {
      var next := Step(phrases, speeds, s).next;
      AdvanceSplit(phrases, speeds, next, a - 1, b);
      var rest := a - 1 + b;
      assert Advance(phrases, speeds, s, a + b) ==
        Tick(Advance(phrases, speeds, next, rest).next, Step(phrases, speeds, s).delay + Advance(phrases, speeds, next, rest).delay);
    }
  }

  /** A whole cycle: from an empty text at phrase `i`, typing the phrase,
      pausing, deleting it and moving on takes `2 * |phrase| + 2` steps and
      ends with an empty text at the next phrase (wrapping to the first
      after the last). */
  lemma FullCycle(phrases: seq<string>, speeds: Speeds, i: nat)
    requires i < |phrases|
    ensures var n := |phrases[i]|;
      Advance(phrases, speeds, TypewriterState("", i, false), 2 * n + 2) ==
        Tick(TypewriterState("", (i + 1) % |phrases|, false),
             n * speeds.typing + (speeds.typing + speeds.pause) + n * speeds.deleting + speeds.deleting)
  {
    var n := |phrases[i]|;
    var s0 := TypewriterState("", i, false);
    TypeAndPause(phrases, speeds, i);
    DeleteAndMoveOn(phrases, speeds, i);
    AdvanceSplit(phrases, speeds, s0, n + 1, n + 1);
    assert (n + 1) + (n + 1) == 2 * n + 2;
  }

  /** Typing the whole phrase and the pause: `|phrase| + 1` steps from an
      empty text to deleting mode over the complete phrase. */
  lemma TypeAndPause(phrases: seq<string>, speeds: Speeds, i: nat)
    requires i < |phrases|
    ensures var n := |phrases[i]|;
      Advance(phrases, speeds, TypewriterState("", i, false), n + 1) ==
        Tick(TypewriterState(phrases[i], i, true), n * speeds.typing + (speeds.typing + speeds.pause))
  {
    var phrase := phrases[i];
    var n := |phrase|;
    var s0 := TypewriterState("", i, false);
    assert phrase[..0] == "";
    assert phrase[..n] == phrase;
    TypingPhase(phrases, speeds, i, 0, n);
    var typed := TypewriterState(phrase, i, false);
    StepEffect(phrases, speeds, typed);
    assert Advance(phrases, speeds, typed, 1) == Tick(TypewriterState(phrase, i, true), speeds.typing + speeds.pause);
    AdvanceSplit(phrases, speeds, s0, n, 1);
  }

  /** Deleting the whole phrase and moving on: `|phrase| + 1` steps from
      deleting mode over the complete phrase to an empty text at the next
      phrase. */
  lemma DeleteAndMoveOn(phrases: seq<string>, speeds: Speeds, i: nat)
    requires i < |phrases|
    ensures var n := |phrases[i]|;
      Valid(phrases, TypewriterState(phrases[i], i, true)) &&
      Advance(phrases, speeds, TypewriterState(phrases[i], i, true), n + 1) ==
        Tick(TypewriterState("", (i + 1) % |phrases|, false), n * speeds.deleting + speeds.deleting)
  {
    var phrase := phrases[i];
    var n := |phrase|;
    assert phrase[..n] == phrase;
    assert phrase[..0] == "";
    DeletingPhase(phrases, speeds, i, n, n);
    var empty := TypewriterState("", i, true);
    StepEffect(phrases, speeds, empty);
    assert Advance(phrases, speeds, empty, 1) == Tick(TypewriterState("", (i + 1) % |phrases|, false), speeds.deleting);
    AdvanceSplit(phrases, speeds, TypewriterState(phrase, i, true), n, 1);
  }
}
