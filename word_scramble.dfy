/**
 * The word-validation and scoring session of WordScramble's `ContentView`:
 * a root word, the words accepted so far (most recent first) and a score.
 * The player submits an answer; it is normalised, then checked by five
 * guards in a fixed order, and either accepted (prepended, scored) or
 * rejected (an alert is raised and the game restarts).
 */
module WordScramble {
  import opened Wrappers
  import opened Strings

  /** Points per letter of an accepted word. */
  const ScorePerLetter := 5
  /** Answers shorter than this are refused. */
  const MinimumLength := 3
  /**
   * The root word used when `randomElement()` yields nothing. Splitting a
   * file's text on newlines always yields at least one line, so the game
   * never reaches it; it is kept because the code names it.
   */
  const FallbackRootWord := "silkworm"

  // ---------------------------------------------------------------------
  // The five guards, over the session's values
  // ---------------------------------------------------------------------

  /** `isOriginal`: the word has not been accepted before in this game. */
  predicate IsOriginal(used: seq<string>, word: string): (r: bool)
    ensures r <==> forall i | 0 <= i < |used| :: used[i] != word
  {
    word !in used
  }

  /**
   * What `isPossible` decides: the word can be spelled from the root word's
   * letters, each letter used at most once.
   */
  predicate Spellable(root: string, word: string) {
    multiset(word) <= multiset(root)
  }

  /** Spelling from the root word means no letter occurs in the word more often than in the root. */
  lemma SpellableCounts(root: string, word: string)
    ensures Spellable(root, word) <==> forall c :: multiset(word)[c] <= multiset(root)[c]
  {
  }

  /** `tooShort`: a word long enough to pass earns at least fifteen points. */
  predicate TooShort(word: string): (r: bool)
    ensures r <==> |word| < MinimumLength
    ensures !r ==> WordScore(word) >= MinimumLength * ScorePerLetter
  {
    |word| < MinimumLength
  }

  /**
   * `isRootWord`. The root word can always be spelled from itself, so the
   * earlier `isPossible` guard never catches it and this guard is needed.
   */
  predicate IsRootWord(root: string, word: string): (r: bool)
    ensures r ==> Spellable(root, word)
  {
    word == root
  }

  // ---------------------------------------------------------------------
  // Outcome of a submission
  // ---------------------------------------------------------------------

  /** Why an answer was refused, one case per guard. */
  datatype Reason = UsedAlready | NotPossible | NotRecognized | TooShortWord | RootWordReused

  datatype Verdict = Ignored | Accepted | Rejected(reason: Reason)

  /**
   * The outcome `addNewWord` reaches for the text `text` in the input field:
   * an empty normalised answer is ignored, otherwise the first guard that
   * fails decides. An accepted answer is in normal form, unused, and passes
   * every guard.
   */
  function Judge(used: seq<string>, root: string, isReal: string -> bool, text: string): (r: Verdict)
    ensures r == Ignored <==> Normalize(text) == []
    ensures r == Accepted ==> Normalize(text) !in used && Fits(root, isReal, Normalize(text))
  {
    NormalizeShape(text);
    var answer := Normalize(text);
    if |answer| == 0 then Ignored
    else if !IsOriginal(used, answer) then Rejected(UsedAlready)
    else if !Spellable(root, answer) then Rejected(NotPossible)
    else if !isReal(answer) then Rejected(NotRecognized)
    else if TooShort(answer) then Rejected(TooShortWord)
    else if IsRootWord(root, answer) then Rejected(RootWordReused)
    else Accepted
  }

  /** The alert title shown for a refusal. */
  function Title(reason: Reason): (r: string)
    ensures r == "Word is not allowed" <==> reason == TooShortWord || reason == RootWordReused
  {
    match reason
    case UsedAlready => "Word used already"
    case NotPossible => "Word not possible"
    case NotRecognized => "Word not recognized"
    case TooShortWord => "Word is not allowed"
    case RootWordReused => "Word is not allowed"
  }

  /** The last line of every alert message. */
  function ScoreLine(score: int): string {
    "\nYour score: " + IntToString(score)
  }

  /** How the message for an unspellable answer begins; the root word follows it. */
  const SpellPrefix := "You cant spell that word from '"

  /** The alert message shown for a refusal; it quotes the score before the restart. */
  function Message(reason: Reason, root: string, score: int): (r: string)
    ensures reason == NotPossible ==>
      |SpellPrefix| + |root| < |r| && r[|SpellPrefix|..|SpellPrefix| + |root|] == root
  {
    match reason
    case UsedAlready => "Be more original! " + ScoreLine(score)
    case NotPossible => SpellPrefix + root + "' " + ScoreLine(score)
    case NotRecognized => "You cant just make them up! " + ScoreLine(score)
    case TooShortWord => "Word is too short " + ScoreLine(score)
    case RootWordReused => "You cant use the Root Word " + ScoreLine(score)
  }

  // ---------------------------------------------------------------------
  // Scoring and the session invariant
  // ---------------------------------------------------------------------

  /** What `calculateScore` adds for one accepted word. */
  function WordScore(word: string): nat {
    |word| * ScorePerLetter
  }

  /** The number of letters in `words`, all words together. */
  function SumLengths(words: seq<string>): nat {
    if words == [] then 0 else |words[0]| + SumLengths(words[1..])
  }

  /** The sum of the scores of `words`: five points for every letter of them. */
  function TotalScore(words: seq<string>): (r: nat)
    ensures r == ScorePerLetter * SumLengths(words)
  {
    if words == [] then 0 else WordScore(words[0]) + TotalScore(words[1..])
  }

  /** A word in normal form that passes every history-independent guard against `root`. */
  predicate Fits(root: string, isReal: string -> bool, word: string) {
    && IsNormalized(word)
    && word != []
    && Spellable(root, word)
    && isReal(word)
    && !TooShort(word)
    && !IsRootWord(root, word)
  }

  /** Every word of `words` fits `root`. */
  predicate AllFit(root: string, isReal: string -> bool, words: seq<string>) {
    words == [] || (Fits(root, isReal, words[0]) && AllFit(root, isReal, words[1..]))
  }

  /** No word occurs twice in `words`. */
  predicate Distinct(words: seq<string>) {
    words == [] || (words[0] !in words[1..] && Distinct(words[1..]))
  }

  /**
   * What holds of a session between two events: the score is the sum of
   * the accepted words' scores, no word was accepted twice, and every
   * accepted word fits the current root word.
   */
  predicate SessionInvariant(used: seq<string>, root: string, score: int, isReal: string -> bool): (r: bool)
    ensures r ==> score % ScorePerLetter == 0 && (score == 0 <==> used == [])
  {
    if score == TotalScore(used) && Distinct(used) && AllFit(root, isReal, used) then
      TotalScoreShape(used, root, isReal);
      true
    else
      false
  }

  /** Each accepted word, wherever it stands in the list, fits the root word. */
  lemma {:induction false} AllFitMember(root: string, isReal: string -> bool, words: seq<string>, w: string)
    requires AllFit(root, isReal, words) && w in words
    ensures Fits(root, isReal, w)
  {
    if words[0] != w {
      AllFitMember(root, isReal, words[1..], w);
    }
  }

  /** `Distinct` means that no two positions of the list hold the same word. */
  lemma {:induction false} DistinctPairwise(words: seq<string>)
    requires Distinct(words)
    ensures forall i, j | 0 <= i < j < |words| :: words[i] != words[j]
  {
    if words != [] {
      var tail := words[1..];
      DistinctPairwise(tail);
      forall i, j | 0 <= i < j < |words|
        ensures words[i] != words[j]
      {
        assert words[j] == tail[j - 1];
        if i > 0 {
          assert words[i] == tail[i - 1];
        }
      }
    }
  }

  /** The score is a multiple of five and is zero exactly when no word was accepted. */
  lemma {:induction false} TotalScoreShape(words: seq<string>, root: string, isReal: string -> bool)
    requires AllFit(root, isReal, words)
    ensures TotalScore(words) % ScorePerLetter == 0
    ensures TotalScore(words) >= MinimumLength * ScorePerLetter * |words|
    ensures TotalScore(words) == 0 <==> words == []
  {
    if words != [] {
      TotalScoreShape(words[1..], root, isReal);
    }
  }

  // ---------------------------------------------------------------------
  // Properties of the pipeline
  // ---------------------------------------------------------------------

  /** An answer is accepted exactly when it is non-empty and passes all five guards. */
  lemma AcceptedIffAllGuardsPass(used: seq<string>, root: string, isReal: string -> bool, text: string)
    ensures var answer := Normalize(text);
      Judge(used, root, isReal, text) == Accepted <==>
        && answer != []
        && answer !in used
        && multiset(answer) <= multiset(root)
        && isReal(answer)
        && |answer| >= 3
        && answer != root
  {
  }

  /**
   * The guards run in the order original, possible, real, long enough,
   * not the root word, and the first one that fails decides the reason.
   */
  lemma FirstFailingGuardDecides(used: seq<string>, root: string, isReal: string -> bool, text: string)
    ensures var answer := Normalize(text);
      var v := Judge(used, root, isReal, text);
      && (v == Ignored <==> answer == [])
      && (v == Rejected(UsedAlready) <==> answer != [] && answer in used)
      && (v == Rejected(NotPossible) <==>
            answer != [] && answer !in used && !(multiset(answer) <= multiset(root)))
      && (v == Rejected(NotRecognized) <==>
            answer != [] && answer !in used && multiset(answer) <= multiset(root) && !isReal(answer))
      && (v == Rejected(TooShortWord) <==>
            answer != [] && answer !in used && multiset(answer) <= multiset(root) && isReal(answer)
            && |answer| < 3)
      && (v == Rejected(RootWordReused) <==>
            answer != [] && answer !in used && multiset(answer) <= multiset(root) && isReal(answer)
            && |answer| >= 3 && answer == root)
  {
  }

  /** Only an answer that is all whitespace is ignored. */
  lemma IgnoredIffBlank(used: seq<string>, root: string, isReal: string -> bool, text: string)
    ensures Judge(used, root, isReal, text) == Ignored <==>
      forall k | 0 <= k < |text| :: IsWhitespace(text[k])
  {
    NormalizeEmpty(text);
  }

  /** Accepting an answer keeps the session invariant, with the word's score added. */
  lemma AcceptedKeepsInvariant(used: seq<string>, root: string, score: int, isReal: string -> bool, text: string)
    requires SessionInvariant(used, root, score, isReal)
    requires Judge(used, root, isReal, text) == Accepted
    ensures var answer := Normalize(text);
      SessionInvariant([answer] + used, root, score + WordScore(answer), isReal)
  {
    var answer := Normalize(text);
    assert ([answer] + used)[1..] == used;
    NormalizeShape(text);
  }

  /** An answer that was already accepted is refused as used, whatever else holds. */
  lemma RepeatIsUsedAlready(used: seq<string>, root: string, score: int, isReal: string -> bool, text: string)
    requires SessionInvariant(used, root, score, isReal)
    requires Normalize(text) in used
    ensures Judge(used, root, isReal, text) == Rejected(UsedAlready)
  {
    AllFitMember(root, isReal, used, Normalize(text));
  }

  /** An answer that cannot be spelled from the root word is refused as not possible. */
  lemma UnspellableIsNotPossible(used: seq<string>, root: string, score: int, isReal: string -> bool, text: string)
    requires SessionInvariant(used, root, score, isReal)
    requires Normalize(text) != [] && !Spellable(root, Normalize(text))
    ensures Judge(used, root, isReal, text) == Rejected(NotPossible)
  {
    if Normalize(text) in used {
      AllFitMember(root, isReal, used, Normalize(text));
    }
  }

  /** Submitting the same accepted answer a second time is refused as used. */
  lemma SecondSubmissionIsUsedAlready(used: seq<string>, root: string, isReal: string -> bool, text: string)
    requires Judge(used, root, isReal, text) == Accepted
    ensures Judge([Normalize(text)] + used, root, isReal, text) == Rejected(UsedAlready)
  {
  }

  /**
   * The root word itself reaches the last guard and is refused there, even
   * when it is a recognised word of sufficient length.
   */
  lemma RootWordIsRefused(used: seq<string>, root: string, score: int, isReal: string -> bool, text: string)
    requires SessionInvariant(used, root, score, isReal)
    requires Normalize(text) == root && root != []
    requires isReal(root) && |root| >= MinimumLength
    ensures Judge(used, root, isReal, text) == Rejected(RootWordReused)
  {
    if root in used {
      AllFitMember(root, isReal, used, root);
    }
  }

  /** Every alert message ends with the score line, and the score in it reads back exactly. */
  lemma {:induction false} MessageShowsScore(reason: Reason, root: string, score: int)
    ensures var m := Message(reason, root, score);
      var line := "\nYour score: " + IntToString(score);
      |line| <= |m| && m[|m| - |line|..] == line
    ensures ParseInt(IntToString(score)) == score
  {
    var m := Message(reason, root, score);
    var line := ScoreLine(score);
    var prefix := m[..|m| - |line|];
    assert m == prefix + line by {
      match reason
      case UsedAlready => assert m == "Be more original! " + line;
      case NotPossible => assert m == SpellPrefix + root + "' " + line;
      case NotRecognized =>
      case TooShortWord =>
      case RootWordReused =>
    }
    IntToStringRoundTrip(score);
  }

  // ---------------------------------------------------------------------
  // The view's state and its event handlers
  // ---------------------------------------------------------------------

  /** The `@State` fields of `ContentView` and the functions that change them. */
  class ContentView {
    var usedWords: seq<string>
    var rootWord: string
    var newWord: string
    var errorTitle: string
    var errorMessage: string
    var showingError: bool
    var score: int
    /** The spell-checker behind `isReal`, fixed for the life of the view. */
    const isReal: string -> bool

    ghost predicate Valid()
      reads this
    {
      SessionInvariant(usedWords, rootWord, score, isReal)
    }

    /** The outcome the current input would reach if submitted now. */
    ghost function Pending(): Verdict
      reads this
    {
      Judge(usedWords, rootWord, isReal, newWord)
    }

    /** The initial values of the `@State` fields. */
    constructor (isReal: string -> bool)
      ensures Valid()
      ensures usedWords == [] && rootWord == "" && newWord == ""
      ensures errorTitle == "" && errorMessage == "" && !showingError
      ensures score == 0 && this.isReal == isReal
    {
      usedWords := [];
      rootWord := "";
      newWord := "";
      errorTitle := "";
      errorMessage := "";
      showingError := false;
      score := 0;
      this.isReal := isReal;
    }

    /**
     * `startGame`, given what `randomElement()` drew from the word list:
     * a new root word, score zero, empty input and no accepted words, from
     * any prior state. The alert fields are left as they were.
     */
    method StartGame(picked: Option<string>)
      modifies this`rootWord, this`score, this`newWord, this`usedWords
      ensures rootWord == picked.GetOr(FallbackRootWord)
      ensures score == 0 && newWord == "" && usedWords == []
      ensures Valid()
    {
      rootWord := picked.GetOr(FallbackRootWord);
      score := 0;
      newWord := "";
      if usedWords != [] {
        usedWords := [];
        return;
      }
    }

    /** `wordError`: records the alert and asks for it to be shown. */
    method WordError(title: string, message: string)
      modifies this`errorTitle, this`errorMessage, this`showingError
      ensures errorTitle == title && errorMessage == message && showingError
    {
      errorTitle := title;
      errorMessage := message;
      showingError := true;
    }

    /** `calculateScore`: adds the points of one accepted word. */
    method CalculateScore(word: string)
      modifies this`score
      ensures score == old(score) + WordScore(word)
    {
      score := score + |word| * ScorePerLetter;
    }

    /**
     * `isPossible`: walks the word, removing the first matching letter from
     * a copy of the root word, and fails at the first letter with no match
     * left. It answers yes exactly when every letter occurs in the word at
     * most as often as in the root word; the root word is not changed.
     */
    method IsPossible(word: string) returns (possible: bool)
      ensures possible <==> Spellable(rootWord, word)
    {
      var tempWord := rootWord;
      for i := 0 to |word|
        invariant |tempWord| + i == |rootWord|
        invariant multiset(tempWord) + multiset(word[..i]) == multiset(rootWord)
      {
        var letter := word[i];
        match FirstIndex(tempWord, letter)
        case Some(pos) =>
          assert word[..i + 1] == word[..i] + [letter];
          tempWord := RemoveAt(tempWord, pos);
        case None =>
          assert word == word[..i] + [letter] + word[i + 1..];
          assert multiset(word)[letter] > multiset(rootWord)[letter];
          return false;
      }
      assert word[..|word|] == word;
      return true;
    }

    /**
     * `addNewWord`, with `picked` standing for the word a restart would
     * draw. A blank answer changes nothing; an accepted answer is put in
     * front of the used words and scored, and the input is cleared; a
     * refused one raises the alert for the first failing guard, quoting the
     * old score, and restarts the game.
     */
    method AddNewWord(picked: Option<string>)
      requires Valid()
      modifies this
      ensures Valid()
      ensures old(Pending()) == Ignored ==> unchanged(this)
      ensures old(Pending()) == Accepted ==>
        && usedWords == [Normalize(old(newWord))] + old(usedWords)
        && score == old(score) + WordScore(Normalize(old(newWord)))
        && newWord == ""
        && rootWord == old(rootWord)
        && errorTitle == old(errorTitle) && errorMessage == old(errorMessage)
        && showingError == old(showingError)
      ensures old(Pending()).Rejected? ==>
        && errorTitle == Title(old(Pending()).reason)
        && errorMessage == Message(old(Pending()).reason, old(rootWord), old(score))
        && showingError
        && rootWord == picked.GetOr(FallbackRootWord)
        && usedWords == [] && score == 0 && newWord == ""
    {
      ghost var verdict := Pending();
      var answer := Normalize(newWord);
      if |answer| == 0 {
        return;
      }

      if !IsOriginal(usedWords, answer) {
        assert verdict == Rejected(UsedAlready);
        WordError(Title(UsedAlready), Message(UsedAlready, rootWord, score));
        StartGame(picked);
        return;
      }

      var possible := IsPossible(answer);
      if !possible {
        assert verdict == Rejected(NotPossible);
        WordError(Title(NotPossible), Message(NotPossible, rootWord, score));
        StartGame(picked);
        return;
      }

      if !isReal(answer) {
        assert verdict == Rejected(NotRecognized);
        WordError(Title(NotRecognized), Message(NotRecognized, rootWord, score));
        StartGame(picked);
        return;
      }

      if TooShort(answer) {
        assert verdict == Rejected(TooShortWord);
        WordError(Title(TooShortWord), Message(TooShortWord, rootWord, score));
        StartGame(picked);
        return;
      }

      if IsRootWord(rootWord, answer) {
        assert verdict == Rejected(RootWordReused);
        WordError(Title(RootWordReused), Message(RootWordReused, rootWord, score));
        StartGame(picked);
        return;
      }

      assert verdict == Accepted;
      AcceptedKeepsInvariant(usedWords, rootWord, score, isReal, newWord);
      usedWords := [answer] + usedWords;
      CalculateScore(answer);
      newWord := "";
    }
  }
}
