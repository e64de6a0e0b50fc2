# WordScramble session model

WordScramble is a one-screen word game. The player is given a random root
word (for example "silkworm") and types words made from its letters. Each
submitted answer is lower-cased and trimmed, then checked by five guards in
a fixed order:

1. not used already in this game;
2. spellable from the root word, each root letter used at most once;
3. recognised by the spell-checker;
4. at least three letters long;
5. not the root word itself.

An accepted answer is put at the front of the list of used words and earns
five points per letter. A refused answer raises an alert with a title and a
message that quotes the current score. The game then restarts: a new root
word, no used words, score zero.

The project models the state of `ContentView` and the functions that
change it:

- `wrappers.dfy`: `Option`, the Swift optional.
- `strings.dfy` (module `Strings`): the parts of Swift's `String` library
  the game relies on. These are `lowercased()`,
  `trimmingCharacters(in: .whitespacesAndNewlines)`, `firstIndex(of:)`,
  `remove(at:)` and the decimal text of an `Int` inside a string
  interpolation.
- `word_scramble.dfy` (module `WordScramble`):
  - the guards as predicates over the session's values;
  - `Judge`, the outcome a submission reaches;
  - the alert titles and messages;
  - the session invariant;
  - the class `ContentView`, whose fields are the view's `@State` fields and
    whose methods are `addNewWord`, `startGame`, `wordError`,
    `calculateScore` and `isPossible`.

`isPossible` keeps its imperative form. It loops over the word and removes
the first matching letter from a copy of the root word. Its contract says
that it answers yes exactly when the word's letter multiset is contained in
the root word's. `AddNewWord` is specified against `Judge` evaluated on the
old state. It says what every field becomes:

- a blank answer changes nothing;
- an accepted answer is prepended and scored, and the input is cleared;
- a refused answer records the title and message of the first failing
  guard, and then resets the game.

The session invariant is established by the constructor and kept by
`StartGame` and `AddNewWord`; `CalculateScore` is one step inside
`AddNewWord` and does not keep it on its own:

- the score equals five times the summed lengths of the used words;
- no word is used twice;
- every used word is normalised, passes the spell-checker, has at least
  three letters, is not the root word, and is spellable from the current
  root word.

The spell-checker is the constant `isReal` of a `ContentView`, given to its
constructor. The word a restart draws is a parameter `picked` of
`StartGame` and `AddNewWord`. `randomElement()` on the lines of a file
never yields nothing, since splitting text on newlines gives at least one
line; an empty or newline-terminated line gives a root word of "", which
`Some("")` covers. `None`, which falls back to "silkworm", is a harmless
over-approximation the game never produces.

A refused answer does more than reject the word: every failing guard calls
`startGame`, which clears the used words, zeroes the score and draws a new
root word (ContentView.swift:70-94). The alert message quotes the score
from before the reset (ContentView.swift:71-91).

## Model

| member | source | states |
|---|---|---|
| `Strings.Lower` | ContentView.swift:67 | lower-casing keeps the length of the answer |
| `Strings.Trim` | ContentView.swift:67 | trimming keeps a slice that starts after the leading whitespace and ends within the text |
| `Strings.Normalize` | ContentView.swift:67 | the normalised answer is never longer than the typed text |
| `Strings.LowerLetters` | ContentView.swift:67 | lower-casing leaves no upper-case letter, keeps every other character and maps each upper-case letter to the same letter in lower case |
| `Strings.TrimSlice` | ContentView.swift:67 | trimming yields the slice after the leading whitespace; everything cut off on either side is whitespace; the result neither starts nor ends with whitespace; it is empty exactly when the input is all whitespace |
| `Strings.NormalizeShape` | ContentView.swift:67 | a normalised answer has no upper-case letter and no whitespace at either end |
| `Strings.NormalizedIsFixed` | ContentView.swift:67 | a string with that shape is its own normal form |
| `Strings.NormalizeIdempotent` | ContentView.swift:67 | normalising twice gives the same answer as normalising once |
| `Strings.NormalizeEmpty` | ContentView.swift:67-68 | an answer normalises to "" exactly when every character of it is whitespace |
| `Strings.FirstIndex` | ContentView.swift:132 | `firstIndex(of:)` returns nothing exactly when the letter is absent, and otherwise the position of its first occurrence |
| `Strings.RemoveAt` | ContentView.swift:133 | `remove(at:)` drops exactly the character at that position, keeps the others in order and shrinks the letter multiset by that one character |
| `Strings.NatToString` | ContentView.swift:71 | the interpolated score is a non-empty string of decimal digits without leading zeros |
| `Strings.IntToString` | ContentView.swift:71 | the interpolated score is non-empty and starts with a minus sign exactly when the score is negative |
| `Strings.IntToStringRoundTrip` | ContentView.swift:71 | the score written into an alert message reads back as exactly that score, including a sign for a negative value |
| `WordScramble.IsOriginal` | ContentView.swift:124-126 | a word is original exactly when no position of the used list holds it |
| `WordScramble.TooShort` | ContentView.swift:151-158 | a word is too short exactly when it has fewer than three letters; a word that passes earns at least fifteen points |
| `WordScramble.IsRootWord` | ContentView.swift:160-167 | the root word is always spellable from itself, so only this guard, not `isPossible`, refuses it |
| `WordScramble.Judge` | ContentView.swift:66-94 | a submission is ignored exactly when its normal form is empty; an accepted answer is unused, in normal form, non-empty, spellable, recognised, at least three letters long and not the root word |
| `WordScramble.Title` | ContentView.swift:70-92 | the title "Word is not allowed" is shown exactly for the too-short and root-word refusals |
| `WordScramble.Message` | ContentView.swift:76 | the message for an unspellable answer quotes the root word right after "You cant spell that word from '" |
| `WordScramble.TotalScore` | ContentView.swift:175-177 | the points of the used words are five times their letters, all words together |
| `WordScramble.SessionInvariant` | ContentView.swift:66-101 | in a session that keeps the invariant the score is a multiple of five and is zero exactly when no word is used |
| `WordScramble.ContentView.IsPossible` | ContentView.swift:128-141 | the consume-once loop answers true exactly when the word's letter multiset is contained in the root word's; `rootWord` is not modified, and each step removes exactly one letter from the copy |
| `WordScramble.SpellableCounts` | ContentView.swift:128-141 | being spellable means that every character occurs in the word at most as often as in the root word |
| `WordScramble.ContentView.AddNewWord` | ContentView.swift:66-101 | a blank answer changes no field; an accepted answer goes first in `usedWords` before the old list, adds `5 × length` to `score`, and clears `newWord`, leaving the root and alert fields alone; a refused answer sets the alert title and message of the first failing guard (quoting the old root word and score), sets `showingError`, and resets the game; the session invariant is kept |
| `WordScramble.ContentView.StartGame` | ContentView.swift:103-122 | from any prior state: the drawn word (or "silkworm" when none) becomes the root, and score 0, empty input and no used words follow; the alert fields do not change; the session invariant holds afterwards |
| `WordScramble.ContentView.WordError` | ContentView.swift:169-173 | records the title and message and sets `showingError`, changing no other field |
| `WordScramble.ContentView.CalculateScore` | ContentView.swift:175-177 | adds exactly `length × 5` to `score` and changes no other field |
| `WordScramble.ContentView.constructor` | ContentView.swift:12-20 | the `@State` fields start empty, false or zero, and the session invariant holds |
| `WordScramble.AcceptedIffAllGuardsPass` | ContentView.swift:66-101 | an answer is accepted exactly when its normal form is non-empty, unused, spellable from the root, recognised, at least three letters long and different from the root |
| `WordScramble.FirstFailingGuardDecides` | ContentView.swift:70-94 | the refusal reason is that of the first failing guard, in the order used, possible, real, too short, root word, each stated in both directions; e.g. an unrecognised two-letter answer is refused as not recognised, not as too short |
| `WordScramble.IgnoredIffBlank` | ContentView.swift:67-68 | the submission is ignored exactly when the typed text is all whitespace |
| `WordScramble.AcceptedKeepsInvariant` | ContentView.swift:96-99 | accepting an answer keeps the session invariant, with the new word added to the list and its points to the score |
| `WordScramble.AllFitMember` | ContentView.swift:151-167 | every word in the used list is normalised, non-empty, spellable from the current root, recognised, at least three letters long and not the root word |
| `WordScramble.DistinctPairwise` | ContentView.swift:124-126 | no two positions of the used list hold the same word |
| `WordScramble.TotalScoreShape` | ContentView.swift:175-177 | the score of a session is a multiple of five, at least fifteen per used word, and zero exactly when no word has been accepted |
| `WordScramble.RepeatIsUsedAlready` | ContentView.swift:124-126 | in a session that keeps the invariant, an answer whose normal form is already in the list is refused as used, whatever the other guards would say |
| `WordScramble.UnspellableIsNotPossible` | ContentView.swift:75-78 | in a session that keeps the invariant, a non-empty answer that cannot be spelled from the root is refused as not possible |
| `WordScramble.SecondSubmissionIsUsedAlready` | ContentView.swift:70-73 | submitting an accepted answer a second time is refused as used |
| `WordScramble.RootWordIsRefused` | ContentView.swift:160-167 | the root word itself, when recognised and long enough, passes the first four guards and is refused by the last one |
| `WordScramble.MessageShowsScore` | ContentView.swift:71-91 | every alert message ends with a line "Your score: " followed by the score, and that score reads back exactly |

## Left out

- The SwiftUI `body`, `withAnimation`, the text field, the list, the alert presentation, the toolbar and `ContentView_Previews` are presentation only. The text field's binding is modelled by callers assigning `newWord`.
- `isReal` wraps the platform spell-checker `UITextChecker`. It is the constant function `ContentView.isReal`, given to the constructor, and nothing is assumed about its answers.
- Reading `start.txt` from the bundle, splitting it into lines, `randomElement()` and the `fatalError` for a missing file are file I/O and randomness. `StartGame` receives the drawn word as `picked`.
- Strings.Lower: lower-cases the ASCII letters A to Z only, because Swift's full Unicode case mapping is not modelled.
- Strings.IsWhitespace: the whitespace set is written out by code point. It reflects Foundation's documented `whitespacesAndNewlines`, not the platform's actual tables.
- A Swift `Character` is a grapheme cluster and `count` counts clusters. Here a character is one `char`, and a word's length is the length of the sequence. String equality is code-point equality, not Unicode canonical equivalence.
- `score` is an unbounded integer. Swift's `Int` would trap on overflow, which no realistic game reaches.
