# Hangman game engine — a Dafny model

This project models the game engine of TheHangManGame, the `GuessService`
class. The engine keeps one Hangman game per user in four session keys:
`RandomWord`, `GameStatus`, `CorrectGuesses` and `IncorrectGuesses`. It
serves two requests:

- `Handle` is the read path. It reads the status; an absent status counts as
  Ongoing. After a Win or a Defeat it builds the end message from the old
  word, clears the whole session and fetches a new word at once. It fetches a
  word lazily when none is stored. It returns the reveal pattern ("C _ T ").
- `HandleGuess` is the write path. It refuses a guess when the session has
  no word (the session timed out) or when the letter was already guessed.
  Otherwise it appends the letter to the correct or the incorrect list and
  recomputes the status. A win takes precedence; otherwise the game is lost
  once more than `MaxGuesses` = 6 letters are wrong, that is on the 7th.

Files:

- `text.dfy` (module `Text`): the .NET string services the engine relies
  on. `ToUpper` is modelled on ASCII letters; `char.IsWhiteSpace` and
  `string.IsNullOrWhiteSpace` are modelled on the full .NET white-space set.
- `game.dfy` (module `Game`): the pure model. The session is a value
  `SessionState` of four optional keys. `Guess` is the write path and
  `Resolve` the read path, as functions from the old session (and the word
  source's remaining replies) to the result and the new session. It also
  holds `DisplayWordValues` (the reveal pattern) and the session invariant
  `Consistent`.
- `properties.dfy` (module `GameProperties`): the lemmas about that model.
- `service.dfy` (module `Service`): the engine as the source runs it.
  `SessionStore` is a class whose four fields the methods overwrite in place.
  `WordSource` is a class that hands out scripted replies one per request.
  `GuessService` has the methods `Handle`, `HandleGuess`, `VerifyGuess`,
  `StartNewSession` and `GetNewWord`. Each method's postcondition says that
  the new session, the result and the consumed replies are exactly what the
  matching function of `Game` gives for the old session.

The word source is outside the engine. It is modelled as a sequence of
replies: `Some(w)` is a word returned as the service gave it (possibly lower
case, possibly blank), and `None` or an exhausted sequence is a failed
request. The session's idle timeout is modelled as `SessionStore.Clear`,
which the host may call between any two requests.

Places where the code behaves in a way that is easy to misread; the model follows the code:

- A failed word fetch after a Win or a Defeat does not leave the session as it
  was. `StartNewSession` clears the session before it fetches, so the session
  stays empty (`ResolveAfterEndFetchFails`).
- The engine does not upper-case the guess. The controller does, so
  `HandleGuess` requires an upper-case guess (`IsGuessable`).
- When `Handle` fetches a word lazily, it uses the fetched word exactly as
  returned, not upper-cased, for `CurrentWord` and for the reveal pattern
  (`ResolveLazyStart`). A stored word is always read upper-cased.
- `VerifyGuess` refuses only a word that reads as empty. `Handle` re-fetches
  any blank word, including one made only of white space. So
  `ResolvePreservesConsistent` needs the word source never to return a blank
  word. Otherwise guesses made against a blank word survive the re-fetch.

## Model

| member | source | states |
|---|---|---|
| Text.UpperChar | src/Controllers/HomeController.cs:70 | the upper-cased guess is an ASCII capital exactly when the input was an ASCII letter, and is never a lower-case ASCII letter |
| Text.Upper | src/Services/GuessService.cs:136 | `ToUpper` keeps the length, maps every position to its capital, and yields an upper-case string |
| Text.IsNullOrWhiteSpace | src/Services/GuessService.cs:64 | the empty string is blank, and no blank string contains an ASCII letter; `UpperKeepsBlankness` proves upper-casing never changes blankness |
| Text.UpperOfUpper | src/Services/GuessService.cs:134-137 | reading back a string that was written upper-cased gives it unchanged |
| Text.UpperAppend | src/Services/GuessService.cs:209-217 | upper-casing a guess list with one letter appended is the upper-cased list with the upper-cased letter appended |
| Text.UpperKeepsBlankness | src/Services/GuessService.cs:63-64 | a word is blank after upper-casing exactly when it was blank before |
| Game.Store | src/Services/GuessService.cs:129-132 | writing a key sets that key to the value and leaves every other key and the status as they were |
| Game.GetSessionString | src/Services/GuessService.cs:134-137 | an absent key reads as the empty string; a present one reads as its upper-cased value: same length, and each position is the capital of the stored character there |
| Game.DisplayWordValues | src/Services/GuessService.cs:139-145 | the reveal pattern has two characters per letter of the word |
| GameProperties.DisplayWordValuesAt | src/Services/GuessService.cs:139-145 | position 2i of the pattern is letter i of the word when the upper-cased guesses contain it and `_` otherwise; position 2i+1 is a space |
| GameProperties.DisplayWithNoGuesses | src/Services/GuessService.cs:139-145 | with nothing guessed the pattern is `_ ` once per letter |
| Game.AppendWordAndEndToMessage | src/Services/GuessService.cs:85-88 | the message tail is the word as read from the session (upper-cased), followed by ". Let's try again!" |
| Game.StatusOf | src/Services/GuessService.cs:161-182 | the status is Win exactly when every letter of the word is among the correct guesses, and Defeat exactly when it is not a win and more than 6 guesses are wrong |
| Game.RecordGuess | src/Services/GuessService.cs:186-219 | fails with StaleSession exactly when the word reads as empty, succeeds exactly when the word is present and the letter is in neither list, and on success keeps the word and the status; `GuessAppends` states which list grows |
| Game.Guess | src/Services/GuessService.cs:147-219 | a guess fails with StaleSession exactly when the word reads as empty, fails with DuplicateGuess exactly when the word is present and the letter is in either list, and otherwise succeeds, keeps the word and stores a status |
| GameProperties.GuessAppends | src/Services/GuessService.cs:157-217 | an accepted guess is appended to the correct list exactly when the word contains it and to the incorrect list otherwise; the other list is unchanged; the stored status is Win if every letter of the word is found, else Defeat if more than 6 are wrong, else Ongoing |
| GameProperties.RepeatedGuessIsRefused | src/Services/GuessService.cs:197-204 | guessing a letter again right after it was accepted fails with DuplicateGuess |
| GameProperties.GuessPreservesConsistent | src/Services/GuessService.cs:186-219 | an accepted guess keeps the session invariant: correct letters in the word, incorrect ones not, no letter twice across both lists, Win exactly when every letter is found, Defeat only after more than 6 misses |
| GameProperties.GuessAllTracks | src/Services/GuessService.cs:147-219 | a run of fresh distinct guesses is all accepted; the correct list grows by the hits and the incorrect list by the misses, in order |
| GameProperties.EveryLetterWins | src/Services/GuessService.cs:161-167 | guessing every letter not yet found, in any order and with any misses in between, ends with the status Win |
| GameProperties.MissesOnFreshGame | src/Services/GuessService.cs:168-182 | on a game with nothing guessed, n distinct misses leave the status Ongoing for n up to 6 and Defeat from the 7th on |
| Game.ReadStatus | src/Services/GuessService.cs:41-42 | the status reads as Ongoing exactly when it is absent or stored as Ongoing; a stored status reads as itself |
| Game.Resolve | src/Services/GuessService.cs:33-83 | a read fails only with WordSourceFailure; on success it reports the end exactly when the status was Win or Defeat and a win exactly on Win; after an end the new session has no status and no guesses. `ResolveAfterEnd`, `ResolveAfterEndFetchFails`, `ResolveOngoing`, `ResolveLazyStart` and `ResolvePreservesConsistent` state the rest |
| Game.ReadActiveWord | src/Services/GuessService.cs:63-81 | a non-blank word is used without fetching and changes nothing; the status and guesses are never changed; a failed fetch leaves the session as it was; the end flags and message are passed through to the model |
| GameProperties.ResolveAfterEnd | src/Services/GuessService.cs:41-61 | after Win or Defeat, a read reports the end (won exactly on Win) with the message prefix, the old word and ". Let's try again!". It leaves only the new word in the session, with no guesses and every letter hidden. The next read is an ordinary ongoing one |
| GameProperties.ResolveAfterEndFetchFails | src/Services/GuessService.cs:90-100 | after Win or Defeat, a failed fetch of the new word fails the read with WordSourceFailure and leaves the session empty |
| GameProperties.ResolveOngoing | src/Services/GuessService.cs:41-83 | with an absent or Ongoing status and a non-blank word, a read fetches nothing and changes no key, and a second read returns the same result |
| GameProperties.ResolveLazyStart | src/Services/GuessService.cs:63-65 | with an absent or Ongoing status and a blank word, a read stores a freshly fetched word and keeps the guesses; a failed fetch changes nothing |
| GameProperties.ResolvePreservesConsistent | src/Services/GuessService.cs:33-83 | when the word source returns only non-blank words, a read keeps the session invariant |
| GameProperties.ExpiredSessionIsConsistent | src/Extensions/DependencyInjectionExtensions.cs:25 | a session cleared by the idle timeout satisfies the invariant |
| GameProperties.CatIsWon | src/Services/GuessService.cs:147-184 | with the word "cat", guessing C, A, T wins, and the next read announces "CAT" and starts the next game |
| GameProperties.DogSurvivesSixMisses | src/Services/GuessService.cs:168-182 | with the word "dog", six misses leave the game Ongoing |
| GameProperties.DogIsLost | src/Services/GuessService.cs:168-174 | with the word "dog", the seventh miss makes it a Defeat, and the next read announces the defeat with "DOG" |
| Service.SessionStore.SetString | src/Services/GuessService.cs:129-132 | writing a string key changes that key only |
| Service.SessionStore.SetStatus | src/Services/GuessService.cs:161-182 | writing the status changes the status only |
| Service.SessionStore.Clear | src/Services/GuessService.cs:95 | clearing makes every key absent |
| Service.WordSource.GetRandomWord | src/Services/RandomWordService.cs:24-50 | each request consumes one reply; no reply left is a failure |
| Service.GuessService.Handle | src/Services/GuessService.cs:33-83 | the result, the new session and the replies consumed are those of `Resolve`; the read keeps the session invariant when the word source returns only non-blank words |
| Service.GuessService.StartNewSession | src/Services/GuessService.cs:90-100 | the session is cleared and then holds only the fetched word; a failed fetch leaves it cleared |
| Service.GuessService.GetNewWord | src/Services/GuessService.cs:102-127 | the fetched word is stored as returned, and only the word key changes; a failed fetch writes nothing and reports WordSourceFailure |
| Service.GuessService.HandleGuess | src/Services/GuessService.cs:147-184 | the new session is that of `Guess`; a refused guess writes nothing; an accepted guess keeps the session invariant |
| Service.GuessService.VerifyGuess | src/Services/GuessService.cs:186-219 | refuses a session without a word, then a repeated letter, writing nothing; otherwise writes both guess lists back with the letter added to the list it belongs to |

## Left out

- Logging and performance tracking (`_logger`, `TrackPerformance`): side effects only, with a clock.
- The `async`/`await` machinery and concurrent requests on one session: the model runs one request at a time.
- The missing-`HttpContext` check (`ArgumentNullException`): the model always has a session.
- `GameStatus` is stored as absent or one of the three values. What an unparseable status string reads as depends on an enum definition that is not part of this model.
- The HTTP request and JSON parsing in `RandomWordService`: they are replaced by the scripted `WordSource`, and every failure of theirs is the one error WordSourceFailure.
- The 20-second idle timeout appears only as `SessionStore.Clear` between requests.
- The controller's `char.IsLetter` check: the engine does not depend on it. `HandleGuess` requires only an upper-cased guess.
- Text.UpperChar: upper-cases ASCII letters only. .NET `ToUpper` also maps non-ASCII letters and depends on the culture.
- Text.Upper: has the same ASCII-only restriction as `Text.UpperChar`.
- The MVC view plumbing (`ViewBag`, `TempData`, redirects) and the host configuration.
