/** Pure model of the Hangman engine (`GuessService`): the four session keys
    as a value, and the two requests of the engine as functions from the old
    session (and, for the read path, the word source's replies) to the new
    session and the result. The classes in module Service run the same steps
    imperatively and are proved equal to these functions. */
module Game {
  import opened Text

  datatype Option<T> = None | Some(value: T)

  datatype GameStatus = Ongoing | Win | Defeat

  /** A game is lost once the incorrect guesses EXCEED this number. */
  const MaxGuesses: nat := 6
  const CelebrationMessage: string := "Congratulations! You've found the word: "
  const DefeatMessage: string := "Alas, you failed to guess: "
  const GoAgain: string := ". Let's try again!"

  /** The string-valued session keys `RandomWord`, `CorrectGuesses` and
      `IncorrectGuesses`; `GameStatus` is kept apart, as a status value. */
  datatype TextKey = RandomWord | CorrectGuesses | IncorrectGuesses

  /** One user's session: each key is absent or holds a value. */
  datatype SessionState = SessionState(
    word: Option<string>,
    status: Option<GameStatus>,
    correctGuesses: Option<string>,
    incorrectGuesses: Option<string>)

  /** The session after `Session.Clear()` or after the idle timeout. */
  const EmptySession: SessionState := SessionState(None, None, None, None)

  function Lookup(s: SessionState, key: TextKey): Option<string> {
    match key
    case RandomWord => s.word
    case CorrectGuesses => s.correctGuesses
    case IncorrectGuesses => s.incorrectGuesses
  }

  /** `Session.SetString(key, value)`. */
  function Store(s: SessionState, key: TextKey, value: string): (t: SessionState)
    ensures Lookup(t, key) == Some(value) && t.status == s.status
    ensures forall k :: k != key ==> Lookup(t, k) == Lookup(s, k)
  {
    match key
    case RandomWord => s.(word := Some(value))
    case CorrectGuesses => s.(correctGuesses := Some(value))
    case IncorrectGuesses => s.(incorrectGuesses := Some(value))
  }

  /** The engine's failures: the stale-session `TimeoutException`, the
      already-guessed `ArgumentException`, and any failure of the word source. */
  datatype HangmanError = StaleSession | DuplicateGuess | WordSourceFailure

  datatype Result<T> = Success(value: T) | Failure(error: HangmanError)

  /** What the read path hands to the controller. */
  datatype ActiveWordModel = ActiveWordModel(
    gameEnd: bool,
    gameWin: bool,
    endMessage: string,
    displayWord: string,
    currentWord: string,
    incorrectGuesses: string,
    guessedLetters: string)

  /** `GetSessionString`: an absent key reads as the empty string, a present
      one is read upper-cased. */
  function GetSessionString(stored: Option<string>): (r: string)
    ensures IsUpper(r)
    ensures stored.None? ==> r == ""
    ensures stored.Some? ==> |r| == |stored.value|
    ensures stored.Some? ==> forall i :: 0 <= i < |r| ==> r[i] == UpperChar(stored.value[i])
  {
    match stored
    case None => ""
    case Some(v) => Upper(v)
  }

  function WordView(s: SessionState): string { GetSessionString(s.word) }
  function CorrectView(s: SessionState): string { GetSessionString(s.correctGuesses) }
  function IncorrectView(s: SessionState): string { GetSessionString(s.incorrectGuesses) }

  /** `SetDisplayWordValues`: for each letter of the word, the letter itself
      when it is among the guessed letters, else an underscore; each followed
      by a space. */
  function DisplayWordValues(word: string, guessedLetters: string): (d: string)
    ensures |d| == 2 * |word|
  {
    if word == [] then []
    else
      (if word[0] in Upper(guessedLetters) then [word[0], ' '] else ['_', ' '])
      + DisplayWordValues(word[1..], guessedLetters)
  }

  /** `AppendWordAndEndToMessage`. */
  function AppendWordAndEndToMessage(s: SessionState): (m: string)
    ensures |m| == |WordView(s)| + |GoAgain|
    ensures m[..|WordView(s)|] == WordView(s) && m[|WordView(s)|..] == GoAgain
  {
    WordView(s) + GoAgain
  }

  /** Every letter of the word is among the correct guesses. */
  predicate AllFound(word: string, correct: string) {
    forall i :: 0 <= i < |word| ==> word[i] in correct
  }

  /** The status `HandleGuess` stores after a guess: a win takes precedence
      over a defeat, and a defeat needs more than `MaxGuesses` misses. */
  function StatusOf(word: string, correct: string, incorrect: string): (st: GameStatus)
    ensures st == Win <==> AllFound(word, correct)
    ensures st == Defeat <==> !AllFound(word, correct) && |incorrect| > MaxGuesses
  {
    if AllFound(word, correct) then Win
    else if |incorrect| > MaxGuesses then Defeat
    else Ongoing
  }

  /** `VerifyGuess`: refuse a guess on a session without a word or a letter
      already guessed, otherwise write both guess lists back with the letter
      added to the correct one or to the incorrect one. */
  function RecordGuess(s: SessionState, guess: char): (r: Result<SessionState>)
    ensures r == Failure(StaleSession) <==> WordView(s) == ""
    ensures r.Success? <==>
              WordView(s) != "" && guess !in CorrectView(s) && guess !in IncorrectView(s)
    ensures r.Success? ==> r.value.word == s.word && r.value.status == s.status
  {
    var word := WordView(s);
    if word == "" then Failure(StaleSession)
    else
      var correct := CorrectView(s);
      var incorrect := IncorrectView(s);
      if guess in correct || guess in incorrect then Failure(DuplicateGuess)
      else if guess in word then
        Success(Store(Store(s, CorrectGuesses, correct + [guess]), IncorrectGuesses, incorrect))
      else
        Success(Store(Store(s, CorrectGuesses, correct), IncorrectGuesses, incorrect + [guess]))
  }

  /** `HandleGuess`: record the guess, then re-read the session and store the
      status it now implies. It fails for a session whose word reads as
      empty, then for a letter already guessed, and never for anything else;
      it never replaces the word. */
  function Guess(s: SessionState, guess: char): (r: Result<SessionState>)
    ensures r == Failure(StaleSession) <==> WordView(s) == ""
    ensures r == Failure(DuplicateGuess) <==>
              WordView(s) != "" && (guess in CorrectView(s) || guess in IncorrectView(s))
    ensures r.Success? <==>
              WordView(s) != "" && guess !in CorrectView(s) && guess !in IncorrectView(s)
    ensures r.Success? ==> r.value.word == s.word && r.value.status.Some?
  {
    match RecordGuess(s, guess)
    case Failure(e) => Failure(e)
    case Success(t) =>
      Success(t.(status := Some(StatusOf(WordView(t), CorrectView(t), IncorrectView(t)))))
  }

  /** The word source answers each request with the next scripted reply;
      `None`, or no reply left, is a failed request. */
  function NextWord(replies: seq<Option<string>>): Option<string> {
    if replies == [] then None else replies[0]
  }

  function RestReplies(replies: seq<Option<string>>): seq<Option<string>> {
    if replies == [] then [] else replies[1..]
  }

  /** The outcome of one read: the result, the session afterwards, and the
      replies the word source has not yet given. */
  datatype Resolution = Resolution(
    result: Result<ActiveWordModel>,
    state: SessionState,
    remaining: seq<Option<string>>)

  /** The status as `Handle` reads it: an absent status counts as Ongoing. */
  function ReadStatus(s: SessionState): (st: GameStatus)
    ensures st == Ongoing <==> s.status.None? || s.status == Some(Ongoing)
    ensures s.status.Some? ==> st == s.status.value
  {
    match s.status
    case None => Ongoing
    case Some(st) => st
  }

  /** `Handle`: after a win or a defeat, build the end message from the old
      word, clear the session and fetch a new word; then fetch a word if the
      session holds none, and report the reveal pattern. */
  function Resolve(s: SessionState, replies: seq<Option<string>>): (r: Resolution)
    ensures r.result.Failure? ==> r.result.error == WordSourceFailure
    ensures r.result.Success? ==>
              (r.result.value.gameEnd <==> ReadStatus(s) != Ongoing)
              && (r.result.value.gameWin <==> ReadStatus(s) == Win)
    ensures ReadStatus(s) != Ongoing ==>
              r.state.status.None? && r.state.correctGuesses.None? && r.state.incorrectGuesses.None?
  {
    var status := ReadStatus(s);
    if status == Win || status == Defeat then
      var endMessage :=
        (if status == Win then CelebrationMessage else DefeatMessage) + AppendWordAndEndToMessage(s);
      match NextWord(replies)
      case None => Resolution(Failure(WordSourceFailure), EmptySession, RestReplies(replies))
      case Some(w) =>
        ReadActiveWord(Store(EmptySession, RandomWord, w), RestReplies(replies), true, status == Win, endMessage)
    else
      ReadActiveWord(s, replies, false, false, "")
  }

  /** The second half of `Handle`: fetch a word if the stored one is blank,
      then read both guess lists and build the model. On the fetch path the
      current word is the fetched word as the source gave it, not upper-cased. */
  function ReadActiveWord(s: SessionState, replies: seq<Option<string>>,
                          gameEnd: bool, gameWin: bool, endMessage: string): (r: Resolution)
    ensures !IsNullOrWhiteSpace(WordView(s)) ==> r.state == s && r.remaining == replies
    ensures r.state.status == s.status && r.state.correctGuesses == s.correctGuesses
              && r.state.incorrectGuesses == s.incorrectGuesses
    ensures r.result.Failure? ==> r.result.error == WordSourceFailure && r.state == s
    ensures r.result.Success? ==>
              r.result.value.gameEnd == gameEnd && r.result.value.gameWin == gameWin
              && r.result.value.endMessage == endMessage
  {
    var word := WordView(s);
    if IsNullOrWhiteSpace(word) then
      match NextWord(replies)
      case None => Resolution(Failure(WordSourceFailure), s, RestReplies(replies))
      case Some(w) =>
        var t := Store(s, RandomWord, w);
        Resolution(Success(MakeModel(t, w, gameEnd, gameWin, endMessage)), t, RestReplies(replies))
    else
      Resolution(Success(MakeModel(s, word, gameEnd, gameWin, endMessage)), s, replies)
  }

  function MakeModel(s: SessionState, word: string,
                     gameEnd: bool, gameWin: bool, endMessage: string): ActiveWordModel
  {
    var guessed := CorrectView(s);
    ActiveWordModel(gameEnd, gameWin, endMessage, DisplayWordValues(word, guessed),
                    word, IncorrectView(s), guessed)
  }

  /** No letter occurs twice. */
  predicate Distinct(s: string) {
    forall j, k :: 0 <= j < k < |s| ==> s[j] != s[k]
  }

  /** The session invariant: a word reads either as empty (and then nothing
      was guessed) or as non-blank; every correct guess is in the word, no
      incorrect guess is, no letter was guessed twice; the status is Win
      exactly when every letter of a present word was found, and Defeat only
      after more than `MaxGuesses` misses. */
  predicate Consistent(s: SessionState) {
    var w, c, i := WordView(s), CorrectView(s), IncorrectView(s);
    (w == "" || !IsNullOrWhiteSpace(w))
    && (w == "" ==> c == "" && i == "")
    && (forall k :: 0 <= k < |c| ==> c[k] in w)
    && (forall k :: 0 <= k < |i| ==> i[k] !in w)
    && Distinct(c) && Distinct(i)
    && (forall k :: 0 <= k < |c| ==> c[k] !in i)
    && (s.status == Some(Win) <==> w != "" && AllFound(w, c))
    && (s.status == Some(Defeat) ==> |i| > MaxGuesses)
  }

  /** What the controller guarantees of a guess: it has been upper-cased. */
  predicate IsGuessable(c: char) {
    UpperChar(c) == c
  }

  /** Every reply the word source gives is a non-blank word. */
  predicate NonBlankReplies(replies: seq<Option<string>>) {
    forall k :: 0 <= k < |replies| && replies[k].Some? ==> !IsNullOrWhiteSpace(replies[k].value)
  }
}
