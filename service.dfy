/** The engine as `GuessService` runs it: a session store updated in place,
    a word source consumed one reply at a time, and the service's methods
    reading and writing the session key by key. Each method is proved to do
    exactly what the matching function of module Game describes. */
module Service {
  import opened Text
  import opened Game
  import GameProperties

  /** One user's session store. The host may clear it between any two
      requests (idle timeout); `Clear` is that operation too. */
  class SessionStore {
    var word: Option<string>
    var status: Option<GameStatus>
    var correctGuesses: Option<string>
    var incorrectGuesses: Option<string>

    function State(): SessionState
      reads this
    {
      SessionState(word, status, correctGuesses, incorrectGuesses)
    }

    constructor()
      ensures State() == EmptySession
    {
      word, status, correctGuesses, incorrectGuesses := None, None, None, None;
    }

    /** `Session.GetString` on a string key. */
    function GetString(key: TextKey): Option<string>
      reads this
    {
      Lookup(State(), key)
    }

    /** `Session.SetString` on a string key. */
    method SetString(key: TextKey, value: string)
      modifies this
      ensures State() == Store(old(State()), key, value)
    {
      match key
      case RandomWord => word := Some(value);
      case CorrectGuesses => correctGuesses := Some(value);
      case IncorrectGuesses => incorrectGuesses := Some(value);
    }

    /** `Session.SetString(GameStatus, status.ToString())`. */
    method SetStatus(st: GameStatus)
      modifies this
      ensures State() == old(State()).(status := Some(st))
    {
      status := Some(st);
    }

    /** `Session.Clear()`: every key becomes absent. */
    method Clear()
      modifies this
      ensures State() == EmptySession
    {
      word, status, correctGuesses, incorrectGuesses := None, None, None, None;
    }
  }

  /** The random-word service, seen from the engine: each request takes the
      next scripted reply; `None`, or no reply left, is a failed request. */
  class WordSource {
    var replies: seq<Option<string>>

    constructor(replies: seq<Option<string>>)
      ensures this.replies == replies
    {
      this.replies := replies;
    }

    method GetRandomWord() returns (r: Option<string>)
      modifies this
      ensures r == NextWord(old(replies)) && replies == RestReplies(old(replies))
    {
      if replies == [] {
        r := None;
      } else {
        r := replies[0];
        replies := replies[1..];
      }
    }
  }

  datatype Outcome = Pass | Fail(error: HangmanError)

  class GuessService {
    const session: SessionStore
    const words: WordSource

    constructor(session: SessionStore, words: WordSource)
      ensures this.session == session && this.words == words
    {
      this.session := session;
      this.words := words;
    }

    /** `Handle`: the read path. */
    method Handle() returns (r: Result<ActiveWordModel>)
      modifies session, words
      ensures var o := Resolve(old(session.State()), old(words.replies));
        r == o.result && session.State() == o.state && words.replies == o.remaining
      ensures Consistent(old(session.State())) && NonBlankReplies(old(words.replies)) ==>
                Consistent(session.State())
    {
      ghost var before, replies := session.State(), words.replies;
      if Consistent(before) && NonBlankReplies(replies) {
        GameProperties.ResolvePreservesConsistent(before, replies);
      }
      var status := ReadStatus(session.State());
      var gameEnded := false;
      var gameWin := status == Win;
      var endMessage := "";

      if gameWin {
        gameEnded := true;
        endMessage := CelebrationMessage + AppendWordAndEndToMessage(session.State());
        var started := StartNewSession();
        if started.Fail? {
          return Failure(started.error);
        }
      } else if status == Defeat {
        gameEnded := true;
        endMessage := DefeatMessage + AppendWordAndEndToMessage(session.State());
        var started := StartNewSession();
        if started.Fail? {
          return Failure(started.error);
        }
      }

      var word := GetSessionString(session.GetString(RandomWord));
      if IsNullOrWhiteSpace(word) {
        var fetched := GetNewWord();
        if fetched.Failure? {
          return Failure(fetched.error);
        }
        word := fetched.value;
      }

      var guessedLetters := GetSessionString(session.GetString(CorrectGuesses));
      var incorrectGuesses := GetSessionString(session.GetString(IncorrectGuesses));
      var displayWord := DisplayWordValues(word, guessedLetters);
      r := Success(ActiveWordModel(gameEnded, gameWin, endMessage, displayWord,
                                   word, incorrectGuesses, guessedLetters));
    }

    /** `StartNewSession`: clear the session, then fetch and store a word. A
        failed fetch leaves the session cleared. */
    method StartNewSession() returns (r: Outcome)
      modifies session, words
      ensures words.replies == RestReplies(old(words.replies))
      ensures match NextWord(old(words.replies))
        case None => r == Fail(WordSourceFailure) && session.State() == EmptySession
        case Some(w) => r == Pass && session.State() == Store(EmptySession, RandomWord, w)
    {
      session.Clear();
      var fetched := GetNewWord();
      r := if fetched.Success? then Pass else Fail(fetched.error);
    }

    /** `GetNewWord`: fetch a word and store it as it came. A failed fetch
        writes nothing. */
    method GetNewWord() returns (r: Result<string>)
      modifies session, words
      ensures words.replies == RestReplies(old(words.replies))
      ensures match NextWord(old(words.replies))
        case None => r == Failure(WordSourceFailure) && session.State() == old(session.State())
        case Some(w) => r == Success(w) && session.State() == Store(old(session.State()), RandomWord, w)
    {
      var fetched := words.GetRandomWord();
      if fetched.None? {
        return Failure(WordSourceFailure);
      }
      session.SetString(RandomWord, fetched.value);
      r := Success(fetched.value);
    }

    /** `HandleGuess`: the write path. A refused guess writes nothing; an
        accepted one keeps the session invariant. */
    method HandleGuess(guess: char) returns (r: Outcome)
      requires IsGuessable(guess)
      modifies session
      ensures match Guess(old(session.State()), guess)
        case Failure(e) => r == Fail(e) && session.State() == old(session.State())
        case Success(t) => r == Pass && session.State() == t
      ensures Consistent(old(session.State())) ==> Consistent(session.State())
    {
      var verified := VerifyGuess(guess);
      if verified.Fail? {
        return verified;
      }

      var word := GetSessionString(session.GetString(RandomWord));
      var correctGuesses := GetSessionString(session.GetString(CorrectGuesses));
      var incorrectGuesses := GetSessionString(session.GetString(IncorrectGuesses));

      if AllFound(word, correctGuesses) {
        session.SetStatus(Win);
      } else if |incorrectGuesses| > MaxGuesses {
        session.SetStatus(Defeat);
      } else {
        session.SetStatus(Ongoing);
      }
      r := Pass;
      if Consistent(old(session.State())) {
        GameProperties.GuessPreservesConsistent(old(session.State()), guess);
      }
    }

    /** `VerifyGuess`: refuse a guess on a session without a word or a letter
        already guessed; otherwise write both guess lists back, the letter
        added to the one it belongs to. */
    method VerifyGuess(guess: char) returns (r: Outcome)
      modifies session
      ensures match RecordGuess(old(session.State()), guess)
        case Failure(e) => r == Fail(e) && session.State() == old(session.State())
        case Success(t) => r == Pass && session.State() == t
    {
      var word := GetSessionString(session.GetString(RandomWord));
      if word == "" {
        return Fail(StaleSession);
      }

      var correctGuesses := GetSessionString(session.GetString(CorrectGuesses));
      var incorrectGuesses := GetSessionString(session.GetString(IncorrectGuesses));
      if guess in correctGuesses || guess in incorrectGuesses {
        return Fail(DuplicateGuess);
      }

      if guess in word {
        correctGuesses := correctGuesses + [guess];
      } else {
        incorrectGuesses := incorrectGuesses + [guess];
      }
      session.SetString(CorrectGuesses, correctGuesses);
      session.SetString(IncorrectGuesses, incorrectGuesses);
      r := Pass;
    }
  }
}
