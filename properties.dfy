/** Properties of the Hangman engine, stated over the pure model in module
    Game: the shape of the reveal pattern, what one guess does to the
    session, what a run of guesses leads to, what the read path does after a
    finished game and during one, and the session invariant both requests
    keep. */
module GameProperties {
  import opened Text
  import opened Game

  // ---------------------------------------------------------------------
  // The reveal pattern

  /** Position 2i of the reveal pattern shows letter i of the word when it
      was guessed (in any case) and an underscore otherwise; position 2i+1 is
      a space. */
  lemma {:induction false} DisplayWordValuesAt(word: string, guessed: string, i: nat)
    requires i < |word|
    ensures DisplayWordValues(word, guessed)[2 * i] == (if word[i] in Upper(guessed) then word[i] else '_')
    ensures DisplayWordValues(word, guessed)[2 * i + 1] == ' '
  {
    if i > 0 {
      DisplayWordValuesAt(word[1..], guessed, i - 1);
    }
  }

  /** The all-hidden pattern for a word of n letters: "_ " n times. */
  function Hidden(n: nat): (h: string)
    ensures |h| == 2 * n
  {
    if n == 0 then [] else ['_', ' '] + Hidden(n - 1)
  }

  /** With nothing guessed, every letter is hidden. */
  lemma {:induction false} DisplayWithNoGuesses(word: string)
    ensures DisplayWordValues(word, "") == Hidden(|word|)
  {
    if word != [] {
      assert word[0] !in Upper("");
      DisplayWithNoGuesses(word[1..]);
    }
  }

  // ---------------------------------------------------------------------
  // One guess

  /** A successful guess keeps the word, appends the letter to the correct
      list when the word holds it and to the incorrect list otherwise, leaves
      the other list as it read, and stores the status those lists imply. */
  lemma GuessAppends(s: SessionState, g: char)
    requires IsGuessable(g) && Guess(s, g).Success?
    ensures var t := Guess(s, g).value;
      WordView(t) == WordView(s)
      && CorrectView(t) == (if g in WordView(s) then CorrectView(s) + [g] else CorrectView(s))
      && IncorrectView(t) == (if g in WordView(s) then IncorrectView(s) else IncorrectView(s) + [g])
      && t.status == Some(StatusOf(WordView(t), CorrectView(t), IncorrectView(t)))
  {
    var c, i := CorrectView(s), IncorrectView(s);
    UpperOfUpper(c);
    UpperOfUpper(i);
    UpperAppend(c, g);
    UpperAppend(i, g);
  }

  /** Guessing a letter a second time is refused as a duplicate. */
  lemma RepeatedGuessIsRefused(s: SessionState, g: char)
    requires IsGuessable(g) && Guess(s, g).Success?
    ensures Guess(Guess(s, g).value, g) == Failure(DuplicateGuess)
  {
    GuessAppends(s, g);
  }

  /** An upper-cased guess keeps the session invariant. */
  lemma GuessPreservesConsistent(s: SessionState, g: char)
    requires Consistent(s) && IsGuessable(g)
    ensures Guess(s, g).Success? ==> Consistent(Guess(s, g).value)
  {
    if Guess(s, g).Success? {
      var t := Guess(s, g).value;
      GuessAppends(s, g);
      var w, c, i := WordView(s), CorrectView(s), IncorrectView(s);
      var c', i' := CorrectView(t), IncorrectView(t);
      assert Distinct(c') by {
        if g in w { AppendKeepsDistinct(c, g); }
      }
      assert Distinct(i') by {
        if g !in w { AppendKeepsDistinct(i, g); }
      }
      assert forall k :: 0 <= k < |c'| ==> c'[k] !in i' by {
        forall k | 0 <= k < |c'| ensures c'[k] !in i' {
          if g in w {
            if k < |c| { assert c'[k] == c[k]; } else { assert c'[k] == g; }
          } else {
            assert c'[k] == c[k];
            assert c[k] in w;
            assert i' == i + [g];
          }
        }
      }
      assert forall k :: 0 <= k < |c'| ==> c'[k] in w by {
        forall k | 0 <= k < |c'| ensures c'[k] in w {
          if k < |c| { assert c'[k] == c[k]; }
        }
      }
      assert forall k :: 0 <= k < |i'| ==> i'[k] !in w by {
        forall k | 0 <= k < |i'| ensures i'[k] !in w {
          if k < |i| { assert i'[k] == i[k]; }
        }
      }
    }
  }

  lemma AppendKeepsDistinct(s: string, x: char)
    requires Distinct(s) && x !in s
    ensures Distinct(s + [x])
  {
    forall j, k | 0 <= j < k < |s + [x]| ensures (s + [x])[j] != (s + [x])[k] {
      if k == |s| { assert (s + [x])[j] == s[j]; }
    }
  }

  // ---------------------------------------------------------------------
  // A run of guesses

  /** The session after a run of guesses, one request each, stopping at the
      first refused guess. */
  function GuessAll(s: SessionState, guesses: string): Result<SessionState> {
    if guesses == [] then Success(s)
    else
      match GuessAll(s, guesses[..|guesses| - 1])
      case Failure(e) => Failure(e)
      case Success(t) => Guess(t, guesses[|guesses| - 1])
  }

  /** The guesses that are in the word, in the order they were made. */
  function Hits(guesses: string, word: string): string {
    if guesses == [] then []
    else
      var last := guesses[|guesses| - 1];
      Hits(guesses[..|guesses| - 1], word) + (if last in word then [last] else [])
  }

  /** The guesses that are not in the word, in the order they were made. */
  function Misses(guesses: string, word: string): string {
    if guesses == [] then []
    else
      var last := guesses[|guesses| - 1];
      Misses(guesses[..|guesses| - 1], word) + (if last in word then [] else [last])
  }

  /** The hits are exactly the guesses that are in the word, the misses
      exactly the guesses that are not. */
  lemma {:induction false} HitsAndMisses(guesses: string, word: string)
    ensures forall x :: x in Hits(guesses, word) <==> x in guesses && x in word
    ensures forall x :: x in Misses(guesses, word) <==> x in guesses && x !in word
  {
    if guesses != [] {
      var p := guesses[..|guesses| - 1];
      assert guesses == p + [guesses[|guesses| - 1]];
      HitsAndMisses(p, word);
    }
  }

  /** When no guess is in the word, all of them are misses. */
  lemma {:induction false} AllMisses(guesses: string, word: string)
    requires forall k :: 0 <= k < |guesses| ==> guesses[k] !in word
    ensures Hits(guesses, word) == [] && Misses(guesses, word) == guesses
  {
    if guesses != [] {
      var p := guesses[..|guesses| - 1];
      assert guesses == p + [guesses[|guesses| - 1]];
      AllMisses(p, word);
    }
  }

  /** Fresh, distinct, upper-cased guesses on a session with a word are all
      accepted; the hits are appended to the correct list, the misses to the
      incorrect list, and the last request stores the status they imply. */
  lemma {:induction false} GuessAllTracks(s: SessionState, guesses: string)
    requires WordView(s) != ""
    requires forall k :: 0 <= k < |guesses| ==> IsGuessable(guesses[k])
    requires Distinct(guesses)
    requires forall k :: 0 <= k < |guesses| ==> guesses[k] !in CorrectView(s) && guesses[k] !in IncorrectView(s)
    ensures GuessAll(s, guesses).Success?
    ensures var t := GuessAll(s, guesses).value;
      WordView(t) == WordView(s)
      && CorrectView(t) == CorrectView(s) + Hits(guesses, WordView(s))
      && IncorrectView(t) == IncorrectView(s) + Misses(guesses, WordView(s))
      && (guesses != [] ==> t.status == Some(StatusOf(WordView(t), CorrectView(t), IncorrectView(t))))
  {
    if guesses != [] {
      var n := |guesses| - 1;
      var p, g := guesses[..n], guesses[n];
      var w, c0, i0 := WordView(s), CorrectView(s), IncorrectView(s);
      assert Distinct(p) && forall k :: 0 <= k < |p| ==> IsGuessable(p[k]) && p[k] !in c0 && p[k] !in i0 by {
        assert forall k :: 0 <= k < |p| ==> p[k] == guesses[k];
      }
      GuessAllTracks(s, p);
      var t := GuessAll(s, p).value;
      var h, m := Hits(p, w), Misses(p, w);
      assert g !in c0 + h && g !in i0 + m by {
        assert g !in p by {
          forall k | 0 <= k < |p| ensures p[k] != g { assert guesses[k] != guesses[n]; }
        }
        HitsAndMisses(p, w);
      }
      GuessExtends(t, g, c0, h, i0, m);
      assert GuessAll(s, guesses) == Guess(t, g);
      assert Hits(guesses, w) == h + (if g in w then [g] else []);
      assert Misses(guesses, w) == m + (if g in w then [] else [g]);
    }
  }

  /** One more fresh guess extends the lists built so far. */
  lemma GuessExtends(t: SessionState, g: char, c0: string, h: string, i0: string, m: string)
    requires IsGuessable(g) && WordView(t) != ""
    requires CorrectView(t) == c0 + h && IncorrectView(t) == i0 + m
    requires g !in c0 + h && g !in i0 + m
    ensures Guess(t, g).Success?
    ensures var t', w := Guess(t, g).value, WordView(t);
      WordView(t') == w
      && CorrectView(t') == c0 + (h + (if g in w then [g] else []))
      && IncorrectView(t') == i0 + (m + (if g in w then [] else [g]))
      && t'.status == Some(StatusOf(WordView(t'), CorrectView(t'), IncorrectView(t')))
  {
    GuessAppends(t, g);
    if g in WordView(t) {
      assert (c0 + h) + [g] == c0 + (h + [g]);
    } else {
      assert (i0 + m) + [g] == i0 + (m + [g]);
    }
  }

  /** Guessing every letter of the word not yet found, in any order and with
      any fresh misses in between, ends in a win: a win takes precedence over
      any number of misses. */
  lemma EveryLetterWins(s: SessionState, guesses: string)
    requires WordView(s) != "" && guesses != []
    requires forall k :: 0 <= k < |guesses| ==> IsGuessable(guesses[k])
    requires Distinct(guesses)
    requires forall k :: 0 <= k < |guesses| ==> guesses[k] !in CorrectView(s) && guesses[k] !in IncorrectView(s)
    requires forall k :: 0 <= k < |WordView(s)| ==> WordView(s)[k] in CorrectView(s) || WordView(s)[k] in guesses
    ensures GuessAll(s, guesses).Success? && GuessAll(s, guesses).value.status == Some(Win)
  {
    GuessAllTracks(s, guesses);
    var t := GuessAll(s, guesses).value;
    var w := WordView(s);
    HitsAndMisses(guesses, w);
    forall k | 0 <= k < |w| ensures w[k] in CorrectView(t) {
      if w[k] !in CorrectView(s) {
        assert w[k] in Hits(guesses, w);
      }
    }
    assert AllFound(WordView(t), CorrectView(t));
  }

  /** On a game with nothing guessed yet, a run of distinct misses keeps the
      game going for up to `MaxGuesses` misses and loses it on the next: six
      misses leave it Ongoing, the seventh is a Defeat. */
  lemma MissesOnFreshGame(s: SessionState, guesses: string)
    requires WordView(s) != "" && CorrectView(s) == "" && IncorrectView(s) == ""
    requires forall k :: 0 <= k < |guesses| ==> IsGuessable(guesses[k]) && guesses[k] !in WordView(s)
    requires Distinct(guesses)
    ensures GuessAll(s, guesses).Success?
    ensures IncorrectView(GuessAll(s, guesses).value) == guesses
    ensures CorrectView(GuessAll(s, guesses).value) == ""
    ensures guesses != [] ==>
              GuessAll(s, guesses).value.status == Some(if |guesses| > MaxGuesses then Defeat else Ongoing)
  {
    AllMisses(guesses, WordView(s));
    GuessAllTracks(s, guesses);
    var t := GuessAll(s, guesses).value;
    assert CorrectView(t) == "" && IncorrectView(t) == guesses;
    assert !AllFound(WordView(t), CorrectView(t)) by {
      assert WordView(t)[0] !in CorrectView(t);
    }
  }

  // ---------------------------------------------------------------------
  // The read path

  /** After a win or a defeat, a failed fetch of the new word fails the read
      and leaves the session cleared: it was cleared before the fetch. */
  lemma ResolveAfterEndFetchFails(s: SessionState, replies: seq<Option<string>>)
    requires s.status == Some(Win) || s.status == Some(Defeat)
    requires NextWord(replies).None?
    ensures Resolve(s, replies) == Resolution(Failure(WordSourceFailure), EmptySession, RestReplies(replies))
  {
  }

  /** After a win or a defeat the read path reports the end of the game with
      the old word in the message, clears the session and stores a new word.
      With a non-blank new word, the guesses are gone, every letter is
      hidden, and the next read finds an ongoing game and changes nothing. */
  lemma ResolveAfterEnd(s: SessionState, replies: seq<Option<string>>, later: seq<Option<string>>)
    requires s.status == Some(Win) || s.status == Some(Defeat)
    requires NextWord(replies).Some? && !IsNullOrWhiteSpace(NextWord(replies).value)
    ensures
      var o, w := Resolve(s, replies), NextWord(replies).value;
      o.state == Store(EmptySession, RandomWord, w)
      && o.remaining == RestReplies(replies)
      && o.result.Success?
      && o.result.value.gameEnd
      && (o.result.value.gameWin <==> s.status == Some(Win))
      && o.result.value.endMessage
           == (if s.status == Some(Win) then CelebrationMessage else DefeatMessage) + WordView(s) + GoAgain
      && o.result.value.currentWord == Upper(w)
      && o.result.value.displayWord == Hidden(|w|)
      && o.result.value.guessedLetters == "" && o.result.value.incorrectGuesses == ""
      && Resolve(o.state, later) == Resolution(Success(o.result.value.(gameEnd := false, gameWin := false, endMessage := "")), o.state, later)
  {
    var w := NextWord(replies).value;
    UpperKeepsBlankness(w);
    DisplayWithNoGuesses(Upper(w));
  }

  /** During a game with a word, the read path fetches nothing, changes no
      session key and reports the pattern of the stored word and guesses; so
      two reads in a row give the same result. */
  lemma ResolveOngoing(s: SessionState, replies: seq<Option<string>>, later: seq<Option<string>>)
    requires ReadStatus(s) == Ongoing && !IsNullOrWhiteSpace(WordView(s))
    ensures var o := Resolve(s, replies);
      o.state == s && o.remaining == replies
      && o.result == Success(ActiveWordModel(false, false, "", DisplayWordValues(WordView(s), CorrectView(s)),
                                             WordView(s), IncorrectView(s), CorrectView(s)))
      && Resolve(o.state, later).result == o.result
  {
  }

  /** During a game without a word (first visit, or a session that timed
      out), the read path stores a freshly fetched word and keeps the rest of
      the session; if the fetch fails, nothing is written. */
  lemma ResolveLazyStart(s: SessionState, replies: seq<Option<string>>)
    requires ReadStatus(s) == Ongoing && IsNullOrWhiteSpace(WordView(s))
    ensures NextWord(replies).None? ==>
      Resolve(s, replies) == Resolution(Failure(WordSourceFailure), s, RestReplies(replies))
    ensures NextWord(replies).Some? ==>
      var o, w := Resolve(s, replies), NextWord(replies).value;
      o.state == Store(s, RandomWord, w)
      && o.remaining == RestReplies(replies)
      && o.result == Success(ActiveWordModel(false, false, "", DisplayWordValues(w, CorrectView(s)),
                                             w, IncorrectView(s), CorrectView(s)))
  {
  }

  /** When the word source only gives non-blank words, the read path keeps
      the session invariant. */
  lemma ResolvePreservesConsistent(s: SessionState, replies: seq<Option<string>>)
    requires Consistent(s) && NonBlankReplies(replies)
    ensures Consistent(Resolve(s, replies).state)
    ensures NonBlankReplies(Resolve(s, replies).remaining)
  {
    var o := Resolve(s, replies);
    if o.state != s && NextWord(replies).Some? {
      var w := NextWord(replies).value;
      assert !IsNullOrWhiteSpace(w);
      UpperKeepsBlankness(w);
      assert Upper(w)[0] !in "";
    }
  }

  /** A session the idle timeout has cleared is consistent. */
  lemma ExpiredSessionIsConsistent()
    ensures Consistent(EmptySession)
  {
  }

  // ---------------------------------------------------------------------
  // Two games played through

  /** A game started on the word "cat": guessing C, A and T wins, and the
      next read announces the win with the word upper-cased and starts a new
      game on the next word. */
  lemma CatIsWon(s0: SessionState, next: string)
    requires s0 == Store(EmptySession, RandomWord, "cat")
    requires !IsNullOrWhiteSpace(next)
    ensures GuessAll(s0, "CAT").Success?
    ensures GuessAll(s0, "CAT").value.status == Some(Win)
    ensures var o := Resolve(GuessAll(s0, "CAT").value, [Some(next)]);
      o.result.Success? && o.result.value.gameEnd && o.result.value.gameWin
      && o.result.value.endMessage == CelebrationMessage + "CAT" + GoAgain
      && o.state == Store(EmptySession, RandomWord, next)
  {
    assert WordView(s0) == "CAT";
    EveryLetterWins(s0, "CAT");
    GuessAllTracks(s0, "CAT");
    ResolveAfterEnd(GuessAll(s0, "CAT").value, [Some(next)], []);
  }

  /** A game started on the word "dog": the six misses X, Y, Z, Q, W and R
      keep it going. */
  lemma DogSurvivesSixMisses(s0: SessionState)
    requires s0 == Store(EmptySession, RandomWord, "dog")
    ensures GuessAll(s0, "XYZQWR").Success?
    ensures GuessAll(s0, "XYZQWR").value.status == Some(Ongoing)
  {
    assert WordView(s0) == "DOG";
    MissesOnFreshGame(s0, "XYZQWR");
  }

  /** A game started on the word "dog": after the misses X, Y, Z, Q, W and
      R, the seventh miss V loses it, and the next read announces the defeat
      with the word upper-cased. */
  lemma DogIsLost(s0: SessionState, next: string)
    requires s0 == Store(EmptySession, RandomWord, "dog")
    requires !IsNullOrWhiteSpace(next)
    ensures GuessAll(s0, "XYZQWRV").Success?
    ensures GuessAll(s0, "XYZQWRV").value.status == Some(Defeat)
    ensures var o := Resolve(GuessAll(s0, "XYZQWRV").value, [Some(next)]);
      o.result.Success? && o.result.value.gameEnd && !o.result.value.gameWin
      && o.result.value.endMessage == DefeatMessage + "DOG" + GoAgain
  {
    assert WordView(s0) == "DOG";
    MissesOnFreshGame(s0, "XYZQWRV");
    GuessAllTracks(s0, "XYZQWRV");
    ResolveAfterEnd(GuessAll(s0, "XYZQWRV").value, [Some(next)], []);
  }
}
