/**
 * The quiz progression state machine of the `Quiz` component
 * (src/components/Quiz.js). Every React `useState` hook is a field of
 * `Session`; every `setX` call is an assignment to that field; every event
 * the component reacts to (loading the questions, a click on an option, a
 * click on "Next", a timer tick, the timeout, "Try Again") is one method.
 */
module Quiz {
  import opened Wrappers

  /** Seconds on the clock at the start of every question. */
  const QUESTION_TIME: int := 20

  /** How many questions a session draws from the dataset. */
  const QUESTIONS_PER_QUIZ: nat := 10

  /** One entry of the static trivia dataset. */
  datatype Question = Question(
    question: string,
    options: map<string, string>,
    correct: string,
    explanation: string)

  function Min(a: int, b: int): (m: int)
    ensures m <= a && m <= b && (m == a || m == b)
  {
    if a <= b then a else b
  }

  /** No element occurs twice in `s`. */
  predicate Distinct<T(==)>(s: seq<T>)
  {
    forall i, j :: 0 <= i < j < |s| ==> s[i] != s[j]
  }

  /**
   * Question selection: copy the dataset, put it in random order and keep the
   * first ten. The random order is not modelled; `shuffled` is whatever order
   * the sort produced, so it is some permutation of `triviaData`.
   */
  function SelectQuestions(triviaData: seq<Question>, shuffled: seq<Question>): (r: seq<Question>)
    requires multiset(shuffled) == multiset(triviaData)
    ensures |r| == Min(QUESTIONS_PER_QUIZ, |triviaData|)
    ensures multiset(r) <= multiset(triviaData)
    ensures forall q :: q in r ==> q in triviaData
  {
    assert |shuffled| == |multiset(shuffled)| == |triviaData|;
    var k := Min(QUESTIONS_PER_QUIZ, |shuffled|);
    assert shuffled == shuffled[..k] + shuffled[k..];
    assert forall q :: q in shuffled[..k] ==> q in multiset(shuffled[..k]);
    shuffled[..k]
  }

  /** A sequence has no repeated element exactly when it counts every value at most once. */
  lemma {:induction false} DistinctIffSingleCounts<T>(s: seq<T>)
    ensures Distinct(s) <==> forall x :: multiset(s)[x] <= 1
  {
    if s != [] {
      var rest := s[1..];
      DistinctIffSingleCounts(rest);
      assert s == [s[0]] + rest;
      assert multiset(s) == multiset{s[0]} + multiset(rest);
      if Distinct(s) {
        assert s[0] !in rest by {
          forall j | 0 <= j < |rest| ensures rest[j] != s[0] {
            assert rest[j] == s[j + 1];
          }
        }
        assert Distinct(rest) by {
          forall i, j | 0 <= i < j < |rest| ensures rest[i] != rest[j] {
            assert rest[i] == s[i + 1] && rest[j] == s[j + 1];
          }
        }
      }
      if forall x :: multiset(s)[x] <= 1 {
        assert forall x :: multiset(rest)[x] <= 1 by {
          forall x ensures multiset(rest)[x] <= 1 {
            assert multiset(s)[x] <= 1;
          }
        }
        assert multiset(rest)[s[0]] == 0 by {
          assert multiset(s)[s[0]] <= 1;
        }
        forall i, j | 0 <= i < j < |s| ensures s[i] != s[j] {
          if i == 0 {
            assert s[j] == rest[j - 1];
            assert s[j] in multiset(rest);
          } else {
            assert s[i] == rest[i - 1] && s[j] == rest[j - 1];
          }
        }
      }
    }
  }

  /** A dataset without repeated questions yields a selection without repeated questions. */
  lemma SelectionHasNoRepeats(triviaData: seq<Question>, shuffled: seq<Question>)
    requires multiset(shuffled) == multiset(triviaData)
    requires Distinct(triviaData)
    ensures Distinct(SelectQuestions(triviaData, shuffled))
  {
    var r := SelectQuestions(triviaData, shuffled);
    DistinctIffSingleCounts(triviaData);
    DistinctIffSingleCounts(r);
    forall x ensures multiset(r)[x] <= 1 {
      assert multiset(r)[x] <= multiset(triviaData)[x];
    }
  }

  /** The three closing messages of the results screen. */
  datatype Verdict = Perfect | Great | KeepLearning

  /**
   * The results-message choice. The source halves the question count with
   * JavaScript's floating-point division, so the comparison is made on reals.
   */
  function ResultMessage(score: int, total: int): (v: Verdict)
    ensures v == Perfect <==> score == total
    ensures v == Great <==> score != total && 2 * score >= total
    ensures v == KeepLearning <==> score != total && 2 * score < total
  {
    if score == total then Perfect
    else if score as real >= total as real / 2.0 then Great
    else KeepLearning
  }

  /** The text shown for each verdict. */
  function MessageText(v: Verdict): (text: string)
    ensures |text| > 0
    ensures v == Perfect <==> text[0] == 'P'
    ensures v == Great <==> text[0] == 'G'
    ensures v == KeepLearning <==> text[0] == 'K'
  {
    match v
    case Perfect =>
      var text := "Perfect score! " + "You're a true spirits connoisseur! " +
        "Your knowledge is as refined as an aged whiskey.";
      assert text[0] == 'P';
      text
    case Great =>
      var text := "Great job! " + "You know your spirits well! " +
        "With a bit more tasting, you'll be a master soon.";
      assert text[0] == 'G';
      text
    case KeepLearning =>
      var text := "Keep learning about spirits and try again! " +
        "Every connoisseur starts somewhere.";
      assert text[0] == 'K';
      text
  }

  /** A snapshot of every state hook of the component, used to say what an event changes. */
  datatype State = State(
    questions: seq<Question>,
    currentQuestionIndex: int,
    selectedAnswer: Option<string>,
    isCorrect: Option<bool>,
    score: int,
    quizComplete: bool,
    timeLeft: int,
    timerActive: bool)

  /** One mounted `Quiz` component: its `triviaData` prop and its state hooks. */
  class Session {
    const triviaData: seq<Question>
    var questions: seq<Question>
    var currentQuestionIndex: int
    var selectedAnswer: Option<string>
    var isCorrect: Option<bool>
    var score: int
    var quizComplete: bool
    var timeLeft: int
    var timerActive: bool

    ghost function Current(): (s: State)
      reads this
    {
      State(questions, currentQuestionIndex, selectedAnswer, isCorrect,
            score, quizComplete, timeLeft, timerActive)
    }

    /**
     * The session invariant: questions are drawn without replacement from the
     * dataset, the index stays on a question, the clock stays in [0, 20], the
     * score never exceeds the questions answered so far, and a running clock
     * means the current question is still open.
     */
    ghost predicate Valid()
      reads this
      ensures Valid() ==> 0 <= score <= |questions|
    {
      && multiset(questions) <= multiset(triviaData)
      && (questions == [] || |questions| == Min(QUESTIONS_PER_QUIZ, |triviaData|))
      && (questions == [] ==> currentQuestionIndex == 0 && score == 0 && selectedAnswer == None)
      && (questions != [] ==> 0 <= currentQuestionIndex < |questions|)
      && 0 <= timeLeft <= QUESTION_TIME
      && 0 <= score <= currentQuestionIndex + (if selectedAnswer.Some? then 1 else 0)
      && (timerActive ==> selectedAnswer == None && isCorrect == None)
      && (selectedAnswer.Some? ==> isCorrect.Some?)
      && (quizComplete ==> questions != [] && currentQuestionIndex == |questions| - 1)
    }

    /** The guard of the countdown effect: the clock runs on an open question. */
    predicate ClockRunning()
      reads this
    {
      timerActive && !quizComplete && questions != []
    }

    /** The initial values of the state hooks. */
    constructor (triviaData: seq<Question>)
      ensures Valid()
      ensures this.triviaData == triviaData
      ensures Current() == State([], 0, None, None, 0, false, QUESTION_TIME, true)
    {
      this.triviaData := triviaData;
      questions := [];
      currentQuestionIndex := 0;
      selectedAnswer := None;
      isCorrect := None;
      score := 0;
      quizComplete := false;
      timeLeft := QUESTION_TIME;
      timerActive := true;
    }

    /** The mount effect: select the questions when the dataset is not empty. */
    method LoadQuestions(shuffled: seq<Question>)
      requires Valid()
      requires multiset(shuffled) == multiset(triviaData)
      modifies this
      ensures Valid()
      ensures |triviaData| > 0 ==>
        Current() == old(Current()).(questions := SelectQuestions(triviaData, shuffled))
      ensures |triviaData| == 0 ==> Current() == old(Current())
    {
      if |triviaData| > 0 {
        questions := SelectQuestions(triviaData, shuffled);
      }
    }

    /**
     * A click on an option. Ignored once an answer is recorded or the clock has
     * stopped; otherwise the clock stops, the answer is judged, and a correct
     * answer adds one point.
     */
    method SelectAnswer(option: string)
      requires Valid()
      requires questions != []
      modifies this
      ensures Valid()
      ensures old(selectedAnswer).Some? || !old(timerActive) ==> Current() == old(Current())
      ensures old(selectedAnswer) == None && old(timerActive) ==>
        var correct := option == old(questions[currentQuestionIndex].correct);
        Current() == old(Current()).(
          selectedAnswer := Some(option),
          isCorrect := Some(correct),
          timerActive := false,
          score := old(score) + if correct then 1 else 0)
    {
      if selectedAnswer.Some? || !timerActive {
        return;
      }
      timerActive := false;
      selectedAnswer := Some(option);
      var currentQuestion := questions[currentQuestionIndex];
      var isAnswerCorrect := option == currentQuestion.correct;
      isCorrect := Some(isAnswerCorrect);
      if isAnswerCorrect {
        score := score + 1;
      }
    }

    /**
     * "Next Question", also fired three seconds after a timeout. On the last
     * question it only marks the quiz complete; otherwise it opens the next
     * question with a full clock.
     */
    method NextQuestion()
      requires Valid()
      requires questions != []
      modifies this
      ensures Valid()
      ensures old(currentQuestionIndex) == |questions| - 1 ==>
        Current() == old(Current()).(quizComplete := true)
      ensures old(currentQuestionIndex) != |questions| - 1 ==>
        Current() == old(Current()).(
          currentQuestionIndex := old(currentQuestionIndex) + 1,
          selectedAnswer := None,
          isCorrect := None,
          timeLeft := QUESTION_TIME,
          timerActive := true)
    {
      if currentQuestionIndex == |questions| - 1 {
        quizComplete := true;
      } else {
        currentQuestionIndex := currentQuestionIndex + 1;
        selectedAnswer := None;
        isCorrect := None;
        timeLeft := QUESTION_TIME;
        timerActive := true;
      }
    }

    /** One firing of the one-second interval: the clock loses one second. */
    method Tick()
      requires Valid()
      modifies this
      ensures Valid()
      ensures old(ClockRunning()) && old(timeLeft) > 0 ==>
        Current() == old(Current()).(timeLeft := old(timeLeft) - 1)
      ensures !(old(ClockRunning()) && old(timeLeft) > 0) ==> Current() == old(Current())
    {
      if !timerActive || quizComplete || questions == [] {
        return;
      }
      if timeLeft > 0 {
        timeLeft := timeLeft - 1;
      }
    }

    /**
     * The countdown effect with the clock at zero: the question is closed as
     * answered wrongly, with no answer recorded and the score untouched.
     */
    method Timeout()
      requires Valid()
      modifies this
      ensures Valid()
      ensures old(ClockRunning()) && old(timeLeft) == 0 ==>
        && Current() == old(Current()).(timerActive := false, isCorrect := Some(false))
        && selectedAnswer == None
      ensures !(old(ClockRunning()) && old(timeLeft) == 0) ==> Current() == old(Current())
    {
      if !timerActive || quizComplete || questions == [] {
        return;
      }
      if timeLeft == 0 {
        timerActive := false;
        isCorrect := Some(false);
      }
    }

    /** "Try Again": a fresh selection and every counter back to its start, from any state. */
    method Restart(shuffled: seq<Question>)
      requires multiset(shuffled) == multiset(triviaData)
      modifies this
      ensures Valid()
      ensures Current() ==
        State(SelectQuestions(triviaData, shuffled), 0, None, None, 0, false, QUESTION_TIME, true)
    {
      questions := SelectQuestions(triviaData, shuffled);
      currentQuestionIndex := 0;
      selectedAnswer := None;
      isCorrect := None;
      score := 0;
      quizComplete := false;
      timeLeft := QUESTION_TIME;
      timerActive := true;
    }
  }

  /** The events that reach a session while its question is open: a tick, a click, the timeout. */
  datatype Event = TickEvent | Click(option: string) | TimeoutEvent

  /**
   * After the timeout has fired, any sequence of ticks, clicks on options and
   * further timeouts, in any order, leaves the session as the first timeout
   * left it: only an advance or a restart reopens the question.
   */
  method TimeoutFreezesQuestion(s: Session, events: seq<Event>)
    requires s.Valid() && s.ClockRunning() && s.timeLeft == 0
    modifies s
    ensures s.Valid()
    ensures s.Current() == old(s.Current()).(timerActive := false, isCorrect := Some(false))
  {
    s.Timeout();
    ghost var closed := s.Current();
    for i := 0 to |events|
      invariant s.Valid() && s.questions != []
      invariant s.Current() == closed
    {
      match events[i]
      case TickEvent => s.Tick();
      case Click(option) => s.SelectAnswer(option);
      case TimeoutEvent => s.Timeout();
    }
  }
}
