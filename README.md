# Spirits trivia quiz: quiz state machine and client-side rate limiter

A Dafny model of the two pieces of sequential logic in the spirits trivia quiz web page.

- **The quiz state machine** of the `Quiz` React component (module `Quiz`, file `quiz.dfy`).
  Each state hook of the component is a field of the class `Quiz.Session`. The hooks are the
  selected questions, `currentQuestionIndex`, `selectedAnswer`, `isCorrect`, `score`,
  `quizComplete`, `timeLeft` and `timerActive`. Each `setX` call is an assignment to a field.
  Each event is one method:
  - `LoadQuestions` is the mount effect that draws the questions.
  - `SelectAnswer` is a click on an option.
  - `NextQuestion` is the "Next" click and also the automatic advance three seconds after a timeout.
  - `Tick` is one firing of the one-second interval.
  - `Timeout` is the countdown effect seeing a clock at zero.
  - `Restart` is "Try Again".

  `Session.Valid()` is the session invariant that every event preserves. It says the questions
  come from the dataset without replacement, the index stays on a question, and
  `0 <= timeLeft <= 20`. It also says the score never exceeds the questions answered so far,
  and a running clock means no answer is recorded. Each event's postcondition gives the whole
  new state as an update of the old snapshot `Current()`, so what it leaves alone is stated too.
  Question selection (`SelectQuestions`) and the closing message (`ResultMessage`) are functions.
- **The security helpers** (module `SecurityConfig`, file `security_config.dfy`).
  - `RateLimiter` is a class with the sliding-window check `CanMakeRequest`.
  - `Prune` is its filter step, with lemmas on what is kept and in which order.
  - `IsSuspicious` is the substring test on stored values, proved equal to "one of the four
    markers occurs".
  - `SanitizeStorage` is the pass that removes exactly the flagged keys from a `LocalStorage`
    object holding a `map<string, string>`.

The shuffle's random comparator is not modelled. The order it produces is a parameter
`shuffled`, which may be any permutation of the dataset. `Date.now()` is the parameter `now`.

Three facts about the code:
- The code keeps separate flags, not one tagged state, and so does the model.
- The cleanup function that `handleTimeout` returns (src/components/Quiz.js:48) is thrown away
  by its caller at line 58, so a pending automatic advance is never cancelled. Timer
  scheduling is outside the model (see below).
- The code takes `min(10, n)` questions from a dataset of `n`.

## Model

| member | source | states |
|---|---|---|
| `Quiz.SelectQuestions` | src/components/Quiz.js:19-23 | The selection has `min(10, n)` questions for a dataset of `n`. Its multiset is contained in the dataset's, so each question comes from a distinct dataset position. Every selected question is in the dataset. |
| `Quiz.SelectionHasNoRepeats` | src/components/Quiz.js:19-23 | A dataset without repeated questions gives a selection without repeated questions. This holds for both draws: the mount effect's (lines 19-23) and the restart's (lines 82-85). |
| `Quiz.ResultMessage` | src/components/Quiz.js:128-132 | The message is "perfect" iff `score == total`. It is "great" iff the score is not perfect and `2*score >= total`; the source's floating-point `total / 2` reduces to this. Otherwise it is "keep learning". |
| `Quiz.MessageText` | src/components/Quiz.js:129-132 | The body holds the three results texts. The contract says each text is non-empty, and its first letter tells the three verdicts apart. |
| `Quiz.Session.Valid` | src/components/Quiz.js:8-15 | The session invariant implies `0 <= score <= |questions|`. |
| `Quiz.Session.constructor` | src/components/Quiz.js:8-15 | A new session has no questions, index 0, no answer, no verdict, score 0, is not complete, has 20 seconds left and a running timer. |
| `Quiz.Session.LoadQuestions` | src/components/Quiz.js:18-25 | If the dataset is non-empty, this sets the questions to a selection and changes nothing else. On an empty dataset it changes nothing. The invariant is kept. |
| `Quiz.Session.SelectAnswer` | src/components/Quiz.js:64-78 | With an answer already recorded or the clock stopped, the state is unchanged. Otherwise the clock stops and the answer is recorded. `isCorrect` becomes `option == correct` of the current question. The score grows by exactly 1 when correct and not otherwise. Nothing else changes, and the invariant is kept. |
| `Quiz.Session.NextQuestion` | src/components/Quiz.js:27-37 | At the last index this only sets `quizComplete`. Otherwise the index grows by one, answer and verdict are cleared, and the clock is reset to 20 and started. Nothing else changes. The index stays in range. |
| `Quiz.Session.Tick` | src/components/Quiz.js:52-55 | Under the countdown guard `ClockRunning` of line 53 (timer active, quiz not complete, questions loaded) and with `timeLeft > 0`, this decrements `timeLeft` by exactly 1. Otherwise the state is unchanged. |
| `Quiz.Session.Timeout` | src/components/Quiz.js:39-58 | Under the countdown guard `ClockRunning` of line 53 and with `timeLeft == 0`, this stops the timer and sets `isCorrect` to false. The answer stays empty and the score is unchanged. Otherwise the state is unchanged. |
| `Quiz.Session.Restart` | src/components/Quiz.js:80-95 | From any state, this gives a fresh selection with index 0, score 0, no answer, no verdict, not complete, 20 seconds and a running timer. |
| `Quiz.TimeoutFreezesQuestion` | src/components/Quiz.js:53-65 | After a timeout, any sequence of ticks, clicks on any options and further timeouts, in any order, leaves the state as the first timeout left it. Only an advance or a restart reopens the question. |
| `SecurityConfig.Prune` | src/security/securityConfig.js:73 | Pruning never lengthens the list. Every kept time `t` has `now - t < timeWindow`. Each in-window time is kept as often as it occurs, and each other time is dropped. |
| `SecurityConfig.PruneKeepsOrder` | src/security/securityConfig.js:73 | The pruned list is a subsequence of the old one, so kept entries keep their relative order. |
| `SecurityConfig.PruneAppendSorted` | src/security/securityConfig.js:73-77 | If the list is sorted and no entry is later than `now`, then pruning and appending `now` gives a sorted list. |
| `SecurityConfig.RateLimiter.Valid` | src/security/securityConfig.js:73-79 | The limiter invariant implies that `requestTimes` never holds more than `maxRequests` entries, and none when `maxRequests` is not positive. |
| `SecurityConfig.RateLimiter.constructor` | src/security/securityConfig.js:62-66 | A limiter has the given limits and no recorded requests. |
| `SecurityConfig.RateLimiter.Default` | src/security/securityConfig.js:62-65 | A limiter built without arguments allows 30 requests per 60000 ms and has no recorded requests. |
| `SecurityConfig.RateLimiter.CanMakeRequest` | src/security/securityConfig.js:69-82 | The result is true iff fewer than `maxRequests` times survive pruning. On true the list becomes the pruned list plus `now`; on false it is the pruned list. The bound `|requestTimes| <= maxRequests` is kept. A sorted list stays sorted when `now` is not earlier than its entries. |
| `SecurityConfig.WindowScenario` | src/security/securityConfig.js:69-82 | With 2 requests per 1000 ms, two calls in one window are allowed and a third in it is refused. A call 1000 ms or more after the first is allowed again. |
| `SecurityConfig.MonotoneCallsStaySorted` | src/security/securityConfig.js:69-82 | For any sorted run of clock readings fed to a default limiter, the recorded times stay sorted. They stay within 30 entries, and each is one of the readings. |
| `SecurityConfig.Contains` | src/security/securityConfig.js:109 | The model of `includes`. An empty pattern is always found, and a found pattern is no longer than the string. |
| `SecurityConfig.ContainsIffOccurs` | src/security/securityConfig.js:109-113 | The substring test used for `includes` holds iff the pattern occurs at some position. |
| `SecurityConfig.IsSuspicious` | src/security/securityConfig.js:108-114 | A stored value is flagged iff one of `<script`, `javascript:`, `onerror=` or `onload=` occurs in it at some position. This also covers the source's truthiness check, since an empty value contains no marker. |
| `SecurityConfig.MarkerFoundIffOccurs` | src/security/securityConfig.js:108-114 | On a non-empty value, `Contains` finds some marker of the list iff some marker occurs in the value at some position. |
| `SecurityConfig.LocalStorage.constructor` | src/security/securityConfig.js:105-106 | A store wraps exactly the given key-value map, which `Object.keys` and `getItem` read. |
| `SecurityConfig.LocalStorage.RemoveItem` | src/security/securityConfig.js:116 | Removing a key deletes exactly that key from the store. |
| `SecurityConfig.SanitizeStorage` | src/security/securityConfig.js:105-118 | The remaining keys are exactly the original keys whose values are not flagged. Every remaining key keeps its original value. |

## Left out

- Randomness: the `sort(() => 0.5 - Math.random())` shuffle (src/components/Quiz.js:21, 83) is a parameter, and nothing is claimed about its distribution. `getSpiritIcon` is cosmetic and is not modelled.
- Timer scheduling: the real-time behaviour of `setInterval`, `setTimeout`, `clearInterval` and React's effect re-runs is not modelled. Ticks, the timeout and the automatic advance are discrete events that any caller may fire in any order. A restart racing with the pending three-second advance is therefore not modelled as a race.
- Quiz.Session.SelectAnswer: requires loaded questions. On an empty list the source would throw while reading the current question. The option buttons only exist once questions are loaded (src/components/Quiz.js:106-113).
- Quiz.Session.NextQuestion: requires loaded questions. On an empty list the source would move the index to 1, but its only callers (the Next button and the post-timeout advance) exist only with questions loaded.
- Rendering: all JSX, styled-components and keyframes of `Quiz.js`, plus `App.js` and `AdSpace.js`. `toggleTheme` in `App.js` is one call to `CanMakeRequest`. AdSpace.js is not part of this model.
- Browser concerns: `setupCSP`, `setupSecurityHeaders`, the `visibilitychange` listener, console logging, and the `try`/`catch` around the storage pass (a storage that throws is not modelled).
- Numbers: JavaScript's numbers are doubles. The model uses unbounded integers for times, limits, score and clock, and uses reals only for the `questions.length / 2` comparison.
- String encodings: `includes` on UTF-16 strings is modelled as a substring test on `seq<char>`. Case-insensitive matching does not happen in the source and does not happen here.
