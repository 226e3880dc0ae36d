# izzkiTech mini-apps: a verified model of their core logic

The repository is a set of unrelated small applications. This project models the parts
that hold real logic and proves what they promise:

- **Library management system** (`library.dfy`). Books and members keep two-sided
  loan records. Each `Book` has an `available_copies` count and an `issued_to` list.
  Each `Member` has an `issued_books` list, capped at 3 for students and 5 for faculty.
  The `LibrarySystem` issues and returns books only after a chain of guards.
  Proved:
  - copy conservation (`available + |issued_to| == total`) and the loan limit are kept;
  - the two sides agree: member *m* holds book *b* as often as *b* lists *m*;
  - the `to_dict`/`from_dict` round trip holds.
- **Quiz session** (`quiz_results.dfy`, `mern_quiz.dfy`, `quiz_timer.dfy`, `ai_quiz.dfy`).
  - The fixed ten-question MERN quiz and the AI quiz (setup, playing, completed) are
    classes whose handlers update the component state.
  - The AI quiz's countdown hook is a `Timer` object that keeps at most one interval alive.
  - The score, the score tiers and the per-question review rows are pure functions
    shared by both quizzes.
  - A one-second interval callback is one `Tick()` call.
- **Quiz backend** (`quiz_backend.dfy`). The `POST /api/generate-questions` handler:
  - its request guards, in their order;
  - the first-`[`-to-last-`]` extraction from the model's reply;
  - the question-shape filter.
- **Product catalogue**:
  - `product_schema.dfy`: the mongoose schema as a validation function.
  - `product_listing.dfy`: the listing page's category and price filters and three sort
    orders. Sorting is an in-place insertion sort on an array copy.
  - `dashboard.dfy`: the admin dashboard's form check, in-memory list updates and search.
- **QR generator** (`qr_validator.dfy`): `validate_data` with its URL and phone
  grammars, and the payload choice of `generate_qr`.
- **Face counter** (`face_dedup.dfy`): the aspect-ratio and overlap filter over the
  detections of the two cascades, and the face count.

`wrappers.dfy` holds `Option` and `Result`. `text.dfy` holds the string helpers the apps
share: ASCII whitespace as Python and JavaScript each define it, `strip`/`trim`, `lower`,
and substring search.

Prices are exact reals. The face thresholds 0.7, 1.4 and 0.3 are exact rationals:
the aspect test is `7h <= 10w <= 14h` and the overlap test is `10·overlap > 3·area`.
Network replies, confirmations, the clock and file existence are parameters of the
operations that use them.

Where the code and a stricter reading of the apps differ, the model follows the code:

- Neither quiz handler checks for a selection before recording an answer; only the view
  and the timer's arming rule stop that.
- The AI backend's filter may return no questions at all. That quiz then arms its timer,
  and its first timeout completes it with one recorded answer for zero questions
  (`AiQuiz.EmptyQuizRun`). The "one answer per question" fact therefore needs at least
  one question (`AiQuiz.QuizApp.CompletedView`).
- The MERN quiz restarts with the same question list. The AI quiz restarts in setup,
  keeping the chosen count and time.
- A stored product with price 0 passes the schema. Opening it for edit on the dashboard,
  however, yields a form the required-field check rejects (`Dashboard.EditFormOfStoredProduct`).

## Model

| member | source | states |
|---|---|---|
| Text.ToLower | E-commerce/Frontend-Admin/components/Dashboard.jsx:171 | lower-casing keeps the length, leaves no upper-case letter, keeps every other character and turns each upper-case letter into a different letter |
| Text.ToLowerIdempotent | E-commerce/Frontend-Admin/components/Dashboard.jsx:169-173 | lower-casing a lower-cased string changes nothing |
| Text.SeparatorsAreSpaceInPython | QR-Generator-App/qr-App.py:268 | Python's `str.strip` also removes the separators U+001C to U+001F, which JavaScript's `trim` keeps |
| Text.TrimEmptyIffBlank | QR-Generator-App/qr-App.py:268 | the stripped string is empty exactly when every character is whitespace |
| Text.TrimEnds | QR-Generator-App/qr-App.py:304 | a non-empty stripped string starts and ends with a non-space character |
| Text.TrimIdempotent | Product-Listing-Page/Backend-Admin/models/Product.js:4-13 | stripping an already stripped string changes nothing |
| Text.ContainsIff | LMS/library_management_system.py:386-392 | `needle in hay` holds exactly when the needle occurs at some position of the haystack |
| Text.ContainsEmpty | E-commerce/Frontend-Admin/components/Dashboard.jsx:169-173 | the empty term occurs in every string |
| Library.CountBound | LMS/library_management_system.py:64-70 | `list.count(x)` is at most the length, and positive exactly when `x` is in the list |
| Library.CountAppend | LMS/library_management_system.py:56-62 | appending `y` adds one occurrence of `y` and leaves every other count |
| Library.RemoveFirst | LMS/library_management_system.py:68 | `list.remove(x)` on a list holding `x` shortens it by one |
| Library.CountRemoveFirst | LMS/library_management_system.py:161-166 | `list.remove(x)` removes exactly one occurrence of `x` and leaves every other count |
| Library.RemoveFirstSubset | LMS/library_management_system.py:161-166 | after `list.remove(x)` every remaining element was already in the list |
| Library.BookRoundTrip | LMS/library_management_system.py:72-94 | `Book.from_dict(book.to_dict())` reproduces every field of the book |
| Library.BookMissingKey | LMS/library_management_system.py:86-94 | a book dictionary missing any one of its keys fails with the `KeyError` of that key |
| Library.LoadMember | LMS/library_management_system.py:303-310 | a missing `member_type` is a KeyError for it, read before anything else; then a missing `member_id`; a failing key is always absent from the record; a loaded member is a student exactly when `member_type` is "Student" |
| Library.MemberRoundTrip | LMS/library_management_system.py:168-178 | loading what `to_dict` wrote gives the same member, with the same subclass and its extra fields (lines 212-230, 261-279) |
| Library.EncodeBook | LMS/library_management_system.py:72-83 | the dictionary `Book.to_dict` writes; `Library.BookRoundTrip` states that loading it gives the book back |
| Library.DecodeBook | LMS/library_management_system.py:86-94 | `Book.from_dict`; `Library.BookMissingKey` states its error for each missing key, and `Library.BookRoundTrip` its round trip |
| Library.EncodeMember | LMS/library_management_system.py:168-178 | the dictionary a member's `to_dict` writes, with the subclass fields (lines 212-220, 261-269); `Library.MemberRoundTrip` states its round trip |
| Library.DecodeStudent | LMS/library_management_system.py:222-229 | `Student.from_dict`, reading its keys in the source's order; `Library.LoadMember` and `Library.MemberRoundTrip` state its results |
| Library.DecodeFaculty | LMS/library_management_system.py:271-278 | `Faculty.from_dict`, reading its keys in the source's order; `Library.LoadMember` and `Library.MemberRoundTrip` state its results |
| Library.Book.ToDict | LMS/library_management_system.py:72-83 | `Book.to_dict` of the object's fields; stated through `Library.EncodeBook` |
| Library.Member.ToDict | LMS/library_management_system.py:168-178 | a member's `to_dict` of the object's fields; stated through `Library.EncodeMember` |
| Library.Book.constructor | LMS/library_management_system.py:9-17 | a new book has every copy available and an empty `issued_to`, so copies are conserved |
| Library.Book.FromDict | LMS/library_management_system.py:85-94 | builds a fresh book carrying exactly the decoded fields, or reports the failing key |
| Library.Book.IssueBook | LMS/library_management_system.py:52-62 | succeeds iff a copy is available. On success one fewer copy is available and the member is appended to `issued_to`; on failure nothing changes. Conservation is kept |
| Library.Book.ReturnBook | LMS/library_management_system.py:64-70 | succeeds iff the member is in `issued_to`. On success one occurrence is removed and one more copy is available; otherwise nothing changes. Conservation is kept |
| Library.Member.constructor | LMS/library_management_system.py:103-109 | a new member holds no books, so is within the limit |
| Library.Member.FromDict | LMS/library_management_system.py:303-310 | the loader dispatches on `member_type` and builds a fresh member with exactly the decoded fields |
| Library.Member.IssueBook | LMS/library_management_system.py:150-159 | succeeds iff the member holds fewer books than the limit of their kind. Only then is the book appended; the limit is kept |
| Library.Member.ReturnBook | LMS/library_management_system.py:161-166 | succeeds iff the book is held; removes one occurrence, otherwise changes nothing |
| Library.StudentLimits | LMS/library_management_system.py:200-210 | a student may hold 3 books for 14 days and has type "Student" |
| Library.FacultyLimits | LMS/library_management_system.py:249-259 | a faculty member may hold 5 books for 30 days and has type "Faculty" |
| Library.SearchSpec | LMS/library_management_system.py:384-392 | the books found are never more than the books scanned |
| Library.SearchSpecMembers | LMS/library_management_system.py:384-392 | the search finds every scanned book that matches, and only matching books |
| Library.SearchSpecCounts | LMS/library_management_system.py:384-392 | a matching book is found as often as it is scanned, and a book that does not match is never found |
| Library.SearchSpecStep | LMS/library_management_system.py:386-392 | one loop step appends the current book exactly when it matches |
| Library.LibrarySystem.constructor | LMS/library_management_system.py:285-289 | a library without a data file has no books and no members, and is consistent |
| Library.LibrarySystem.AddBook | LMS/library_management_system.py:330-350 | an existing ID is rejected and nothing changes. Otherwise a fresh book with all copies available is filed under its ID, last in order; consistency and bounds are kept |
| Library.LibrarySystem.Shelve | LMS/library_management_system.py:346-347 | filing a new, unlent book keeps the library consistent and bounded |
| Library.LibrarySystem.AddMember | LMS/library_management_system.py:401-436 | checks run in order: an existing ID, then a menu choice other than "1"/"2". A rejected call changes nothing. Otherwise a student or a faculty member with no books is registered last in order |
| Library.LibrarySystem.Enrol | LMS/library_management_system.py:433 | registering a new member without books keeps the library consistent and bounded |
| Library.LibrarySystem.Lend | LMS/library_management_system.py:477 | when both guards hold, both sides are updated and both succeed; loan agreement, conservation and limits are kept |
| Library.LibrarySystem.IssueBook | LMS/library_management_system.py:451-484 | the outcome is the first failing guard (member missing, book missing, limit reached, not available) or success with the loan period. Only success changes anything, and then both sides; consistency and bounds are kept |
| Library.LibrarySystem.Restore | LMS/library_management_system.py:509 | the book side succeeds iff it lists the member, and the short-circuit leaves the member untouched otherwise. In a consistent library it always succeeds and consistency is kept |
| Library.LibrarySystem.ReturnBook | LMS/library_management_system.py:486-515 | the outcome is the first failing guard (member missing, book missing, not issued to this member) or the return. Both sides are undone by one loan. The "Failed to return" branch is unreachable in a consistent library |
| Library.LibrarySystem.BooksInOrder | LMS/library_management_system.py:386 | the books in dictionary insertion order, each book of the library listed |
| Library.LibrarySystem.SearchBooks | LMS/library_management_system.py:370-399 | an empty library is reported as such. Otherwise the result is the books, in insertion order, whose title/author/category (menu 1/2/3) contains the lower-cased term |
| Library.LibrarySystem.SearchFindsMatches | LMS/library_management_system.py:384-393 | a book is listed exactly when it is in the library and matches |
| QuizResults.IsCorrect | AI-Quiz-App/Frontend/ai-quiz-frontend/src/components/QuizResults.jsx:41 | an answer is correct when the clicked index equals the correct number; `QuizResults.FractionalNeverCorrect` states that a fractional one is never matched |
| QuizResults.FractionalNeverCorrect | AI-Quiz-App/Backend/index.js:101-105 | a question whose correct index is not whole, which the filter lets through, is never answered correctly |
| QuizResults.Score | MERN-Quiz-App/components/Quizapp.jsx:70-74 | the score never exceeds the number of answers |
| QuizResults.ScoreAppend | AI-Quiz-App/Frontend/ai-quiz-frontend/src/components/QuizApp.jsx:117-121 | one more answer adds one point exactly when it equals that question's correct index |
| QuizResults.TimeoutsScoreNothing | MERN-Quiz-App/components/Quizapp.jsx:70-74 | a log of timeouts only (`null`) scores 0 |
| QuizResults.ScoreIgnoresExtraAnswers | AI-Quiz-App/Frontend/ai-quiz-frontend/src/components/QuizApp.jsx:119 | answers past the question list score nothing (`questions[index]?.correct`) |
| QuizResults.AllCorrectScoresFull | MERN-Quiz-App/components/Quizapp.jsx:70-74 | answering every question correctly scores the question count |
| QuizResults.ScoreOnPrefix | AI-Quiz-App/Frontend/ai-quiz-frontend/src/components/QuizApp.jsx:117-121 | the score of a shorter log does not depend on the last question |
| QuizResults.PercentageAtLeast | AI-Quiz-App/Frontend/ai-quiz-frontend/src/components/QuizResults.jsx:12 | `score / total * 100 >= k` iff `100·score >= k·total` |
| QuizResults.TierByPercentage | AI-Quiz-App/Frontend/ai-quiz-frontend/src/components/QuizResults.jsx:11-17 | the tier is "Excellent" at 80% or more, "Good job" at 60%, "Not bad" at 40%, else "Keep practicing" |
| QuizResults.TierMonotone | AI-Quiz-App/Frontend/ai-quiz-frontend/src/components/QuizResults.jsx:11-17 | for a fixed total, a higher score never gets a lower tier |
| QuizResults.TierExtremes | MERN-Quiz-App/components/Quizapp.jsx:76-83 | a full score is "Excellent" and a zero score is "Keep practicing" |
| QuizResults.ScoreTier | AI-Quiz-App/Frontend/ai-quiz-frontend/src/components/QuizResults.jsx:11-17 | `getScoreMessage`'s thresholds; `QuizResults.TierByPercentage` states them on the percentage |
| QuizResults.Message | AI-Quiz-App/Frontend/ai-quiz-frontend/src/components/QuizResults.jsx:11-17 | the message text of each tier; `QuizResults.TierByPercentage` states which tier is shown |
| QuizResults.Review | AI-Quiz-App/Frontend/ai-quiz-frontend/src/components/QuizResults.jsx:35-48 | one row per question, in order, numbered from 1. A row is green iff the answer is correct, and shows the correct answer iff it is not green |
| QuizResults.Row | AI-Quiz-App/Frontend/ai-quiz-frontend/src/components/QuizResults.jsx:35-48 | one review row; `QuizResults.Review` states its number, colour and correct-answer line |
| QuizResults.AnswerTextTimeout | AI-Quiz-App/Frontend/ai-quiz-frontend/src/components/QuizResults.jsx:42 | the answer reads "No answer (Time up)" exactly for a timeout |
| QuizResults.GreenCount | AI-Quiz-App/Frontend/ai-quiz-frontend/src/components/QuizResults.jsx:41 | the number of green rows is at most the number of rows |
| QuizResults.ScoreIsGreenRows | AI-Quiz-App/Frontend/ai-quiz-frontend/src/components/QuizResults.jsx:24-48 | the score shown equals the number of green review rows |
| QuizResults.GreenPrefix | AI-Quiz-App/Frontend/ai-quiz-frontend/src/components/QuizResults.jsx:35-48 | the score of the first n answers equals the green rows among the first n rows |
| MernQuiz.Questions | MERN-Quiz-App/data/questions.js:1-52 | ten questions, each with four options and a correct index among them |
| MernQuiz.TimerClassMonotone | MERN-Quiz-App/components/Quizapp.jsx:85-89 | less time left is never shown as less urgent, and a full 30 s is normal |
| MernQuiz.TimerClassOf | MERN-Quiz-App/components/Quizapp.jsx:85-89 | `getTimerClass`; `MernQuiz.TimerClassMonotone` states how urgency follows the time left |
| MernQuiz.QuizApp.constructor | MERN-Quiz-App/components/Quizapp.jsx:5-9 | starts at question 0 with no selection or answers, not completed, 30 s left; the invariant holds |
| MernQuiz.QuizApp.AnswerClick | MERN-Quiz-App/components/Quizapp.jsx:40-43 | overwrites the selection only; index, answers, completion and time are unchanged |
| MernQuiz.QuizApp.MoveToNextQuestion | MERN-Quiz-App/components/Quizapp.jsx:52-60 | before the last question: next index, no selection, 30 s. On the last: completed, index kept |
| MernQuiz.QuizApp.NextClick | MERN-Quiz-App/components/Quizapp.jsx:45-50 | appends the current selection, then advances; the invariant (answers = index while playing, = question count once completed) is kept |
| MernQuiz.QuizApp.TimeUp | MERN-Quiz-App/components/Quizapp.jsx:33-38 | appends a timeout, then advances; the invariant is kept |
| MernQuiz.QuizApp.Tick | MERN-Quiz-App/components/Quizapp.jsx:12-26 | unarmed (completed or answered): nothing changes. Armed above 1 s: one second less. Armed at 1 s or less: the time-up handler runs once and the countdown restarts at 30 |
| MernQuiz.QuizApp.Restart | MERN-Quiz-App/components/Quizapp.jsx:62-68 | returns exactly to the initial state |
| MernQuiz.QuizApp.CompletedView | MERN-Quiz-App/components/Quizapp.jsx:91-126 | a completed quiz scores at most the question count, its score is the number of green rows, and it has one row per question |
| MernQuiz.QuizApp.CalculateScore | MERN-Quiz-App/components/Quizapp.jsx:70-74 | `calculateScore`; `MernQuiz.QuizApp.CompletedView` and `MernQuiz.PerfectRun` state its value |
| MernQuiz.QuizApp.ScoreMessage | MERN-Quiz-App/components/Quizapp.jsx:76-83 | `getScoreMessage`; `QuizResults.TierByPercentage` and `MernQuiz.PerfectRun` state which message is shown |
| MernQuiz.PerfectRun | MERN-Quiz-App/components/Quizapp.jsx:40-83 | answering all ten questions correctly scores 10, "Excellent! 🎉" |
| MernQuiz.IdleRun | MERN-Quiz-App/components/Quizapp.jsx:12-38 | letting every countdown run out records ten timeouts and scores 0, "Keep practicing! 💪" |
| QuizTimer.CountdownTimesOut | AI-Quiz-App/Frontend/ai-quiz-frontend/src/hooks/useQuizTimer.js:28-34 | from `start`, the display counts down one per tick and `onTimeUp` fires on the `start`-th tick, not before, resetting to `timePerQuestion` |
| QuizTimer.CountdownStep | AI-Quiz-App/Frontend/ai-quiz-frontend/src/hooks/useQuizTimer.js:28-34 | after k < start ticks the display shows `start - k` |
| QuizTimer.TickStaysInRange | AI-Quiz-App/Frontend/ai-quiz-frontend/src/hooks/useQuizTimer.js:28-34 | a tick keeps the value within 1..timePerQuestion and times out exactly at 1 |
| QuizTimer.Timer.constructor | AI-Quiz-App/Frontend/ai-quiz-frontend/src/hooks/useQuizTimer.js:13 | the ref starts empty and no interval runs |
| QuizTimer.Timer.ClearCurrent | AI-Quiz-App/Frontend/ai-quiz-frontend/src/hooks/useQuizTimer.js:17-19 | clearing the stored interval leaves no interval running |
| QuizTimer.Timer.RunEffect | AI-Quiz-App/Frontend/ai-quiz-frontend/src/hooks/useQuizTimer.js:15-43 | the previous interval is cleared first. A new one is created iff started, not completed and nothing selected, so at most one interval runs, and one runs iff armed |
| QuizTimer.Timer.Cleanup | AI-Quiz-App/Frontend/ai-quiz-frontend/src/hooks/useQuizTimer.js:38-42 | the effect's cleanup leaves no interval running |
| QuizTimer.Timer.Unmount | AI-Quiz-App/Frontend/ai-quiz-frontend/src/hooks/useQuizTimer.js:46-52 | unmounting leaves no interval running |
| AiQuiz.TimePerQuestionIsFloor | AI-Quiz-App/Frontend/ai-quiz-frontend/src/components/QuizApp.jsx:28 | the time per question is the floor of total time over the requested count |
| AiQuiz.TimePerQuestionOfOptions | AI-Quiz-App/Frontend/ai-quiz-frontend/src/components/QuizSetup.jsx:44-64 | for every choice of count and total time in the setup form, each question gets 15 to 360 s |
| AiQuiz.TimePerQuestion | AI-Quiz-App/Frontend/ai-quiz-frontend/src/components/QuizApp.jsx:28 | `Math.floor(totalTime / numQuestions)`; `AiQuiz.TimePerQuestionIsFloor` states that it is the floor |
| AiQuiz.QuizApp.constructor | AI-Quiz-App/Frontend/ai-quiz-frontend/src/components/QuizApp.jsx:10-25 | setup phase, empty topic, 5 questions, 300 s, nothing generated; the invariant holds |
| AiQuiz.QuizApp.SyncEffects | AI-Quiz-App/Frontend/ai-quiz-frontend/src/components/QuizApp.jsx:31-46 | after a render, a playing quiz whose question or phase changed restarts its countdown at the time per question. The hook then runs an interval iff armed; nothing else changes |
| AiQuiz.QuizApp.SetTopic | AI-Quiz-App/Frontend/ai-quiz-frontend/src/components/QuizApp.jsx:13 | sets the topic; every other field is unchanged and the invariant is kept |
| AiQuiz.QuizApp.SetNumQuestions | AI-Quiz-App/Frontend/ai-quiz-frontend/src/components/QuizApp.jsx:14 | sets the requested count; every other field is unchanged and the setup invariant is kept |
| AiQuiz.QuizApp.SetTotalTime | AI-Quiz-App/Frontend/ai-quiz-frontend/src/components/QuizApp.jsx:15 | sets the total time in seconds from the chosen minutes; every other field is unchanged and the setup invariant is kept |
| AiQuiz.QuizApp.GenerateQuestions | AI-Quiz-App/Frontend/ai-quiz-frontend/src/components/QuizApp.jsx:49-69 | a blank topic sets "Please enter a topic" and does not call the service. Success stores the questions and starts playing with the full time per question. Failure stores the error message and stays in setup |
| AiQuiz.QuizApp.AnswerClick | AI-Quiz-App/Frontend/ai-quiz-frontend/src/components/QuizApp.jsx:79-81 | overwrites the selection and stops the countdown; every other field is unchanged |
| AiQuiz.QuizApp.MoveToNextQuestion | AI-Quiz-App/Frontend/ai-quiz-frontend/src/components/QuizApp.jsx:91-100 | before the last question: next index, no selection, full time. Otherwise: completed and no longer started, index kept. The answers, questions and settings are unchanged |
| AiQuiz.QuizApp.NextClick | AI-Quiz-App/Frontend/ai-quiz-frontend/src/components/QuizApp.jsx:84-88 | appends the current selection, then advances; the questions and settings are unchanged and the invariant is kept |
| AiQuiz.QuizApp.TimeUp | AI-Quiz-App/Frontend/ai-quiz-frontend/src/components/QuizApp.jsx:72-76 | appends a timeout, then advances; the questions and settings are unchanged and the invariant is kept |
| AiQuiz.QuizApp.Tick | AI-Quiz-App/Frontend/ai-quiz-frontend/src/hooks/useQuizTimer.js:27-35 | with no interval, or after a selection, nothing happens. Otherwise one second passes, or at 1 s or less the time-up handler runs once and the countdown restarts. The questions and settings are unchanged |
| AiQuiz.QuizApp.CalculateScore | AI-Quiz-App/Frontend/ai-quiz-frontend/src/components/QuizApp.jsx:117-121 | `calculateScore` over the recorded answers; `QuizResults.ScoreAppend` and `QuizResults.ScoreIgnoresExtraAnswers` state its value |
| AiQuiz.QuizApp.RestartQuiz | AI-Quiz-App/Frontend/ai-quiz-frontend/src/components/QuizApp.jsx:103-114 | back to setup with questions, answers, index, selection, time, topic and error cleared; count and total time kept; no interval runs |
| AiQuiz.QuizApp.CompletedView | AI-Quiz-App/Frontend/ai-quiz-frontend/src/components/QuizApp.jsx:153-163 | a completed quiz has one answer per question when it had questions, and one answer scoring 0 when it had none. Its score is at most the question count and equals the green rows |
| AiQuiz.EmptyQuizRun | AI-Quiz-App/Backend/index.js:101-107 | a generated list with no questions completes on its first timeout with one answer, score 0, "Keep practicing" |
| QuizBackend.ValidateAccepts | AI-Quiz-App/Backend/index.js:26-36 | a request passes iff the key is set, the topic is a string with a non-space character and the count is a number from 1 to 20 |
| QuizBackend.ValidateOrder | AI-Quiz-App/Backend/index.js:26-36 | a missing key answers 500 before anything else. Then a missing, falsy or blank topic answers 400 "Topic is required", and a truthy topic that is not a string throws with no answer. Only a non-blank string topic reaches the count guard, which answers 400 exactly when the count is refused |
| QuizBackend.Validate | AI-Quiz-App/Backend/index.js:26-36 | the request guards in their order; `QuizBackend.ValidateAccepts` and `QuizBackend.ValidateOrder` state its answers |
| QuizBackend.CountExamples | AI-Quiz-App/Backend/index.js:34 | 2.5 is accepted; 0, 21, the string "5" and a missing count are refused |
| QuizBackend.FirstIndex | AI-Quiz-App/Backend/index.js:87 | the position of the first occurrence of a character, or none when absent |
| QuizBackend.LastIndex | AI-Quiz-App/Backend/index.js:87 | the position of the last occurrence of a character, or none when absent |
| QuizBackend.ExtractJsonArraySpec | AI-Quiz-App/Backend/index.js:87 | extraction succeeds iff some `[` is followed later by `]`, and yields the text from the first `[` to the last `]` |
| QuizBackend.ExtractJsonArray | AI-Quiz-App/Backend/index.js:87 | the greedy `\[.*\]` match; `QuizBackend.ExtractJsonArraySpec` states when it succeeds and what it yields |
| QuizBackend.FirstIndexLeast | AI-Quiz-App/Backend/index.js:87 | the first occurrence is at or before any occurrence |
| QuizBackend.LastIndexGreatest | AI-Quiz-App/Backend/index.js:87 | the last occurrence is at or after any occurrence |
| QuizBackend.ExtractExamples | AI-Quiz-App/Backend/index.js:87-91 | no brackets, or `]` before `[`, extracts nothing; "a[1]b" extracts "[1]" |
| QuizBackend.FilterQuestions | AI-Quiz-App/Backend/index.js:101-105 | every kept item has a truthy question, four options and a numeric correct index in [0, 4) |
| QuizBackend.FilterQuestionsSpec | AI-Quiz-App/Backend/index.js:101-105 | the kept items are an order-preserving subsequence, holding exactly the well-shaped items |
| QuizBackend.FilterQuestionsCounts | AI-Quiz-App/Backend/index.js:101-105 | a well-shaped item is kept as often as it occurs in the reply, and no other item is kept |
| QuizBackend.KeepQuestion | AI-Quiz-App/Backend/index.js:101-105 | the filter's test on one item; `QuizBackend.FilterQuestionsSpec` states what it keeps |
| QuizBackend.SubsequenceOfTail | AI-Quiz-App/Backend/index.js:101-105 | a subsequence of the tail is a subsequence of the whole list |
| QuizBackend.FilterMayDropEverything | AI-Quiz-App/Backend/index.js:101-107 | a reply whose items are all malformed yields an empty question list |
| QuizBackend.FilterKeepsFractionalIndex | AI-Quiz-App/Backend/index.js:104 | a fractional `correct` such as 1.5 passes the filter |
| QuizBackend.GenerateQuestions | AI-Quiz-App/Backend/index.js:23-113 | the answer is 200 exactly when the request passes its guards, the model replied with text holding a bracketed array, that array parsed and it holds no `null`; the 200 body is the filtered list |
| QuizBackend.GenerateQuestionsByReply | AI-Quiz-App/Backend/index.js:85-107 | for a valid request, a reply without a `[`…`]` pair gets "did not contain valid JSON". A reply with one that parses without null items gets the filtered questions |
| QuizBackend.GenerateQuestionsErrors | AI-Quiz-App/Backend/index.js:23-113 | a rejected request gets its guard's answer. After the guards, an error status gets "Failed to generate questions from Gemini", a thrown model call or a `null` item gets "Internal server error", and a parse failure gets "Failed to parse generated JSON" |
| ProductSchema.Validate | Product-Listing-Page/Backend-Admin/models/Product.js:3-44 | a document is either stored (trimmed, with defaults) as a valid product, or rejected with a non-empty set of failing fields |
| ProductSchema.StoredValid | Product-Listing-Page/Backend-Admin/models/Product.js:3-44 | a stored document on which no field fails is a valid product |
| ProductSchema.TrimmedTextFails | Product-Listing-Page/Backend-Admin/models/Product.js:4-13 | a trimmed required text fails exactly when it is missing or all whitespace |
| ProductSchema.ValidateErrors | Product-Listing-Page/Backend-Admin/models/Product.js:4-39 | each field is reported exactly when its own rule fails: title/desc missing or blank, imgUrl missing or empty, price missing or negative, disc outside [0,100], rating outside [0,5], category missing or not one of the five |
| ProductSchema.ValidateStored | Product-Listing-Page/Backend-Admin/models/Product.js:3-44 | validating a valid product stores it unchanged |
| ProductSchema.ValidateDefaults | Product-Listing-Page/Backend-Admin/models/Product.js:23-34 | an accepted document without disc or rating is stored with both 0 |
| ProductSchema.Stored | Product-Listing-Page/Backend-Admin/models/Product.js:4-34 | the document after the `trim` setters and the defaults; `ProductSchema.StoredValid` and `ProductSchema.ValidateDefaults` state its properties |
| ProductSchema.ValidProduct | Product-Listing-Page/Backend-Admin/models/Product.js:3-39 | every field rule of the schema; `ProductSchema.Validate` and `ProductSchema.StoredValid` state that stored documents satisfy it |
| ProductSchema.FinalPriceBounds | Product-Listing-Page/Backend-Admin/models/Product.js:18-28 | for a valid product, `price·(100 − disc)/100` lies in [0, price] |
| ProductListing.ByCategory | Product-Listing-Page/Frontend/components/Products.jsx:36-40 | the category step never adds products |
| ProductListing.ByPrice | Product-Listing-Page/Frontend/components/Products.jsx:43-46 | the price step never adds products |
| ProductListing.ByCategoryMembers | Product-Listing-Page/Frontend/components/Products.jsx:36-40 | the category step keeps exactly the products of that category ("All" keeps all) |
| ProductListing.ByPriceMembers | Product-Listing-Page/Frontend/components/Products.jsx:43-46 | the price step keeps exactly the products whose discounted price is at most the maximum |
| ProductListing.ByCategoryCounts | Product-Listing-Page/Frontend/components/Products.jsx:36-40 | a product of the category is kept as often as it was fetched, and no other product is kept |
| ProductListing.ByPriceCounts | Product-Listing-Page/Frontend/components/Products.jsx:43-46 | a product within the price is kept as often as it was fetched, and no other product is kept |
| ProductListing.FilteredMembers | Product-Listing-Page/Frontend/components/Products.jsx:33-46 | a product is listed iff it was fetched, is in the category and is within the price |
| ProductListing.Filtered | Product-Listing-Page/Frontend/components/Products.jsx:33-46 | the category step, skipped for "All", then the price step; `ProductListing.FilteredMembers` states which products it lists |
| ProductListing.LexLeTotal | Product-Listing-Page/Frontend/components/Products.jsx:68 | any two ids are ordered one way or the other |
| ProductListing.LexLeTrans | Product-Listing-Page/Frontend/components/Products.jsx:68 | the id order is transitive |
| ProductListing.BeforeTotal | Product-Listing-Page/Frontend/components/Products.jsx:49-74 | every comparator relates any two products one way or the other |
| ProductListing.BeforeTrans | Product-Listing-Page/Frontend/components/Products.jsx:49-74 | every comparator is transitive |
| ProductListing.InsertionSort | Product-Listing-Page/Frontend/components/Products.jsx:51-69 | sorts the array in place into the order of the mode, as a permutation |
| ProductListing.Insert | Product-Listing-Page/Frontend/components/Products.jsx:51-69 | inserting the next element extends the sorted prefix by one, as a permutation |
| ProductListing.Swap | Product-Listing-Page/Frontend/components/Products.jsx:51-69 | exchanges two neighbours and nothing else |
| ProductListing.ProductsPage.constructor | Product-Listing-Page/Frontend/components/Products.jsx:5-8 | maximum 10000, category "All", no sort, no products |
| ProductListing.ProductsPage.ProductsLoaded | Product-Listing-Page/Frontend/components/Products.jsx:19-20 | the fetched list replaces the products; the filters are untouched |
| ProductListing.ProductsPage.ClearFilters | Product-Listing-Page/Frontend/components/Products.jsx:177-181 | resets the maximum to 10000, the category to "All" and the sort to ""; the products are untouched |
| ProductListing.ProductsPage.GetFilteredAndSortedProducts | Product-Listing-Page/Frontend/components/Products.jsx:32-77 | the result is a permutation of the filtered products, ordered by the chosen mode (price descending, price ascending, id descending); any other key keeps the filtered order; the page's list is not touched |
| ProductListing.ListedProducts | Product-Listing-Page/Frontend/components/Products.jsx:32-77 | whatever the sort, a product is listed iff it passes both filters |
| Dashboard.EditFormOfStoredProduct | E-commerce/Frontend-Admin/components/Dashboard.jsx:154-166 | the edit form of a valid stored product fails the required-field check exactly when its price is 0 |
| Dashboard.FormOf | E-commerce/Frontend-Admin/components/Dashboard.jsx:154-166 | the form `startEdit` fills from a product; `Dashboard.EditFormOfStoredProduct` states what the required-field check makes of it |
| Dashboard.MissingRequired | E-commerce/Frontend-Admin/components/Dashboard.jsx:111-117 | the required-field guard; `Dashboard.Dashboard.Submit` states that it decides the required-fields outcome |
| Dashboard.ReplaceById | E-commerce/Frontend-Admin/components/Dashboard.jsx:80 | the update keeps the list length |
| Dashboard.RemoveById | E-commerce/Frontend-Admin/components/Dashboard.jsx:101 | the delete never lengthens the list |
| Dashboard.RemoveByIdSpec | E-commerce/Frontend-Admin/components/Dashboard.jsx:101 | delete keeps exactly the products with another id, removes as many as carried the id, and leaves none with it |
| Dashboard.RemoveByIdCounts | E-commerce/Frontend-Admin/components/Dashboard.jsx:101 | the delete keeps each product without the id as often as it was listed, and none with the id |
| Dashboard.ReplaceByIdSpec | E-commerce/Frontend-Admin/components/Dashboard.jsx:80 | update replaces every product with the id and keeps every other product in place; with no match the list is unchanged |
| Dashboard.NoIdNoMatch | E-commerce/Frontend-Admin/components/Dashboard.jsx:80 | a list with no product of the id has no position holding it |
| Dashboard.RemoveAfterReplace | E-commerce/Frontend-Admin/components/Dashboard.jsx:80-101 | deleting after an update of the same id is the same as deleting |
| Dashboard.Search | E-commerce/Frontend-Admin/components/Dashboard.jsx:169-173 | the search never adds products |
| Dashboard.SearchSpec | E-commerce/Frontend-Admin/components/Dashboard.jsx:169-173 | a product is shown iff its title or description contains the term, ignoring case |
| Dashboard.SearchCounts | E-commerce/Frontend-Admin/components/Dashboard.jsx:169-173 | a matching product is shown as often as it is in the list, and no other product is shown |
| Dashboard.MatchesSearch | E-commerce/Frontend-Admin/components/Dashboard.jsx:169-173 | the search test on one product; `Dashboard.SearchSpec` states which products pass |
| Dashboard.EmptySearch | E-commerce/Frontend-Admin/components/Dashboard.jsx:169-173 | the empty term shows every product with a title or a description |
| Dashboard.Dashboard.constructor | E-commerce/Frontend-Admin/components/Dashboard.jsx:8-22 | no products, no error, form hidden and empty with category "All", not editing |
| Dashboard.Dashboard.ProductsFetched | E-commerce/Frontend-Admin/components/Dashboard.jsx:27-41 | a reply replaces the list and clears the error; a failure keeps the list and sets "Failed to load products". The form, the edit state and the search term are unchanged |
| Dashboard.Dashboard.SetSearchTerm | E-commerce/Frontend-Admin/components/Dashboard.jsx:210-211 | the search box sets the term and nothing else |
| Dashboard.Dashboard.FilteredProducts | E-commerce/Frontend-Admin/components/Dashboard.jsx:169-173 | the listed products are exactly the products matching the current term, each as often as it is in the list |
| Dashboard.Dashboard.ResetForm | E-commerce/Frontend-Admin/components/Dashboard.jsx:139-151 | blanks the form (category "All"), hides it and stops editing; the list is untouched |
| Dashboard.Dashboard.StartEdit | E-commerce/Frontend-Admin/components/Dashboard.jsx:154-166 | edits the product, fills the form from it with the source's defaults and shows it |
| Dashboard.Dashboard.AddProduct | E-commerce/Frontend-Admin/components/Dashboard.jsx:44-64 | success appends the created product at the end and resets the form; failure keeps the list, the form and the edit state and sets "Failed to add product". The search term is unchanged |
| Dashboard.Dashboard.UpdateProduct | E-commerce/Frontend-Admin/components/Dashboard.jsx:67-87 | success replaces every product with the id and resets the form; failure keeps the list, the form and the edit state and sets "Failed to update product". The search term is unchanged |
| Dashboard.Dashboard.DeleteProduct | E-commerce/Frontend-Admin/components/Dashboard.jsx:90-107 | a declined confirmation changes nothing. Success removes every product with the id; failure keeps the list and sets "Failed to delete product". The form, the edit state and the search term are unchanged |
| Dashboard.Dashboard.Submit | E-commerce/Frontend-Admin/components/Dashboard.jsx:110-136 | a missing required field sets the required-fields message and sends nothing. Otherwise an edit updates by the edited id and a new product is added; a failed request keeps the list. The search term is unchanged |
| QrValidator.HostSpan | QR-Generator-App/qr-App.py:274-276 | the longest prefix without `:`, `/` or `?` |
| QrValidator.HostSpanIs | QR-Generator-App/qr-App.py:274-276 | that prefix is the only one with that property |
| QrValidator.DigitSpan | QR-Generator-App/qr-App.py:277 | the longest prefix of digits |
| QrValidator.DigitSpanIs | QR-Generator-App/qr-App.py:277 | that prefix is the only one with that property |
| QrValidator.SplitOn | QR-Generator-App/qr-App.py:274-276 | splitting on a character gives at least one part, none containing it |
| QrValidator.SplitNoSep | QR-Generator-App/qr-App.py:274-276 | a string without the separator splits into itself |
| QrValidator.SplitAtFirst | QR-Generator-App/qr-App.py:274-276 | splitting `a + c + b` with `c` not in `a` gives `a` followed by the parts of `b` |
| QrValidator.EqualsIgnoreCaseIff | QR-Generator-App/qr-App.py:278 | `re.IGNORECASE` equality is equal length and equal lower-cased characters |
| QrValidator.EqualsIgnoreCaseLowered | QR-Generator-App/qr-App.py:278 | `re.IGNORECASE` equality is equality of the lower-cased strings |
| QrValidator.DigitCount | QR-Generator-App/qr-App.py:285-288 | the digit count of a string is at most its length |
| QrValidator.DropFinalDot | QR-Generator-App/qr-App.py:274 | the final dot is dropped exactly when the host ends with one; otherwise the host is kept |
| QrValidator.HostEnd | QR-Generator-App/qr-App.py:274-276 | the host ends within the string, after it starts |
| QrValidator.PortEnd | QR-Generator-App/qr-App.py:277 | the optional port ends within the string, after it starts |
| QrValidator.SplitNotDelim | QR-Generator-App/qr-App.py:274-276 | when no part of a split contains `:`, `/` or `?`, neither does the whole |
| QrValidator.HostChars | QR-Generator-App/qr-App.py:274-276 | no host of the three forms contains `:`, `/` or `?` |
| QrValidator.DomainHostChars | QR-Generator-App/qr-App.py:274 | no domain host contains `:`, `/` or `?` |
| QrValidator.UrlIff | QR-Generator-App/qr-App.py:271-281 | the left-to-right scan accepts exactly the strings that the URL pattern's grammar matches |
| QrValidator.SchemeLengthIs | QR-Generator-App/qr-App.py:273 | the scan's scheme length is that of any matching scheme prefix |
| QrValidator.HostEndIs | QR-Generator-App/qr-App.py:274-278 | in a matching split, the scan's host end is the split's |
| QrValidator.PortEndIs | QR-Generator-App/qr-App.py:277-278 | in a matching split, the scan's port end is the split's |
| QrValidator.LocalhostExample | QR-Generator-App/qr-App.py:275 | "http://localhost" is a URL |
| QrValidator.DomainHostExample | QR-Generator-App/qr-App.py:274 | "ab.cd" is a domain host |
| QrValidator.IpHostOfGroups | QR-Generator-App/qr-App.py:276 | any four groups of 1–3 digits joined by dots form a host, with no 0–255 range check |
| QrValidator.SchemeRequired | QR-Generator-App/qr-App.py:273 | every accepted URL starts with "http://" or "https://", in any case |
| QrValidator.DigitCountAppend | QR-Generator-App/qr-App.py:285 | the digits of a concatenation are the digits of its parts |
| QrValidator.PhoneDigits | QR-Generator-App/qr-App.py:285-289 | every accepted phone number has 7 to 15 digits |
| QrValidator.PhoneExample | QR-Generator-App/qr-App.py:285-289 | "+555-1234" is accepted |
| QrValidator.PhoneExampleShape | QR-Generator-App/qr-App.py:288 | "+555-1234" matches the phone pattern |
| QrValidator.PhoneExampleDigits | QR-Generator-App/qr-App.py:285 | "+555-1234" has 7 digits |
| QrValidator.RejectedPhones | QR-Generator-App/qr-App.py:288 | 6 characters, and 16 characters, do not match the pattern |
| QrValidator.PunctuationOnlyPhone | QR-Generator-App/qr-App.py:285-289 | "(-- --)" matches the pattern but fails the digit count |
| QrValidator.ValidateDataSpec | QR-Generator-App/qr-App.py:267-295 | text is valid iff not blank; a URL iff the stripped text matches the URL grammar; a phone iff not blank and it matches the phone rule; an image iff a path is selected and exists. "Valid data" is the message exactly when valid. Blank non-image data gets "Please enter some data"; otherwise a refused URL, phone or image gets its own message |
| QrValidator.GenerateQrText | QR-Generator-App/qr-App.py:297-323 | a text payload is the stripped entry, produced iff it is not blank |
| QrValidator.GenerateQrUrl | QR-Generator-App/qr-App.py:297-323 | a URL payload is the stripped entry, produced iff it matches the URL grammar |
| QrValidator.UrlSpecStripped | QR-Generator-App/qr-App.py:280 | stripping the already stripped entry again does not change whether it is a URL |
| QrValidator.GenerateQrPhone | QR-Generator-App/qr-App.py:297-323 | a phone payload is "tel:" and the stripped entry, produced iff it is a valid phone, and it then carries 7–15 digits |
| QrValidator.GenerateQrImage | QR-Generator-App/qr-App.py:297-323 | an image payload is "data:image;base64," and the encoded file, produced iff a path is selected and exists |
| QrValidator.ValidateData | QR-Generator-App/qr-App.py:267-295 | `validate_data`; `QrValidator.ValidateDataSpec` states its verdict for each data type |
| QrValidator.IsUrl | QR-Generator-App/qr-App.py:272-280 | the URL scan; `QrValidator.UrlIff` states that it matches the URL grammar |
| QrValidator.GenerateQr | QR-Generator-App/qr-App.py:297-323 | `generate_qr` up to the encoding; `QrValidator.GenerateQrText`, `GenerateQrUrl`, `GenerateQrPhone` and `GenerateQrImage` state its result |
| QrValidator.Payload | QR-Generator-App/qr-App.py:314-323 | the encoded data; the `GenerateQr` lemmas state it for each type |
| FaceDedup.Overlap | Face-detector/face_detection_app.py:71-73 | the overlap area is never negative |
| FaceDedup.FilterFaces | Face-detector/face_detection_app.py:60-81 | the nested loop keeps exactly the greedy selection over the primary then the alternative detections, and the count is its length (lines 92-93) |
| FaceDedup.AspectExact | Face-detector/face_detection_app.py:65-66 | the integer aspect test is `0.7 <= w / h <= 1.4` on exact rationals |
| FaceDedup.OverlapExact | Face-detector/face_detection_app.py:76 | the integer overlap test is `overlap > 0.3 · area` on exact rationals |
| FaceDedup.OverlapSymmetric | Face-detector/face_detection_app.py:71-73 | the overlap area does not depend on which box is the candidate |
| FaceDedup.MulMono | Face-detector/face_detection_app.py:73-74 | a product of smaller non-negative sides is no larger |
| FaceDedup.OverlapBounds | Face-detector/face_detection_app.py:71-74 | the overlap is at most the candidate's own area, and a box overlaps itself fully |
| FaceDedup.OrderMatters | Face-detector/face_detection_app.py:74-76 | the threshold is relative to the later box: a small box inside a large one is dropped after it but kept before it |
| FaceDedup.DedupIndices | Face-detector/face_detection_app.py:63-81 | the kept boxes come from increasing positions of the candidates |
| FaceDedup.DedupSubsequence | Face-detector/face_detection_app.py:63-81 | the kept boxes are an order-preserving subsequence of the candidates |
| FaceDedup.Dedup | Face-detector/face_detection_app.py:63-81 | the greedy selection; `FaceDedup.DedupSubsequence` and `FaceDedup.DedupPairwise` state what it keeps |
| FaceDedup.DedupPairwise | Face-detector/face_detection_app.py:66-81 | every kept box passes the aspect test, and no kept box overlaps an earlier kept box by more than 30% of its own area |
| FaceDedup.DedupPrefix | Face-detector/face_detection_app.py:63-81 | the boxes kept from a prefix are a prefix of the boxes kept from all |
| FaceDedup.NoneKept | Face-detector/face_detection_app.py:66 | when no candidate passes the aspect test nothing is kept |
| FaceDedup.FirstAspectValidKept | Face-detector/face_detection_app.py:63-81 | the first aspect-valid candidate is always kept, as the first kept box |
| FaceDedup.NoFaces | Face-detector/face_detection_app.py:63-93 | the count is 0 exactly when no candidate passes the aspect test |
| FaceDedup.FirstValid | Face-detector/face_detection_app.py:63-66 | when some candidate passes the aspect test there is a first one |
| FaceDedup.DuplicateDropped | Face-detector/face_detection_app.py:60-81 | a box reported again, by either cascade, is counted once |
| FaceDedup.DedupIdempotent | Face-detector/face_detection_app.py:63-81 | filtering the kept boxes again keeps all of them |
| FaceDedup.KeepsClean | Face-detector/face_detection_app.py:63-81 | a list that passes both tests pairwise is kept whole |

## Left out

- Console, GUI and rendering. These are left out of the model:
  - the library's `input`/`print` menu loop and its `view_*` listings;
  - all JSX rendering and styling, and the Tk widgets;
  - OpenCV capture, detection and drawing, and the `qrcode`/PIL image generation.

  Each handler takes its inputs as parameters and returns its outcome.
- Library persistence. `save_data` and the file reading of `load_data` are left out; the
  dictionaries they exchange are modelled with their round trip. The ISBN, title and other
  fields are stored as given.
- Library dates. The join date is a parameter. The printed due date is the loan period in
  the `Issued` outcome.
- `add_book`'s `int()` parse of the copy count, and its `ValueError` branch: the count is
  an integer parameter.
- Network calls and servers. The fetches, the Express server, the language-model call and
  MongoDB are left out. Their results are parameters (`Option`/`Result`, `ModelReply`,
  the parse result). `JSON.parse` is left out and the filter works on parsed values.
- React scheduling: state batching, effect timing and stale closures. Effects run in
  order after each handler (`AiQuiz.QuizApp.SyncEffects`), and the interval callback is
  `Tick`. The loading flags of the pages are not modelled.
- Floating point and display. Prices and percentages are exact reals; score tiers are
  integer comparisons. `toFixed`, `Math.round` and the dashboard's `parseFloat`/`parseInt`
  of form fields are left out: the submitted product is the request's reply.
- Character classes are ASCII, kept apart per language. Python's whitespace also covers the
  separators U+001C to U+001F, which JavaScript's does not. Python's `\d`, `\s`, `\S`,
  `str.strip`, `str.lower` (the library search) and `re.IGNORECASE`, and JavaScript's `trim`
  and `toLowerCase`, also cover non-ASCII characters, and those are left out: a search for
  "école" finds "ÉCOLE" in the program but not in the model.
- Library: `from_dict` indexes the dictionary without checking the value types, and a
  stored value of the wrong type would fail later, at first use. The model's `WrongType`
  error stands for that failure at load time.
- ProductSchema: the `createdAt` default of `Date.now` is left out, since it reads the clock.
- `localeCompare` is plain lexicographic order on the ASCII hex ids.
- The QR app's data-type radio buttons yield only the four modelled kinds, so another
  `data_type` string is not modelled. The image file's existence and its base64 text are
  parameters.
- QuizResults.CorrectText: the correct index is a real, since the backend's filter passes
  any number in `[0, 4)`. A fractional index shows the truncated letter and no option text:
  the option lookup is `undefined`, which JSX renders as nothing.
- QuizResults.Review: requires at least one answer per question. The completed views only
  show it in that state (`MernQuiz.QuizApp.CompletedView`, `AiQuiz.QuizApp.CompletedView`),
  so the `undefined` rendering of a missing answer is not modelled.
- ProductListing.ProductsPage.GetFilteredAndSortedProducts: does not state that products
  with equal keys keep their filtered order, which `Array.prototype.sort` guarantees.
- AiQuiz.QuizApp.SetNumQuestions: requires one of the form's options (5, 10, 15, 20). The
  select offers no other value.
- AiQuiz.QuizApp.SetTotalTime: requires one of the form's options (5 to 30 minutes).
- AiQuiz.QuizApp.GenerateQuestions: does not model the `isGenerating` flag that disables
  the button during the request.
- QuizBackend.GenerateQuestions: the "Internal server error" body also carries the thrown
  error's `message`, which the model leaves out. A truthy topic that is not a string makes
  `trim` throw before the `try`; that case is `Unhandled`, with no response.
- Library.SearchSpec: its own contract bounds only the number of books found. Which books
  are found, and how often, is stated by `Library.SearchSpecMembers` and
  `Library.SearchSpecCounts`.
- FaceDedup.FilterFaces: requires positive heights, since the source divides by the
  height. Detector boxes always have one.
- The backend's health route, the Chatbot app and the e-commerce admin server are not
  part of this model.
