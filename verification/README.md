# OpenWriter study widgets and chat turn, in Dafny

This project models the sequential logic in OpenWriter's frontend and proves
properties of it. It covers six pieces:

- **Flashcard balancing** (`balanceFlashcards`). The cards still to learn and
  the cards already known are separated, each group keeping its order. They
  are then dealt alternately, a card to learn first, and the rest of the
  longer group follows.
- **Flashcard status change** (`handleStatusChange`). One card of the list
  gets a new status.
- **Pomodoro timer**. A state machine over `timeLeft` and `isRunning`. The
  Start, Pause and Reset buttons and the one-second timeout are events. The
  component's effect, which re-runs after every change, is a settle step.
  `formatTime` renders the time as minutes, a colon and two-digit seconds.
- **Quiz options** (`generateQuiz`, `generateOptions`,
  `generateRandomOption`, `shuffleArray`). `Math.random` is replaced by
  explicit choices:
  - the pool indices the option loop draws;
  - the Fisher–Yates swap indices, `j_i` in `[0, i]`.

  A finite list of draws that runs out before four options exist stands for
  a loop that is still running. It yields `None`.
- **Chat turn** (`handleChatSend` in the editor). A pure function takes the
  state, the system prompt, the gateway's outcome and the conversation
  store's answers. It returns two things:
  - the final state: the transcript, the input, the loading flag and the
    current conversation;
  - the calls made to the outside, in order: conversation creation, message
    saves and the completion request.

  The send guard (Enter key and send button), the request's message list and
  the default conversation title are part of it.
- **File extension dispatch** (`extractContent`). The text after the last
  `.` of the path, lower-cased, selects the txt, pdf or docx extractor. An
  empty extension and any other extension are distinct errors.

Each source file has its own module, and two shared helper modules
(`Wrappers` and `Decimal`) serve them; modules import one another:

| module | file |
|---|---|
| `Wrappers` (`Option`) | `wrappers.dfy` |
| `Decimal` (how JavaScript renders a non-negative integer below 10^21) | `decimal.dfy` |
| `FlashcardAlgorithm` | `flashcard_algorithm.dfy` |
| `FlashcardViewer` | `flashcard_viewer.dfy` |
| `PomodoroTimer` | `pomodoro_timer.dfy` |
| `QuizGenerator` | `quiz_generator.dfy` |
| `Editor` | `editor.dfy` |
| `FileContentExtractor` | `file_content_extractor.dfy` |

In these details the model follows the code:

- The user message keeps the raw, untrimmed input (Editor.tsx:46). Only the
  guard trims it (Editor.tsx:44).
- A conversation created during the turn is never made current, because
  `setCurrentConversation` is never called.
- The assistant reply is saved only under a conversation that was current
  before the turn (Editor.tsx:115). In the first turn of a new conversation
  the reply is therefore not persisted.
- Saving the assistant reply (Editor.tsx:116) sits inside the request's
  `try`. When that save throws, the catch at Editor.tsx:122-124 replaces the
  reply with the send-error text. `Store.replySaved` models this.
- A conversation identifier of `0` counts as absent, as in JavaScript
  (`Editor.Truthy`).

## Model

| member | source | states |
|---|---|---|
| FlashcardAlgorithm.Balance | frontend/src/utils/flashcardAlgorithm.ts:7-24 | The balanced list has the input's length and is a permutation of it (same multiset). Filtering it by either status gives exactly the input filtered by that status, so each group keeps its order. |
| FlashcardAlgorithm.Filter | frontend/src/utils/flashcardAlgorithm.ts:8-9 | A status filter never yields more cards than the input holds. |
| FlashcardAlgorithm.FilterPartition | frontend/src/utils/flashcardAlgorithm.ts:8-9 | Every card lands in exactly one of the two groups: their lengths add up to the input's. |
| FlashcardAlgorithm.FilterPermutes | frontend/src/utils/flashcardAlgorithm.ts:8-9 | Together the two groups hold each card exactly as often as the input does. |
| FlashcardAlgorithm.FilterStatus | frontend/src/utils/flashcardAlgorithm.ts:8-9 | Every card a filter keeps has the status filtered for. |
| FlashcardAlgorithm.FilterAppend | frontend/src/utils/flashcardAlgorithm.ts:8-9 | Filtering a concatenation is concatenating the filtered parts. |
| FlashcardAlgorithm.FilterMember | frontend/src/utils/flashcardAlgorithm.ts:8-9 | Every card appears in the group of its own status. |
| FlashcardAlgorithm.Interleave | frontend/src/utils/flashcardAlgorithm.ts:14-21 | The output is as long as the two groups together; which cards it holds is stated by InterleavePermutes. |
| FlashcardAlgorithm.InterleavePermutes | frontend/src/utils/flashcardAlgorithm.ts:14-21 | The push loop neither loses nor adds a card: the output's multiset is the union of the groups'. |
| FlashcardAlgorithm.FilterInterleave | frontend/src/utils/flashcardAlgorithm.ts:14-21 | Filtering the dealt order by each status gives each group back unchanged. |
| FlashcardAlgorithm.InterleaveDealt | frontend/src/utils/flashcardAlgorithm.ts:14-21 | For i below the shorter group's length, position 2i holds the i-th card to learn and position 2i+1 the i-th known card. After those pairs comes the rest of the longer group, in order. |
| FlashcardAlgorithm.BalanceDealt | frontend/src/utils/flashcardAlgorithm.ts:14-21 | The balanced list is dealt this way from the two filtered groups. |
| FlashcardAlgorithm.BalanceUniform | frontend/src/utils/flashcardAlgorithm.ts:12-21 | When all cards share one status, the output equals the input. |
| FlashcardAlgorithm.BalanceIdempotent | frontend/src/utils/flashcardAlgorithm.ts:8-21 | Balancing a balanced list changes nothing. |
| FlashcardAlgorithm.BalanceStartsWithNeed | frontend/src/utils/flashcardAlgorithm.ts:15-16 | If any card is still to learn, the first output card is one to learn. |
| FlashcardViewer.SetStatus | frontend/src/components/FlashcardViewer.tsx:16-20 | The card at `index` gets the new status and keeps its question and answer. Every other card and the list length are unchanged. `index` must be in range, since the source dereferences that entry. |
| FlashcardViewer.SetStatusUnchanged | frontend/src/components/FlashcardViewer.tsx:16-20 | Setting a card's status to its current value leaves the list as it was. |
| FlashcardViewer.SetStatusIdempotent | frontend/src/components/FlashcardViewer.tsx:16-20 | Applying the same update twice equals applying it once. |
| FlashcardViewer.SetStatusMovesOneCard | frontend/src/components/FlashcardViewer.tsx:16-20 | A status change moves exactly one card from the old status group to the new one, or none when the status is unchanged. |
| PomodoroTimer.OnTick | frontend/src/components/PomodoroTimer.tsx:9-12 | A tick lowers `timeLeft` by exactly one, and only while the timer runs with time left; otherwise it does nothing. |
| PomodoroTimer.Settle | frontend/src/components/PomodoroTimer.tsx:13-14 | The effect keeps `timeLeft` and stops the timer exactly when no time is left. |
| PomodoroTimer.Apply | frontend/src/components/PomodoroTimer.tsx:9-25 | Start and Pause set only the running flag, on and off. Reset returns to (1500, stopped). A tick keeps the flag, never raises `timeLeft`, and lowers it exactly when the timer runs with time left. |
| PomodoroTimer.Step | frontend/src/components/PomodoroTimer.tsx:7-25 | After any event and its effect run, a timer at zero is stopped, even right after Start. Reset yields (1500, stopped). Pause stops the timer and keeps the time. Start runs the timer only if time is left. |
| PomodoroTimer.RunPreservesValid | frontend/src/components/PomodoroTimer.tsx:4-25 | From any state with 0 ≤ timeLeft ≤ 1500 and not running at zero, every event sequence keeps both facts. |
| PomodoroTimer.ReachableStatesValid | frontend/src/components/PomodoroTimer.tsx:4-25 | From the initial state (1500, stopped), every reachable state has timeLeft in [0, 1500] and is stopped at zero. |
| PomodoroTimer.Countdown | frontend/src/components/PomodoroTimer.tsx:9-14 | A running timer with n > 0 seconds left reaches (0, stopped) after n ticks. |
| PomodoroTimer.FullPomodoro | frontend/src/components/PomodoroTimer.tsx:9-14 | Starting at (1500, running), 1500 ticks and their effect runs reach (0, stopped). |
| PomodoroTimer.PaddedSeconds | frontend/src/components/PomodoroTimer.tsx:29-30 | The seconds field is always two digits and reads back as the remainder. |
| PomodoroTimer.FormatTime | frontend/src/components/PomodoroTimer.tsx:27-31 | The result is a numeral, a colon and two digits worth less than 60, with minutes × 60 + seconds equal to the input. |
| Decimal.Render | frontend/src/components/PomodoroTimer.tsx:30 | A non-negative integer below 10^21 interpolated into a template string is a canonical numeral (no leading zero). It is one character long exactly when the number is below 10. |
| Decimal.ValueOfRender | frontend/src/components/PomodoroTimer.tsx:30 | Reading the rendered numeral back gives the number. |
| Decimal.RenderInjective | frontend/src/components/PomodoroTimer.tsx:30 | Distinct numbers render differently. |
| QuizGenerator.RandomOption | frontend/src/components/QuizGenerator.tsx:43-46 | A drawn option is the answer of some card in the pool. |
| QuizGenerator.FillOptions | frontend/src/components/QuizGenerator.tsx:32-39 | When the loop ends there are exactly 4 options, with no duplicates. The options present at the start come first, and every added option is a pool answer. |
| QuizGenerator.FillStep | frontend/src/components/QuizGenerator.tsx:34-38 | A draw whose answer is not yet offered is appended, and the options stay distinct. |
| QuizGenerator.FillWithThree | frontend/src/components/QuizGenerator.tsx:34-38 | Three draws of three new, distinct answers end the loop. |
| QuizGenerator.FillNeedsFourAnswers | frontend/src/components/QuizGenerator.tsx:34-46 | With fewer than four distinct answers among the correct one and the pool's, no draw sequence ends the loop. |
| QuizGenerator.FourAnswersSuffice | frontend/src/components/QuizGenerator.tsx:34-46 | With at least four distinct answers, some valid draw sequence ends the loop. |
| QuizGenerator.OptionsReachable | frontend/src/components/QuizGenerator.tsx:34-46 | The loop can end exactly when the correct answer and the pool's answers hold at least four distinct values. This is both directions. |
| QuizGenerator.AnswerAt | frontend/src/components/QuizGenerator.tsx:43-46 | Every answer in the pool can be drawn by some index. |
| QuizGenerator.Swap | frontend/src/components/QuizGenerator.tsx:51 | The destructuring swap exchanges positions i and j and leaves every other position alone. |
| QuizGenerator.SwapPermutes | frontend/src/components/QuizGenerator.tsx:51 | A swap keeps every element. |
| QuizGenerator.SwapDistinct | frontend/src/components/QuizGenerator.tsx:51 | A swap of a duplicate-free array is duplicate-free. |
| QuizGenerator.ShuffleFrom | frontend/src/components/QuizGenerator.tsx:49-52 | The Fisher–Yates steps from i down to 1 keep the array's length. |
| QuizGenerator.ShuffleFromPermutes | frontend/src/components/QuizGenerator.tsx:49-52 | Those steps keep the array's multiset for every valid choice of swap indices. |
| QuizGenerator.ShuffleFromDistinct | frontend/src/components/QuizGenerator.tsx:49-52 | Those steps keep a duplicate-free array duplicate-free. |
| QuizGenerator.Shuffle | frontend/src/components/QuizGenerator.tsx:48-54 | For every choice of j_i in [0, i], `shuffleArray` returns a permutation of its input, of the same length. |
| QuizGenerator.ShuffleDistinct | frontend/src/components/QuizGenerator.tsx:48-54 | Shuffling never brings two equal options together. |
| QuizGenerator.ShuffleFromIdentity | frontend/src/components/QuizGenerator.tsx:49-51 | Drawing j_i == i at every step from i down leaves the array unchanged. |
| QuizGenerator.ShuffleIdentity | frontend/src/components/QuizGenerator.tsx:48-54 | `shuffleArray` with j_i == i at every step is the identity. |
| QuizGenerator.GenerateOptions | frontend/src/components/QuizGenerator.tsx:32-41 | Options exist exactly when the loop ends. They are then 4 distinct values that include the correct answer, each either the correct answer or a pool answer. |
| QuizGenerator.GenerateQuiz | frontend/src/components/QuizGenerator.tsx:14-30 | There is one question per flashcard, in input order, with that card's question as prompt. Its options are as `GenerateOptions` promises for that card's answer. |
| QuizGenerator.SmallPoolNeverCompletes | frontend/src/components/QuizGenerator.tsx:14-46 | With fewer than four distinct answers in the pool, no question of the quiz ever gets options, whatever the draws. |
| Editor.Trim | frontend/src/app/app/components/Editor.tsx:44 | `trim()` is empty exactly when the input is all ECMAScript whitespace. Otherwise it neither starts nor ends with whitespace. |
| Editor.DefaultTitle | frontend/src/app/app/components/Editor.tsx:56 | The title is the message itself when it has at most 30 characters. Otherwise it is the first 30 followed by "...". It is never longer than 33. |
| Editor.ApiMessages | frontend/src/app/app/components/Editor.tsx:71-74 | The request list is the system prompt, then the history. When the history has no system message, only the first entry does. |
| Editor.HttpErrorText | frontend/src/app/app/components/Editor.tsx:93 | The error text is the fixed opening, a canonical numeral that reads back as the status, and the fixed closing. |
| Editor.FirstChoiceText | frontend/src/app/app/components/Editor.tsx:109 | The reply taken from the choices is the first choice's message content, or "" when it has none. |
| Editor.ReplyText | frontend/src/app/app/components/Editor.tsx:92-124 | With choices, and a reply save that does not throw or is not attempted, the reply is the first choice's text. In every other case it is a non-empty fixed or error text that is not "Thinking...". |
| Editor.SetupEffects | frontend/src/app/app/components/Editor.tsx:52-65 | The set-up makes one or two calls, neither a request nor a reply save. It creates a conversation, first, exactly when none is current. It saves the user message exactly when an identifier is current or returned by the store. |
| Editor.ReplyEffects | frontend/src/app/app/components/Editor.tsx:115-117 | At most one call follows the request. It is made exactly when choices came back under a current conversation, and it saves the first choice's text as an assistant message. |
| Editor.TurnEffects | frontend/src/app/app/components/Editor.tsx:52-117 | A sent turn makes exactly one request: [system] ++ transcript ++ [user message], without the placeholder. It creates a conversation exactly when none is current. It saves the user message exactly when an identifier is at hand. It saves the reply exactly when choices came back under a current conversation. |
| Editor.TurnTranscript | frontend/src/app/app/components/Editor.tsx:46-124 | The settled transcript is the old one, then the user message with the untrimmed input, then exactly one assistant message. |
| Editor.HandleChatSend | frontend/src/app/app/components/Editor.tsx:43-128 | Blank input does nothing: the state is unchanged and no call is made. Otherwise the transcript grows by the user message and one assistant message, the input is cleared and loading ends. The current conversation is unchanged, and exactly the one request above is made. |
| Editor.Submit | frontend/src/app/app/components/Editor.tsx:212-222 | While a request is pending, Enter and the send button do nothing. Otherwise they run the turn, which itself ignores blank input. |
| Editor.HttpErrorReply | frontend/src/app/app/components/Editor.tsx:92-95 | A response that is not ok ends the turn with the error text embedding its status. |
| Editor.ServerErrorText | frontend/src/app/app/components/Editor.tsx:93 | For status 500 the reply reads "…communicating with the AI (500). Please try again." |
| Editor.ParseErrorReply | frontend/src/app/app/components/Editor.tsx:98-106 | A body that is not JSON ends the turn with the invalid-response text. |
| Editor.NetworkErrorReply | frontend/src/app/app/components/Editor.tsx:122-124 | An exception from the request ends the turn with the send-error text. |
| Editor.ChoiceReply | frontend/src/app/app/components/Editor.tsx:108-124 | With choices, the reply is the first choice's content, or "" when it has none. If saving that reply under the current conversation throws, the reply is the send-error text instead. |
| Editor.NoChoicesReply | frontend/src/app/app/components/Editor.tsx:118-121 | Missing or empty `choices` end the turn with the unexpected-format text. |
| Editor.PlaceholderNotLeft | frontend/src/app/app/components/Editor.tsx:67-124 | The "Thinking..." placeholder is not among the entries the turn adds, unless the gateway's own first choice is that text. |
| Editor.ReplyNotPlaceholder | frontend/src/app/app/components/Editor.tsx:92-124 | Only a reply taken from the choices can read "Thinking..."; none of the fixed texts does. |
| Editor.ServerErrorTextNotPlaceholder | frontend/src/app/app/components/Editor.tsx:93 | No HTTP error text is the placeholder text. |
| Editor.ReplySavedOnlyUnderCurrent | frontend/src/app/app/components/Editor.tsx:115-117 | The reply is saved exactly when the input is not blank, choices came back, and a conversation was current before the turn. A conversation created during the turn does not count. |
| Editor.UserMessageSaved | frontend/src/app/app/components/Editor.tsx:53-62 | The user message is saved exactly when the input is not blank and there is a current identifier or one returned by the store. |
| Editor.ConversationCreated | frontend/src/app/app/components/Editor.tsx:53-58 | A conversation with the default title is created exactly when the input is not blank and none is current. The turn never changes the current conversation. |
| FileContentExtractor.Split | frontend/src/utils/fileContentExtractor.ts:6 | `split('.')` yields at least one piece. The last piece is the text after the last '.', or the whole path when it has none. |
| FileContentExtractor.SplitPiecesLackSep | frontend/src/utils/fileContentExtractor.ts:6 | No piece of a split contains the separator. |
| FileContentExtractor.JoinSplit | frontend/src/utils/fileContentExtractor.ts:6 | Joining the pieces with the separator restores the path. |
| FileContentExtractor.FinalSegmentUnique | frontend/src/utils/fileContentExtractor.ts:6 | A path has at most one final segment; `FinalSegment` supplies one. |
| FileContentExtractor.FinalSegment | frontend/src/utils/fileContentExtractor.ts:6 | `pop()` returns that final segment. |
| FileContentExtractor.EmptyFinalSegment | frontend/src/utils/fileContentExtractor.ts:6-10 | The final segment is empty exactly when the path is empty or ends with the separator. |
| FileContentExtractor.Extension | frontend/src/utils/fileContentExtractor.ts:6 | The extension is the path's final segment after the last '.', lower-cased; every final segment of the path gives this same extension. |
| FileContentExtractor.ToLower | frontend/src/utils/fileContentExtractor.ts:6 | `toLowerCase` keeps the length and lower-cases each ASCII letter. |
| FileContentExtractor.Classify | frontend/src/utils/fileContentExtractor.ts:8-21 | An empty extension is invalid. "txt", "pdf" and "docx" go to their own extractors, each exactly for that text. Any other non-empty extension is unsupported. |
| FileContentExtractor.ExtractContent | frontend/src/utils/fileContentExtractor.ts:5-22 | The invalid-extension error is thrown exactly when the path is empty or ends with '.'. |
| FileContentExtractor.OnlyFinalSegmentMatters | frontend/src/utils/fileContentExtractor.ts:6 | Whatever precedes the last '.' does not affect the dispatch. |
| FileContentExtractor.FinalSegmentOfLower | frontend/src/utils/fileContentExtractor.ts:6 | Lower-casing commutes with taking the final segment. |
| FileContentExtractor.AsciiLowerIdempotent | frontend/src/utils/fileContentExtractor.ts:6 | Lower-casing twice is lower-casing once. |
| FileContentExtractor.CaseInsensitive | frontend/src/utils/fileContentExtractor.ts:6-18 | A path and its lower-cased form go to the same extractor. |
| FileContentExtractor.ClassifiedBy | frontend/src/utils/fileContentExtractor.ts:12-20 | The extension alone selects the extractor or the error. |
| FileContentExtractor.ExtensionAfterDot | frontend/src/utils/fileContentExtractor.ts:6 | The extension of `prefix.ext`, with no '.' in `ext`, is `ext` lower-cased. |
| FileContentExtractor.WholePathIsExtension | frontend/src/utils/fileContentExtractor.ts:6-20 | A path without '.' is dispatched on the whole path, lower-cased. |
| FileContentExtractor.NestedExtension | frontend/src/utils/fileContentExtractor.ts:6-14 | "a.pdf.txt" goes to the text extractor. |
| FileContentExtractor.UpperCaseExtension | frontend/src/utils/fileContentExtractor.ts:6-16 | "X.PDF" goes to the PDF extractor. |
| FileContentExtractor.NoDotUnsupported | frontend/src/utils/fileContentExtractor.ts:6-20 | "notes" is an unsupported format. |
| FileContentExtractor.NoDotKnownFormat | frontend/src/utils/fileContentExtractor.ts:6-16 | "pdf" goes to the PDF extractor. |
| FileContentExtractor.EmptyExtension | frontend/src/utils/fileContentExtractor.ts:6-10 | "report." and "" raise the invalid-extension error. |

## Left out

- The network call (`fetch`), its headers, the API key and JSON parsing. They appear only as the gateway outcome `Editor.Outcome`. A parsed body whose value is `null` makes `data.choices` throw into the outer catch; the model does not single out that case.
- The `@/utils/conversation` module is not part of this model. `createConversation` and `saveMessage` appear as recorded effects plus the store's answers (`Editor.Store`). A failed user-message save or conversation creation is caught and never reaches the transcript.
- `Editor.HttpError`: this case stands for any response whose `ok` flag is false; the model does not relate `ok` to the status range.
- Async interleaving and React state-setter timing are not modelled. This includes stale closures and the intermediate renders, such as the frame that shows the "Thinking..." placeholder. Only the settled state of a turn is modelled.
- `setTimeout`/`clearTimeout` scheduling is replaced by discrete `Tick` events. The `alert` at zero is left out, including that it fires again each time the effect re-runs at zero.
- `Math.random` is replaced by explicit index parameters; distributions and uniformity are not modelled.
- `QuizGenerator.FillOptions`: an option loop that never ends is represented by running out of a finite list of draws (the result `None`), not by divergence.
- File I/O (`readFileSync`), `pdf-parse` and `mammoth` are left out; only the choice of extractor or error is modelled.
- `Decimal.Render`: renders every natural number positionally. JavaScript numbers are doubles: `${n}` uses exponent notation from 1e21 on, and not every integer above 2^53 is representable. The timer's values stay within 0..1500 and HTTP statuses are below 1000, so the model never reaches that range.
- `FileContentExtractor.ToLower`: lower-cases ASCII letters only, not all of Unicode. The dispatch decision does not depend on the difference: the few non-ASCII characters that `toLowerCase` maps into ASCII (the Kelvin sign, the dotted capital I) cannot turn any string other than "txt", "pdf" or "docx" in any case into one of them.
- `Editor.DefaultTitle`: counts characters as Unicode code points, whereas `substring` and `length` count UTF-16 code units. The two differ only for characters outside the Basic Multilingual Plane.
- JSX rendering, CSS, the clipboard, the theme, the transcript's clear button and the presentational `Flashcard` component are left out.
- The shallow copy in `handleStatusChange` mutates the original card object. The model uses value semantics.
