# QuizWizard client state, in Dafny

This project models the two in-memory state machines of the QuizWizard web client.

- **The quiz studio** (`components/McqGenerator.tsx`). A question list is generated from a document, corrected in an editor, then answered, validated, submitted, scored and reset.
  - The editor handlers rewrite the list by `map`/`filter`. They are pure functions in module `Questions`.
  - The runner's validation and scoring are pure functions in module `Assessment`.
  - The component's state fields and handlers are the class `QuizSession.QuizStudio`. Its fields are the question list, the recorded answers, the submitted flag, the flagged ids, the editor switch, the generating flag and the error message.
- **The export title** (`safeTopic`, same file). The quiz topic is escaped before it goes into the generated form script. This is module `QuizExport`.
- **The chat assistant** (`components/ChatBot.tsx`). A user message is appended, then a reply placeholder. Streamed chunks fold into the placeholder's text. A failure appends a separate error message. Clearing keeps the welcome message.
  - The transcript functions are in module `Chat`.
  - The component state and its handlers are the class `ChatSession.ChatBot`.

Both classes carry an invariant `Valid()`:
- In `QuizStudio`, a question is flagged "Required field" only while it has no truthy answer.
- In `ChatBot`, the transcript is never empty, so clearing always has a first message to keep.

The generation pipeline and the chat stream talk to a remote model. Here their results are parameters. A generation outcome is passed to `FinishGeneration`. A stream is a list of chunks plus an optional failure point, passed to `HandleSubmit`. The clock-derived message ids are also parameters.

Points where one might expect other behaviour; the model does what the code does:
- One might expect question ids never to be reused after a deletion. The code computes `max(ids, 0) + 1` from the current list. After the question with the largest id is deleted, the next id is at most that id. It is that same id exactly when the id is 1 or the id just below it is still present (`Questions.NextIdAfterDeletingMax`). For example, ids {1,2}: delete 2, add, and 2 comes back (`Questions.DeletedMaxIdIsReused`). With ids {1,3,5}, deleting 5 and adding gives 4.
- One might expect entering the editor to clear the recorded answers. The Editor button clears only the submitted flag and the flags; `userAnswers` survive (`QuizSession.QuizStudio.EnterEditor`).
- A submit with every question answered leaves `validationErrors` as it was; only the missing-answer path writes it.

## Model

| member | source | states |
|---|---|---|
| `Questions.MapMatching` | components/McqGenerator.tsx:125 | the shared `prev.map(q => q.id === id ? f(q) : q)` shape: same length, questions with the id become `f(q)`, all others are kept |
| `Questions.ApplyEdit` | components/McqGenerator.tsx:125 | overwrites only the named field (question text, explanation or difficulty); id, options and correct answer are kept |
| `Questions.UpdateQuestion` | components/McqGenerator.tsx:124-126 | only questions with the id change, and only in the named field; order and length are kept; a no-op when no question has the id; well-formedness is preserved |
| `Questions.ReplaceOption` | components/McqGenerator.tsx:129-142 | `options[i]` becomes the new value; the correct answer follows it when it equalled the old option text and is otherwise unchanged; other fields are kept |
| `Questions.ReplaceOptionKeepsWellFormed` | components/McqGenerator.tsx:136-140 | an option edit never detaches the correct answer: if it was one of the options, it still is |
| `Questions.UpdateOption` | components/McqGenerator.tsx:128-144 | only questions with the id are rewritten as above; others, order and length are kept; a no-op when no question has the id |
| `Questions.UpdateOptionKeepsWellFormed` | components/McqGenerator.tsx:128-144 | a list whose correct answers are all options stays so after an option edit |
| `Questions.SetCorrectAnswer` | components/McqGenerator.tsx:146-148 | sets the correct answer of the questions with the id, unchecked; others, order and length are kept; a no-op when no question has the id |
| `Questions.SetCorrectAnswerWellFormed` | components/McqGenerator.tsx:146-148 | because the value is not checked, a well-formed list stays well-formed exactly when the value is an option of every question it is assigned to |
| `Questions.DeleteQuestion` | components/McqGenerator.tsx:150-152 | keeps exactly the questions without the id, unchanged (no renumbering), and never grows; a no-op when no question has the id |
| `Questions.DeleteQuestionAppend` | components/McqGenerator.tsx:151 | deletion distributes over concatenation, so the survivors keep their relative order |
| `Questions.MaxIdOrZero` | components/McqGenerator.tsx:155 | `Math.max(...ids, 0)`: at least 0, at least every id, and either 0 or an existing id |
| `Questions.NextId` | components/McqGenerator.tsx:155 | the new id is at least 1 and greater than every existing id; it is 1 or one more than an existing id |
| `Questions.NewQuestion` | components/McqGenerator.tsx:156-163 | the template has four options, its correct answer is its first option, and it has Medium difficulty |
| `Questions.AddQuestion` | components/McqGenerator.tsx:154-164 | appends one template question under an id no existing question has; the earlier list is a prefix; well-formedness is preserved |
| `Questions.NextIdExamples` | components/McqGenerator.tsx:155 | ids {1,3,5} give 6; an empty list gives 1 |
| `Questions.NextIdAfterDeletingMax` | components/McqGenerator.tsx:150-155 | after deleting the question with the largest id m ≥ 1, the next id is at most m, and equals m exactly when m is 1 or id m−1 is still in the list |
| `Questions.NextIdBelow` | components/McqGenerator.tsx:155 | when every id is below m ≥ 1, the next id is at most m, and equals m exactly when m is 1 or m−1 is in use |
| `Questions.RemainingIdsBelow` | components/McqGenerator.tsx:150 | deleting an id at least as large as every id leaves only smaller ids |
| `Questions.DeletedMaxIdIsReused` | components/McqGenerator.tsx:150-155 | one instance: with ids 1 and 2, deleting 2 and adding a question hands out 2 again |
| `Assessment.MissingAnswers` | components/McqGenerator.tsx:98-100 | every reported id lacks a truthy answer (missing or empty string); the list is empty exactly when every question is answered |
| `Assessment.MissingAnswersMembers` | components/McqGenerator.tsx:98-100 | an id is reported if and only if some question has it and it has no truthy answer |
| `Assessment.MissingAnswersAppend` | components/McqGenerator.tsx:98-100 | the report distributes over concatenation, so it follows question order |
| `Assessment.NothingAnsweredReportsAll` | components/McqGenerator.tsx:96-121 | after a reset, a submit reports every question id, in list order |
| `Assessment.MissingAnswersExample` | components/McqGenerator.tsx:96-110 | five questions with the 2nd and 4th unanswered report exactly [2, 4] |
| `Assessment.CorrectCount` | components/McqGenerator.tsx:233 | between 0 and the number of questions; equal to it exactly when every answer matches by value, and 0 exactly when none does |
| `Assessment.RoundedPercent` | components/McqGenerator.tsx:234 | at most 100; 0 for no questions; otherwise the nearest integer to 100·correct/total, halves rounded up |
| `Assessment.CorrectCountAppend` | components/McqGenerator.tsx:233 | the count of a concatenation is the sum of the counts, so it counts each question whose answer matches |
| `Assessment.CorrectCountSingle` | components/McqGenerator.tsx:233 | a single question counts 1 exactly when its recorded answer equals its correct answer |
| `Assessment.Score` | components/McqGenerator.tsx:233-234 | the banner percentage: at most 100, 0 for an empty list, otherwise within half a point of 100·correct/total (halves rounded up) |
| `Assessment.ScoreFourOfFive` | components/McqGenerator.tsx:233-234 | five questions of which four are answered correctly and one is not: the count is 4 and the score 80 |
| `Assessment.ScoreAllCorrect` | components/McqGenerator.tsx:233-234 | five questions all answered correctly score 100 |
| `Assessment.PerfectScoreIff` | components/McqGenerator.tsx:234 | below 200 questions, 100% is shown exactly for a perfect attempt |
| `Assessment.OneWrongOfTwoHundredRoundsToFull` | components/McqGenerator.tsx:234 | with 200 questions and one wrong answer the rounding shows 100% |
| `QuizSession.ClearFlag` | components/McqGenerator.tsx:91-93 | removes every occurrence of the id from the flags and keeps the others; a no-op when the id is not flagged |
| `QuizSession.QuizStudio.constructor` | components/McqGenerator.tsx:11-23 | empty list, no answers, no flags, not submitted, not editing, not generating, no error |
| `QuizSession.QuizStudio.StartGeneration` | components/McqGenerator.tsx:56-68 | without a document only the error is set; otherwise generating starts and questions, answers, flags, submitted and edit mode are all cleared |
| `QuizSession.QuizStudio.FinishGeneration` | components/McqGenerator.tsx:70-79 | a result is installed and opens the editor; a failure records its message (or the fallback text) and leaves the list as it was; generating ends either way |
| `QuizSession.QuizStudio.SelectOption` | components/McqGenerator.tsx:83-94 | a no-op when submitted or editing; otherwise records the answer, lifts that question's flag, and leaves every other answer and flag as it was |
| `QuizSession.QuizStudio.SubmitQuiz` | components/McqGenerator.tsx:96-114 | with unanswered questions, flags exactly those ids in list order and does not submit; otherwise submits, with every question answered |
| `QuizSession.QuizStudio.ResetQuiz` | components/McqGenerator.tsx:116-121 | clears answers, flags and the submitted flag; the questions and the editor switch are kept |
| `QuizSession.QuizStudio.EnterEditor` | components/McqGenerator.tsx:387 | opens the editor and clears the submitted flag and the flags; answers are kept |
| `QuizSession.QuizStudio.EnterPreview` | components/McqGenerator.tsx:396 | closes the editor and changes nothing else |
| `QuizSession.QuizStudio.UpdateQuestionField` | components/McqGenerator.tsx:124-126 | the list becomes `Questions.UpdateQuestion` of the old list; nothing else changes |
| `QuizSession.QuizStudio.UpdateQuestionOption` | components/McqGenerator.tsx:128-144 | the list becomes `Questions.UpdateOption` of the old list and stays well-formed if it was |
| `QuizSession.QuizStudio.SetQuestionCorrectAnswer` | components/McqGenerator.tsx:146-148 | the list becomes `Questions.SetCorrectAnswer` of the old list; nothing else changes |
| `QuizSession.QuizStudio.RemoveQuestion` | components/McqGenerator.tsx:150-152 | the list becomes `Questions.DeleteQuestion` of the old list; nothing else changes |
| `QuizSession.QuizStudio.AppendQuestion` | components/McqGenerator.tsx:154-164 | appends the template under an id greater than every old id and opens the editor |
| `QuizExport.TopicOrDefault` | components/McqGenerator.tsx:180 | an empty topic becomes "Generated Quiz"; any other topic is kept; the result is never empty |
| `QuizExport.EscapeEach` | components/McqGenerator.tsx:180 | one `replace` pass: the length at most doubles, a text without the character is unchanged, and for a character other than the backslash every occurrence in the result has a backslash before it |
| `QuizExport.EscapeEachAfter` | components/McqGenerator.tsx:180 | a replace pass over a character other than the backslash does not see earlier insertions, so successive passes equal one pass |
| `QuizExport.SafeTopic` | components/McqGenerator.tsx:180 | as written: a backslash before every `"` and backtick of the topic (or the default), and nothing else escaped |
| `QuizExport.QuotesThenBackticks` | components/McqGenerator.tsx:180 | the two chained `replace` calls equal a single pass over both characters |
| `QuizExport.TitleReadsBackWithoutBackslash` | components/McqGenerator.tsx:180-185 | as written, a topic with no backslash reads back exactly from the title literal, which closes where the script closes it |
| `QuizExport.TrailingBackslashEscapesClosingQuote` | components/McqGenerator.tsx:180-185 | as written, the topic `\` escapes the script's closing quote, so the title literal never closes |
| `QuizExport.EscapedQuoteEndsTitleEarly` | components/McqGenerator.tsx:180-185 | as written, the topic `\"` closes the title literal after a lone backslash |
| `QuizExport.SafeTopicFixed` | components/McqGenerator.tsx:180 | corrected: backslashes are escaped first, then quotes and backticks; this equals a single pass over all three characters |
| `QuizExport.ThreePasses` | components/McqGenerator.tsx:180 | the three chained passes of the corrected escaping equal one pass |
| `QuizExport.ReadEscaped` | components/McqGenerator.tsx:185 | text whose quotes and backslashes are all escaped reads back exactly as a string-literal body, ending at the added quote |
| `QuizExport.FixedTitleReadsBack` | components/McqGenerator.tsx:185 | corrected: every topic reads back exactly from the title literal |
| `Chat.History` | components/ChatBot.tsx:44-47 | one entry per message, in order, with its role and its text as the single part |
| `Chat.RewriteText` | components/ChatBot.tsx:63-65 | messages with the reply id get the new text; all other messages and the length are unchanged |
| `Chat.WhitespaceAscii` | components/ChatBot.tsx:29 | `Chat.IsWhitespace`, the characters `trim` removes, are among ASCII exactly tab, line feed, vertical tab, form feed, carriage return and space |
| `Chat.TrimStart` | components/ChatBot.tsx:29 | the result is a suffix of the input, starts with a non-whitespace character or is empty, and everything removed is whitespace |
| `Chat.TrimEnd` | components/ChatBot.tsx:29 | the result is a prefix of the input, ends with a non-whitespace character or is empty, and everything removed is whitespace |
| `Chat.BlankIffTrimEmpty` | components/ChatBot.tsx:29 | the submit guard `Chat.IsBlank` (every character is whitespace) holds exactly when trimming leaves the empty string |
| `Chat.TrimIdempotent` | components/ChatBot.tsx:29 | trimming twice is trimming once |
| `Chat.Concat` | components/ChatBot.tsx:60-62 | the text built by `fullText += chunk` is empty exactly when every chunk is empty |
| `Chat.ConcatPrefix` | components/ChatBot.tsx:60-62 | the reply text only grows: the text after some chunks starts with the text after any first part of them |
| `Chat.AfterTurn` | components/ChatBot.tsx:38-76 | the transcript after a turn is two messages longer, three when the stream failed; earlier messages with another id are kept; on failure the last message is the error message |
| `Chat.ConcatAppend` | components/ChatBot.tsx:60-66 | folding chunks by appending is order-preserving and independent of how the text is cut |
| `Chat.ConcatExample` | components/ChatBot.tsx:60-66 | ["He","llo"] and ["Hello"] give the same text "Hello" |
| `Chat.Delivered` | components/ChatBot.tsx:61 | the chunks consumed are all of them when the stream does not fail or fails only after its last chunk, otherwise the ones before the failure point |
| `Chat.TurnShape` | components/ChatBot.tsx:38-76 | with a fresh reply id: earlier messages unchanged, then the user message, then the reply holding the concatenation of the delivered chunks, then one `system` error message exactly when the stream failed |
| `Chat.GranularityIrrelevant` | components/ChatBot.tsx:60-76 | with a fresh reply id, two streams that deliver the same text and fail alike leave the same transcript |
| `Chat.UntouchedIsRewrittenEmpty` | components/ChatBot.tsx:51-56 | before the first chunk the placeholder already holds the empty text |
| `Chat.RewriteTwice` | components/ChatBot.tsx:63-65 | a later rewrite of the reply replaces an earlier one |
| `Chat.StreamedStep` | components/ChatBot.tsx:61-65 | one more chunk extends the reply text by exactly that chunk |
| `ChatSession.ChatBot.constructor` | components/ChatBot.tsx:7-16 | the transcript is the welcome message; the input is empty; nothing is loading |
| `ChatSession.ChatBot.SetInput` | components/ChatBot.tsx:135 | the input box holds the typed text |
| `ChatSession.ChatBot.ClearChat` | components/ChatBot.tsx:90 | the transcript becomes exactly its first message |
| `ChatSession.ChatBot.HandleSubmit` | components/ChatBot.tsx:27-80 | a blank input or a request in flight changes nothing; otherwise the input is cleared, the history sent is the pre-submit transcript, the transcript becomes `Chat.AfterTurn` of the stream, loading stays raised while chunks are consumed (a loop invariant) and is over at the end, on success and on failure alike |

## Findings

| source | as written | input that shows it | evidently intended | confidence | as-written member | corrected member |
|---|---|---|---|---|---|---|
| components/McqGenerator.tsx:180 | `safeTopic` escapes `"` and backticks but not the backslash, then goes between double quotes in `var title = "QuizWizard: ...";` | topic `\`: the title literal never closes; topic `\"`: it closes after a lone backslash and a stray quote follows | the title reads back as exactly the topic, inside its literal | medium; not executed | `QuizExport.TrailingBackslashEscapesClosingQuote` | `QuizExport.FixedTitleReadsBack` |

`QuizExport.SafeTopic` is the escaping as written. `QuizExport.SafeTopicFixed` also escapes backslashes, first. No other part of the model depends on the title.

## Left out

- The generation pipeline in services/geminiService.ts is not part of this model. It sends four prompts to a remote model and parses JSON. `FinishGeneration` takes its outcome as a parameter. `data.questions || []` can be a `Generated([])` outcome.
- The chat stream in services/geminiService.ts (`streamChatMessage`) is not part of this model. Its chunks and failure point are a `Chat.Stream` parameter. It yields only non-empty chunk texts; the model allows any chunk.
- File upload, base64 reading and the MIME allow-list (components/McqGenerator.tsx:27-54) are browser I/O. `StartGeneration` takes only whether a document is loaded.
- The export script text, `JSON.stringify` and the clipboard (components/McqGenerator.tsx:172-230) are left out. Only the topic escaping is modelled.
- Scrolling, `setTimeout` and the `document`/`window` calls have no effect on the modelled state.
- Message timestamps are not modelled. `Date.now()` ids are parameters.
- Async interleaving is not modelled. `HandleSubmit` runs a turn to its end, so a Clear during a stream is not modelled. React's batching of state updates is not modelled either. Generation is split at its one `await` into `StartGeneration` and `FinishGeneration`.
- Which buttons the page shows in which state is not modelled. Each handler can be called in any state.
- `QuizSession.QuizStudio.UpdateQuestionField`: the source's `field` is any key with a string value. The model takes only the three fields the editor form passes, and the difficulty only as one of the select's three values.
- `Questions.UpdateOption`: the index must be below the option count of every question with the id. The editor passes only indices of rendered options. JavaScript would grow the array for an index out of range.
- `Assessment.RoundedPercent`: `Math.round` on a floating-point quotient is replaced by exact rounding with halves up. Floating point first differs at 23 correct of 40: `23 / 40 * 100` evaluates to 57.49999999999999, which `Math.round` takes to 57, while the model gives 58. The list can reach 40 questions because `AddQuestion` grows it past the 20 that generation produces.
- `Chat.IsBlank`, `Chat.IsWhitespace`: a fixed list of the characters that `trim` removes (JavaScript's white space and line terminators), not a Unicode table.
- `QuizExport.ReadBody` decodes only the escapes `\\`, `\"` and `` \` ``. Any other escape is reported as `OtherEscape`. Raw line terminators in the title are not treated; the topic comes from a one-line input.
- Question and answer ids are unbounded integers. The source's ids are JavaScript numbers. `userAnswers` keys, strings in JavaScript, are the integer ids.
