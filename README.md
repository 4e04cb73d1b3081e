# NoteTidy core, modelled in Dafny

NoteTidy is a note-taking web application. Photographed pages are turned
into text, saved as notes and studied with quizzes, flashcards and practice
tests. This project models the parts of it that hold the logic:

- **Client state container** (`app_context.dfy`, module `AppContext`). The
  initial application state, and the reducer over its eleven action kinds
  plus the default case. It is pure: every transition is a function from
  the old state to the new one.
- **Server store** (`mem_storage.dfy`, module `Storage`). `MemStorage` is a
  class whose three maps and three id counters change in place. Notes are
  listed newest first and chat messages oldest first, with searching and
  filtering by style. A ghost record of every id the note and chat counters
  have issued, and the bound of the user counter, show that ids are never
  reused, not even after the chat history is cleared.
- **Note routes and upload filter** (`routes.dfy`, module `Routes`).
  - The upload filter: the allowed-type pattern tested against the
    lowercased extension and against the MIME type as sent.
  - Which store call each `/api/notes` request makes, and which status it
    answers with.
- **Quiz game** (`quiz_tab.dfy`, module `QuizTab`). A class holding score,
  streak, lives, power-ups, the question index and the game state, with one
  method per handler.
- **Study tools** (`study_tools_tab.dfy`, module `StudyToolsTab`).
  - The practice-test scoring loop, proved equal to a recursive score.
  - The flashcard and question navigation.
  - Recording answers.
  - Selecting the notes a test is generated from.
- **Upload tab** (`upload_tab.dfy`, module `UploadTab`).
  - The image check before extraction.
  - The save request: refused for blank text, with the title taken from the
    first line.
  - The state after a successful save.
- **Note card** (`note_card.dfy`, module `NoteCard`).
  - The word count, modelled as `split(/\s+/)` on the trimmed text and
    proved equal to an independent count of non-whitespace runs.
  - The minute/hour/day bucketing of the creation time.
  - The state change after a delete.
- **Local-storage helpers** (`local_storage.dfy`, module `LocalStorage`).
  - The reset that keeps only the theme and settings keys.
  - The usage sum.

Supporting modules: `Wrappers` holds `Option`. `Schema` holds the note,
chat message and user records. `JsString` models the JavaScript string
built-ins the code uses: `trim`, `\s`, `toLowerCase`, `includes`, and
decimal rendering of integers.

Modelling conventions:

- Time is an integer number of milliseconds, passed in as `now`.
- Ids are integers.
- A schema parse is an `Option`: `None` stands for a validation error.
- `parseInt` of a path segment is an `Option<int>`: `None` stands for `NaN`.
- The order in which a JavaScript `Map` yields its values is insertion
  order. In this store that is ascending id. Listings are therefore
  specified as strictly sorted by (newest first, then ascending id) for
  notes, and (oldest first, then ascending id) for chat messages. This is
  the order a stable sort produces, and `Storage.SortedByUnique` shows that
  such a listing is determined by its elements.

## Model

| member | source | states |
|---|---|---|
| AppContext.InitialState | client/src/contexts/AppContext.tsx:31-41 | Tab "uploadTab", no notes or messages, style freeform with autosave on, empty search, filter "all". |
| AppContext.RemoveId | client/src/contexts/AppContext.tsx:60-64 | The filtered list holds exactly the entries whose id differs, is no longer, and carries no entry with the id. |
| AppContext.Reduce | client/src/contexts/AppContext.tsx:43-80 | The reducer: one case per action kind plus the default. Its properties are the lemmas below. |
| AppContext.ReduceFrame | client/src/contexts/AppContext.tsx:43-80 | Every action changes only its own field group: tab, notes, chat, settings, search query or filter. |
| AppContext.SetTabReplacesTab | client/src/contexts/AppContext.tsx:45-46 | SET_TAB stores any tab string and changes nothing else. |
| AppContext.RemoveAbsentId | client/src/contexts/AppContext.tsx:60-64 | Deleting an id no entry carries leaves the list as it is. |
| AppContext.RemoveIdAppend | client/src/contexts/AppContext.tsx:60-64 | The delete filter distributes over concatenation, so the relative order is kept. |
| AppContext.AddNotePrepends | client/src/contexts/AppContext.tsx:49-50 | ADD_NOTE puts the note first and keeps the rest of the state. |
| AppContext.AddThenDeleteRestores | client/src/contexts/AppContext.tsx:49-64 | Adding a note with a new id and then deleting that id restores the state. |
| AppContext.UpdateNoteEntries | client/src/contexts/AppContext.tsx:51-59 | UPDATE_NOTE keeps length and order. It merges the patch into the entries with the id, where present patch fields win, and leaves the other entries unchanged. |
| AppContext.UpdateAbsentIsNoOp | client/src/contexts/AppContext.tsx:51-59 | UPDATE_NOTE for an absent id leaves the state unchanged. |
| AppContext.DeleteNoteRemoves | client/src/contexts/AppContext.tsx:60-64 | DELETE_NOTE removes exactly the entries with the id and keeps the order of the rest. A second delete is a no-op. |
| AppContext.ChatActions | client/src/contexts/AppContext.tsx:65-70 | ADD_CHAT_MESSAGE appends at the end; CLEAR_CHAT empties the chat and touches nothing else. |
| AppContext.UpdateSettingsMerges | client/src/contexts/AppContext.tsx:71-72 | UPDATE_SETTINGS overwrites the fields it carries and keeps the others; `{autoSave: false}` keeps the style. |
| AppContext.UnrecognizedIsNoOp | client/src/contexts/AppContext.tsx:77-78 | An unrecognised action type returns the state unchanged. |
| Storage.InsertSorted | server/storage.ts:60-64 | Inserting into a sorted listing keeps it sorted, adds exactly the new element and grows it by one. |
| Storage.SortedByUnique | server/storage.ts:60-64 | Two strictly sorted listings with the same elements are equal, so each listing is determined by its contents. |
| Storage.StyleOrDefault | server/storage.ts:77 | `style \|\| "freeform"`: the given style when it is present and non-empty, "freeform" otherwise. |
| Storage.OrNull | server/storage.ts:78-79 | `value \|\| null`: null exactly when the value is absent, null or empty. |
| Storage.ApplyUpdate | server/storage.ts:87-98 | The spread `{...existing, ...data, updatedAt}`: each supplied field replaces the stored one, and `updatedAt` is `now`. |
| Storage.MatchesQuery | server/storage.ts:104-113 | The search filter: the lowercased query occurs in the lowercased title or content, or in a non-empty extracted text. |
| Storage.MemStorage.constructor | server/storage.ts:32-39 | Empty maps and all three counters at 1. |
| Storage.MemStorage.GetUser | server/storage.ts:42-44 | Returns the user stored under the id, or nothing exactly when the id is absent. |
| Storage.MemStorage.GetUserByUsername | server/storage.ts:46-50 | Returns nothing iff no user has the name; otherwise the stored user with that name and the lowest id. |
| Storage.MemStorage.CreateUser | server/storage.ts:52-57 | The user gets the current counter as a fresh id and the counter moves on; nothing else changes. |
| Storage.MemStorage.CollectNotes | server/storage.ts:104-121 | Filtering the stored notes yields exactly the notes kept, sorted newest first. |
| Storage.MemStorage.GetAllNotes | server/storage.ts:60-64 | Every stored note exactly once, newest first. |
| Storage.MemStorage.GetNote | server/storage.ts:66-68 | The note stored under the id, or nothing exactly when the id is absent. |
| Storage.MemStorage.CreateNote | server/storage.ts:70-85 | Fresh id, greater than every id issued before. Style defaults to "freeform"; image and extracted text are null when absent or empty. Both timestamps are `now`; only that entry and the counter change. |
| Storage.MemStorage.UpdateNote | server/storage.ts:87-98 | Absent id: undefined and no change. Present id: the supplied fields are merged, `updatedAt` becomes `now`, and the id and `createdAt` are kept. |
| Storage.MemStorage.DeleteNote | server/storage.ts:100-102 | True exactly when the id was stored; only that entry leaves. |
| Storage.MemStorage.SearchNotes | server/storage.ts:104-113 | Exactly the notes whose lowercased title, content or non-empty extracted text contains the lowercased query, newest first. |
| Storage.MemStorage.GetNotesByStyle | server/storage.ts:115-121 | Exactly the notes of the style, newest first. |
| Storage.MemStorage.GetAllChatMessages | server/storage.ts:124-128 | Every stored message exactly once, oldest first. |
| Storage.MemStorage.CreateChatMessage | server/storage.ts:130-139 | A fresh id from the chat counter, stamped `now`; only that entry and the counter change. |
| Storage.MemStorage.ClearChatHistory | server/storage.ts:141-143 | Empties the messages and keeps the counter and the issued ids, so later ids stay unique. |
| Routes.Extname | server/routes.ts:23 | Node's `path.extname`: empty, or a '.' followed by no further '.' or '/', taken from the end of the path without its trailing slashes. |
| Routes.ExtnameNonEmptyIff | server/routes.ts:23 | The extension is non-empty exactly when the last segment has a '.' after its first character and is not "..", so a dot-file such as ".png" has none and "scan.2024.png" has ".png". |
| Routes.ExtnameOfFileName | server/routes.ts:23 | For "stem.ext" with a non-empty stem, dots allowed ("scan.2024.png"), the extension is ".ext"; ".." alone has none. |
| Routes.FileFilter | server/routes.ts:21-31 | Accepts iff the lowercased extension and the MIME type as sent both mention an allowed type. Its properties are the FileFilter lemmas. |
| Routes.MentionShape | server/routes.ts:22 | Any string the allowed-type pattern matches has at least three characters and contains 'j' or 'p'. |
| Routes.FileFilterNeedsExtension | server/routes.ts:21-31 | A name with no '.' is refused, whatever its MIME type. |
| Routes.FileFilterExtensionIgnoresCase | server/routes.ts:23 | The extension is lowercased first: for "stem.ext", lowercasing `ext` never changes the verdict. |
| Routes.FileFilterMimeTypeKeepsCase | server/routes.ts:24-26 | The MIME type is not lowercased: "image/PNG" is refused for every name. |
| Routes.FileFilterSidesIndependent | server/routes.ts:21-31 | "stem.ext" passes exactly when ".ext" lowercased and the MIME type each mention an allowed type; neither side is checked against the other. |
| Routes.PdfMimeAllowed | server/routes.ts:22-24 | Example: "application/pdf" mentions an allowed type. |
| Routes.ChooseListing | server/routes.ts:39-48 | A non-empty string `search` wins. Otherwise a non-empty string `style` other than "all" filters by style. Otherwise all notes. |
| Routes.ListNotesRoute | server/routes.ts:37-50 | 200 with exactly the notes the chosen store query selects, newest first. |
| Routes.GetNoteRoute | server/routes.ts:56-65 | 404 iff the id is not a number or not stored; otherwise 200 with the stored note. |
| Routes.PostNoteRoute | server/routes.ts:71-79 | Invalid data: 400 and the store unchanged. Valid data: 201 with the note built from the data (next id, default style, null image and text when empty, both times `now`), stored under its id, and the note counter steps by one. Users, chat and their counters never change. |
| Routes.PutNoteRoute | server/routes.ts:84-98 | Invalid data: 400 and the store unchanged, since parsing comes first. Unknown id: 404 and unchanged. Otherwise 200 with the updated note. Users, chat and all counters never change. |
| Routes.DeleteNoteRoute | server/routes.ts:103-112 | 404 iff nothing was deleted; otherwise 200 and exactly that entry is gone. Users, chat and all counters never change. |
| QuizTab.RoundThreeHalves | client/src/components/tabs/QuizTab.tsx:114-116 | `Math.round(1.5 * p)`: the nearest integer to 3p/2, with halves rounded up. |
| QuizTab.AnswerPoints | client/src/components/tabs/QuizTab.tsx:108-116 | The points a correct answer adds; AnswerPointsBounds states its bounds. |
| QuizTab.AnswerPointsBounds | client/src/components/tabs/QuizTab.tsx:108-116 | With non-negative points, a correct answer earns between the points and three times them. Without a streak bonus it earns the points, doubled if a double-points power-up is spent. |
| QuizTab.QuizSession.constructor | client/src/components/tabs/QuizTab.tsx:34-45 | The initial state of the tab. |
| QuizTab.QuizSession.OnQuizLoaded | client/src/components/tabs/QuizTab.tsx:61-70 | Question 0, score and streak 0, one of each power-up, game on. Three lives in "survival" and one otherwise; 15 seconds in "speedrun" and 30 otherwise. |
| QuizTab.QuizSession.HandleAnswer | client/src/components/tabs/QuizTab.tsx:99-127 | A second answer changes nothing. A correct answer adds the rounded points, spends a double-points power-up if any, and extends the streak. A wrong answer resets the streak and in survival spends a shield, else a life. Power-ups stay non-negative and the score never falls for non-negative points. |
| QuizTab.QuizSession.NextQuestion | client/src/components/tabs/QuizTab.tsx:134-145 | Clears the answer and explanation. Finishes after the last question, or in survival with no lives left now; otherwise advances one question with a full timer. |
| QuizTab.QuizSession.AdvanceJudgedOn | client/src/components/tabs/QuizTab.tsx:129-145 | `nextQuestion` run from a closure: the same transition, with the game-over test on the lives the closure saw. |
| QuizTab.QuizSession.AnswerAsScheduled | client/src/components/tabs/QuizTab.tsx:99-145 | An answer and the `nextQuestion` its timeout runs, as written: game over is judged on the lives before the answer, so in survival losing the last life with questions left moves on to the next question with 0 lives. |
| QuizTab.QuizSession.AnswerThenNext | client/src/components/tabs/QuizTab.tsx:99-145 | An answer followed by a `nextQuestion` that reads the lives after it: in survival the game ends as soon as no life is left. |
| QuizTab.QuizSession.RestartQuiz | client/src/components/tabs/QuizTab.tsx:147-151 | Back to the menu with no quiz and no note selected. |
| StudyToolsTab.TestScore | client/src/components/tabs/StudyToolsTab.tsx:189-194 | The points of every question whose recorded answer equals the correct one; the lemmas below state its properties. |
| StudyToolsTab.TestScoreAppend | client/src/components/tabs/StudyToolsTab.tsx:189-194 | The score of a concatenation of question lists is the sum of their scores. |
| StudyToolsTab.UnansweredScoresZero | client/src/components/tabs/StudyToolsTab.tsx:189-194 | Unanswered questions earn nothing. |
| StudyToolsTab.TestScoreBounds | client/src/components/tabs/StudyToolsTab.tsx:189-194 | With non-negative points the score lies between 0 and the total, and it is the total when every answer is exactly correct. |
| StudyToolsTab.ForeignAnswerKeepsScore | client/src/components/tabs/StudyToolsTab.tsx:182-194 | An answer recorded under an id no question carries does not change the score. |
| StudyToolsTab.ScorePracticeTest | client/src/components/tabs/StudyToolsTab.tsx:189-194 | The accumulating loop computes the recursive score. |
| StudyToolsTab.RemoveAll | client/src/components/tabs/StudyToolsTab.tsx:282 | Unchecking leaves no occurrence of the id. |
| StudyToolsTab.RemoveAllKeepsOthers | client/src/components/tabs/StudyToolsTab.tsx:282 | Unchecking keeps every other id with its multiplicity and shortens the selection by exactly the copies of the id. |
| StudyToolsTab.ToggleSelection | client/src/components/tabs/StudyToolsTab.tsx:278-284 | Checking appends the id after the unchanged selection; unchecking removes every occurrence. |
| StudyToolsTab.CheckThenUncheckRestores | client/src/components/tabs/StudyToolsTab.tsx:278-284 | Checking an unselected note and unchecking it restores the selection. |
| StudyToolsTab.StudyTools.constructor | client/src/components/tabs/StudyToolsTab.tsx:76-84 | The initial state of the tab. |
| StudyToolsTab.StudyTools.OnFlashcardsLoaded | client/src/components/tabs/StudyToolsTab.tsx:96-101 | The cards, or none when the response has no list; first card, front side, flashcard view. |
| StudyToolsTab.StudyTools.OnPracticeTestLoaded | client/src/components/tabs/StudyToolsTab.tsx:122-127 | The test, first question, no answers, test view. |
| StudyToolsTab.StudyTools.HandleFlashcardNext | client/src/components/tabs/StudyToolsTab.tsx:169-180 | Before the last card: the next card, front side. On the last card: back to the menu with the index kept. The index stays in range. |
| StudyToolsTab.StudyTools.HandleTestAnswer | client/src/components/tabs/StudyToolsTab.tsx:182-184 | Sets the given question's answer and leaves every other answer unchanged. |
| StudyToolsTab.StudyTools.SubmitPracticeTest | client/src/components/tabs/StudyToolsTab.tsx:186-204 | With no test, nothing happens. Otherwise the score is the test score of the recorded answers, and the view returns to the menu. |
| StudyToolsTab.StudyTools.PreviousQuestion | client/src/components/tabs/StudyToolsTab.tsx:475-481 | Moves back one question (not offered on the first); the index stays in range. |
| StudyToolsTab.StudyTools.NextTestQuestion | client/src/components/tabs/StudyToolsTab.tsx:483-492 | Moves on one question (offered only before the last); the index stays in range. |
| StudyToolsTab.StudyTools.OnNoteChecked | client/src/components/tabs/StudyToolsTab.tsx:278-284 | The selection becomes its toggle. |
| UploadTab.IsImageType | client/src/components/tabs/UploadTab.tsx:76 | `startsWith("image/")`. |
| UploadTab.DeriveTitle | client/src/components/tabs/UploadTab.tsx:108 | The first line cut to 50 characters, or "Untitled Note" when that is empty; DeriveTitleCases and BlankFirstLineKept state its properties. |
| UploadTab.FirstLine | client/src/components/tabs/UploadTab.tsx:108 | The longest prefix of the text without a line feed. |
| UploadTab.DeriveTitleCases | client/src/components/tabs/UploadTab.tsx:108 | "Untitled Note" when the first line is empty. Otherwise 1 to 50 characters from the start of the first line: the whole line when it is shorter than 50. |
| UploadTab.BlankFirstLineKept | client/src/components/tabs/UploadTab.tsx:108 | A non-empty first line of only whitespace is not replaced by "Untitled Note": the title is that whitespace, cut to 50 characters. |
| UploadTab.SaveRequestFor | client/src/components/tabs/UploadTab.tsx:98-115 | No request iff the text is empty or all whitespace. Otherwise the derived title, the full text as content and as extracted text, and the default style from the settings. |
| UploadTab.SavedTitleShape | client/src/components/tabs/UploadTab.tsx:99-115 | Saved text always yields the placeholder or a title of 1 to 50 characters. |
| UploadTab.Upload.HandleFile | client/src/components/tabs/UploadTab.tsx:75-95 | Extraction starts iff the MIME type starts with "image/". A successful extraction shows its text; otherwise the state is unchanged. |
| UploadTab.Upload.OnSaveSuccess | client/src/components/tabs/UploadTab.tsx:28-36 | ADD_NOTE with the saved note puts it first; the text is cleared and the preview hidden. |
| NoteCard.SplitWhitespace | client/src/components/NoteCard.tsx:50 | `split(/\s+/)` yields at least one piece, and no piece contains whitespace. |
| NoteCard.WordCount | client/src/components/NoteCard.tsx:49-51 | The word count is at least 1. |
| NoteCard.BlankIsOneWord | client/src/components/NoteCard.tsx:49-51 | Empty or whitespace-only content counts as one word. |
| NoteCard.SplitCountsRuns | client/src/components/NoteCard.tsx:50 | A string that starts and ends with non-whitespace splits into one piece per maximal non-whitespace run. |
| NoteCard.WordCountIsRuns | client/src/components/NoteCard.tsx:49-51 | Content with a visible character counts exactly its maximal non-whitespace runs. |
| NoteCard.AgeOf | client/src/components/NoteCard.tsx:53-63 | Minutes below 60 whole minutes, hours below 1440, days beyond. Hours lie in [1, 23] and days are at least 1, each the floor of the elapsed time in its unit. |
| NoteCard.TimeAgoLabel | client/src/components/NoteCard.tsx:53-63 | From the whole minutes elapsed m: m then " minutes ago" below 60, m / 60 then " hours ago" below 1440, m / 1440 then " days ago" otherwise, each count in decimal. |
| NoteCard.OnDeleteSuccess | client/src/components/NoteCard.tsx:36-38 | DELETE_NOTE for the card's own id; DeleteSuccessRemovesCard states its effect. |
| JsString.NatToString | client/src/components/NoteCard.tsx:53-63 | Decimal rendering in a template literal: at least one digit, no leading zero unless the number is 0, and the digits denote the number. |
| NoteCard.DeleteSuccessRemovesCard | client/src/components/NoteCard.tsx:36-38 | After the delete succeeds, no note with the card's id remains, every other note stays, and nothing else changes. |
| LocalStorage.Kept | client/src/lib/storage.ts:40-46 | The entries a reset leaves: exactly the present theme and settings keys, with their values. |
| LocalStorage.KeepOnly | client/src/lib/storage.ts:39-48 | The keys a reset leaves; never more than there were. |
| LocalStorage.Used | client/src/lib/storage.ts:12-17 | The sum of key length plus value length over the stored keys. |
| LocalStorage.KeepOnlyMembers | client/src/lib/storage.ts:40-46 | The keys a reset keeps are exactly the listed theme and settings keys. |
| LocalStorage.KeepOnlyIdempotent | client/src/lib/storage.ts:39-48 | A second reset keeps the same keys. |
| LocalStorage.KeptIdempotent | client/src/lib/storage.ts:39-48 | A second reset keeps the same entries. |
| LocalStorage.UsedAfterReset | client/src/lib/storage.ts:12-17 | A reset never increases the characters counted. |
| LocalStorage.LocalStore.RemoveItem | client/src/lib/storage.ts:45 | The key and its value leave the store. |
| LocalStorage.LocalStore.ClearAllData | client/src/lib/storage.ts:39-48 | Afterwards the store holds exactly the theme and settings entries that were present, with their values and in their order. |
| LocalStorage.LocalStore.GetStorageStats | client/src/lib/storage.ts:8-26 | `used` is the sum of key length plus value length over the stored keys and `total` is 10485760; both are 0 when storage cannot be read. |

## Left out

- Timers. The quiz's countdown, the time-up handler (`QuizTab.tsx:74-97`) and the three-second delay itself (`QuizTab.tsx:129-131`) are not modelled. The stale-closure reads of `lives` and `currentQuiz` in the time-up handler are not captured. The stale read of `lives` by the `nextQuestion` an answer schedules is captured by `AnswerAsScheduled` (see Findings): in survival the game ends one question after the last life is lost.
- Floating point. These displays are not modelled: quiz accuracy and progress, the practice-test percentage, storage percentage and `formatBytes`. Question points are modelled as integers, so the only rounding is `RoundThreeHalves`.
- QuizTab.QuizSession.HandleAnswer: question points are integers. Fractional points from a generated quiz would be rounded differently.
- Unicode. `toLowerCase` maps only ASCII letters, which is exact for the allowed-type words and approximate for searching text in other scripts. A Dafny `char` is a Unicode scalar value, while JavaScript strings count UTF-16 code units. A character outside the Basic Multilingual Plane (an emoji, say) therefore counts once in the model and twice in JavaScript. This affects UploadTab.DeriveTitle, whose `slice(0, 50)` keeps up to 50 such characters where JavaScript keeps 25, and LocalStorage.LocalStore.GetStorageStats, whose `.length` sums count such characters once.
- Schema validation. It is abstract: a parse result is an `Option`, and the Zod schemas themselves are not part of this model. `CreateNote` therefore requires a title and content, which the insert schema guarantees its callers.
- Storage.MemStorage.UpdateNote: the update keeps `createdAt` and sets `updatedAt` to the `now` it is given, which nothing ties to the creation time, so `updatedAt` can fall before `createdAt`. No invariant orders the two, because the code does not either.
- Server errors. 500 responses come from store exceptions, which the in-memory store never throws. They are left out, as are the OpenAI handlers, the upload route, and the Express and multer setup.
- OCR, PDF extraction, clipboard copy and drag-and-drop. Extraction appears only as its outcome, the `ocr` parameter of `HandleFile`.
- Client state effects. The settings persistence effects and `exportNotesToJSON` are browser I/O and are not modelled. Neither is the re-fetch of the notes listing (`queryClient.invalidateQueries`) after a delete (`NoteCard.tsx:38`) or a save (`UploadTab.tsx:30`). NoteCard.OnDeleteSuccess and UploadTab.Upload.OnSaveSuccess therefore model only the dispatched action and the local resets, not the server listing that replaces the notes afterwards.
- Routes.Extname: follows Node's `path.extname` for POSIX paths. Windows separators are not modelled.
- Generation requests. The network calls that produce quizzes, flashcards and practice tests are not modelled; their results are method parameters.
- Toast notifications are not modelled.

## Findings

| source | as written | input that shows it | evidently intended | confidence | as-written member | corrected member |
|---|---|---|---|---|---|---|
| client/src/components/tabs/QuizTab.tsx:129-145 | The `setTimeout` in `handleAnswer` runs the `nextQuestion` of the render before the answer, so its `lives <= 0` test reads the lives from before the answer. | Survival mode, 1 life, no shield, a wrong answer on question 0 of 2: the game moves to question 1 with 0 lives. | The game ends once no life is left. | not executed | QuizTab.QuizSession.AnswerAsScheduled | QuizTab.QuizSession.AnswerThenNext |
