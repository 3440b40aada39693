# Survey bot: catalog, sequencing and session bookkeeping in Dafny

This project models the data rules of a Telegram survey bot and of its
Django back office. The bot's data helpers look up the active survey and
its questions in order, create a session for an anonymous respondent, and
store one response row per call of `create_response`. Staff edit surveys,
questions and answer options from an admin editor.

The model covers four parts of the system:

- **Records** (`Models`): the respondent, survey, question, answer option,
  session and response rows; the session statuses and their stored codes;
  Python truthiness of nullable columns; the `__str__` forms; the respondent's
  occupation display.
- **Bot data helpers** (`Handlers`, `Sequencing`): the anonymous id (salt,
  colon, decimal Telegram id, then SHA-256); the selections of the active
  survey, the first question, the next question and an option by its text;
  the session and respondent writes; the session counts. `Sequencing` defines
  the traversal obtained by calling `get_first_question`, then
  `get_next_question` with the current question's order, until it returns
  none. It proves that orders strictly increase, that the walk ends
  within as many steps as the survey has questions, and that every order used
  is reached.
- **Editor endpoints** (`Views`): partial updates; creation at the largest
  order plus one; deletion with the database's cascades and `SET_NULL` links.
- **Admin columns** (`Admin`): the short anonymous id, the session's
  respondent and the answer preview.

The database is a `Store.Database` object. It holds one sequence of rows per
table, in primary-key order, and one counter for fresh ids. Its invariant
`Valid` says that keys strictly increase and stay below the counter, that
anonymous ids are unique, and that every foreign key names an existing row.
Every write method keeps `Valid` and states the whole new content of the
tables it modifies. Generic selections, maxima and filters over such tables
live in `Tables`. Decimal formatting and parsing and Python's `s[:n]` live in
`Text`.

The model follows the code in three places where a reader might expect
otherwise:

- Question orders are not unique. `update_question` stores the order it is
  sent verbatim, and the `order` column defaults to 0. Of two questions of a
  survey that share an order, the traversal visits at most one
  (`Sequencing.SharedOrderAskedOnce`).
- `get_active_survey` has no tie-break of its own. It takes the first active
  survey in the model's default ordering, newest first.
- `create_survey_session` writes `in_progress` directly, so none of the
  bot's data helpers stores a session as `started`.

## Model

| member | source | states |
|---|---|---|
| Models.ChoiceLabel | survey/models.py:13-16 | the label declared for that stored value (the later one when a value is declared twice, as a dictionary lookup gives), or the value itself when no choice declares it |
| Models.StudentDisplay | survey/models.py:44-45 | a student with a non-zero course shows "Студент N курса", and N reads back from the text |
| Models.StudentWithoutCourseDisplay | survey/models.py:44-48 | a student with a null or 0 course falls through to the label "Учится в вузе" |
| Models.WorkingDisplay | survey/models.py:46-47 | a working respondent with any recorded experience, 0 included, shows "Работает (стаж N лет)", and N reads back |
| Models.WorkingWithoutExperienceDisplay | survey/models.py:46-48 | a working respondent with no recorded experience shows the label "Работает по специальности" |
| Models.OtherOccupationDisplay | survey/models.py:48 | a null or blank occupation shows "Не указано"; any other undeclared value is shown verbatim |
| Models.OccupationDisplayFull | survey/models.py:42-48 | never blank; its five cases are fixed by StudentDisplay, StudentWithoutCourseDisplay, WorkingDisplay, WorkingWithoutExperienceDisplay and OtherOccupationDisplay |
| Models.RespondentStr | survey/models.py:39-40 | the form is "Респондент ", at most 8 characters of the anonymous id, then "..." |
| Models.RespondentStrShowsOnlyPrefix | survey/models.py:39-40 | two respondents print alike if and only if the first 8 characters of their anonymous ids agree |
| Models.QuestionStr | survey/models.py:87-88 | the title of the question's own survey, " - ", then at most 50 characters of the question text |
| Models.OptionStr | survey/models.py:102-103 | at most 30 characters of the text of the option's own question, " - ", then the whole option text |
| Models.StatusCode | survey/models.py:109-114 | every status is stored as one of the four declared codes |
| Models.StatusOfCode | survey/models.py:109-114 | a stored code names a status if and only if it is one of the four declared codes |
| Models.StatusCodeRoundTrip | survey/models.py:109-118 | reading back a status's stored code gives the same status |
| Models.NewSessionDefaults | survey/models.py:118-122 | a session created without a status is `started`, at no question and not completed |
| Models.SessionStr | survey/models.py:129-130 | the form of the session's respondent, " - ", the title of the session's survey, then " (", the stored status code and ")" |
| Models.ResponseStr | survey/models.py:155-156 | the form of the respondent of the response's session, " - ", then exactly the first 30 characters (or fewer) of the answered question's text |
| Store.RespondentIndex | bot/handlers.py:50 | finds the respondent row with that anonymous id, none if and only if no row has it |
| Store.SurveyIndex | survey/views.py:70 | finds the survey row with that id, none if and only if the id is absent |
| Store.QuestionIndex | survey/views.py:113 | finds the question row with that id, none if and only if the id is absent |
| Store.OptionIndex | survey/views.py:163 | finds the option row with that id, none if and only if the id is absent |
| Store.SessionIndex | bot/handlers.py:100 | finds the session row with that id, none if and only if the id is absent |
| Handlers.HashInput | bot/handlers.py:31 | the salt, ":", then the decimal Telegram id |
| Handlers.HashInputRoundTrip | bot/handlers.py:31 | the Telegram id is recovered from the hash input by parsing what follows the salt and colon |
| Handlers.HashInputInjective | bot/handlers.py:31 | equal hash inputs come from the same salt and the same Telegram id |
| Handlers.GenerateAnonymousId | bot/handlers.py:26-36 | fails if and only if the salt is unset or empty; otherwise it is the 64-character hex digest of salt, ":" and the decimal id |
| Handlers.AnonymousIdsSeparate | bot/handlers.py:26-34 | for one salt, equal ids give equal anonymous ids and distinct ids give distinct hash inputs |
| Handlers.GetActiveSurvey | bot/handlers.py:63-65 | an active survey created no earlier than any other active survey; none if and only if no survey is active |
| Handlers.GetFirstQuestion | bot/handlers.py:78-80 | a question of the survey with the least order; none if and only if the survey has no question |
| Handlers.GetNextQuestion | bot/handlers.py:125-127 | a question of the survey ordered above the current order with none strictly between; none if and only if no question is ordered above |
| Handlers.FindOptionByText | bot/handlers.py:109-111 | an option of the question with exactly that text, lowest-ordered among such; none if and only if no option has that text |
| Handlers.GetRespondent | bot/handlers.py:58-60 | the respondent with that anonymous id; none if and only if there is none |
| Handlers.GetSession | bot/handlers.py:98-100 | the session with that id; none if and only if there is none |
| Handlers.SessionsIn | bot/handlers.py:140 | exactly the sessions of that user in that status, as many as there are such rows |
| Handlers.CountCompletedSessions | bot/handlers.py:138-140 | the number of the user's sessions whose status is completed; zero if and only if there is none |
| Handlers.CountInProgressSessions | bot/handlers.py:144-146 | the number of the user's sessions whose status is in progress; zero if and only if there is none |
| Handlers.CompletingMovesCount | bot/handlers.py:130-146 | completing an in-progress session adds one to the user's completed count and takes one from the in-progress count |
| Handlers.AbandoningMovesCount | bot/handlers.py:91-146 | abandoning an in-progress session takes one from the in-progress count and leaves the completed count alone |
| Handlers.Apply | bot/handlers.py:51-52 | setting one profile column gives it the value and leaves every other column and the identity as they were |
| Handlers.ApplyAllFrame | bot/handlers.py:51-53 | after a batch of settings each named column holds its last value and every other column is unchanged |
| Handlers.GetOrCreateRespondent | bot/handlers.py:39-44 | returns the existing row for the anonymous id, or appends a fresh one with default columns; reports which |
| Handlers.UpdateRespondent | bot/handlers.py:48-54 | replaces only that respondent's row, by the settings applied in order; nothing changes when there is no such respondent |
| Handlers.CreateSurveySession | bot/handlers.py:69-75 | appends one session, in progress, at no question and not completed |
| Handlers.UpdateSessionQuestion | bot/handlers.py:84-87 | only that session's current question changes |
| Handlers.AbandonSession | bot/handlers.py:91-94 | only that session's status changes, to abandoned |
| Handlers.CompleteSession | bot/handlers.py:130-134 | only that session's status and completion time change, to completed and the given time |
| Handlers.CreateResponse | bot/handlers.py:115-121 | appends one response carrying the given session, question and payload |
| Sequencing.Traversal | bot/handlers.py:78-80 | empty if and only if `get_first_question` finds none; every question visited belongs to the survey |
| Sequencing.Walk | bot/handlers.py:125-127 | the questions asked after a given order all belong to the survey, strictly increase in order, and number at most the questions above that order |
| Sequencing.WalkComplete | bot/handlers.py:125-127 | every order the survey uses above the starting order is asked |
| Sequencing.TraversalOfFirst | bot/handlers.py:78-80 | a survey with a first question has a non-empty traversal of its own questions in increasing order |
| Sequencing.TraversalSound | bot/handlers.py:78-127 | the full traversal asks only the survey's questions, in strictly increasing order, at most one per question, and is empty if and only if the survey has no question |
| Sequencing.TraversalComplete | bot/handlers.py:78-127 | every order used by the survey is asked in the traversal |
| Sequencing.SharedOrderAskedOnce | survey/models.py:79 | of two distinct questions that share an order, at most one is asked |
| Sequencing.TraversalEndsAtMaxOrder | bot/handlers.py:125-127 | the last question asked has the largest order of the survey |
| Views.PatchSurvey | survey/views.py:73-78 | each of title, description and active flag present in the request replaces its column; the others keep theirs |
| Views.UpdateSurvey | survey/views.py:68-81 | only that survey's row changes, by the patch; nothing changes when the survey is missing |
| Views.PatchQuestion | survey/views.py:116-123 | each present key replaces its column, the order verbatim; the survey and id never change |
| Views.QuestionPatchesCompose | survey/views.py:116-125 | two updates in a row act as one with the later keys winning; repeating an update changes nothing more |
| Views.UpdateQuestion | survey/views.py:111-126 | only that question's row changes, by the patch; nothing changes when the question is missing |
| Views.PatchOption | survey/views.py:166-169 | the text and order present in the request replace theirs; the question and id never change |
| Views.UpdateOption | survey/views.py:161-172 | only that option's row changes, by the patch; nothing changes when the option is missing |
| Views.MaxQuestionOrder | survey/views.py:92 | bounds every order of the survey's questions, and is 0 or attained by one of them |
| Views.NewQuestion | survey/views.py:92-100 | the row `create_question` makes: the given id and survey, text 'New question', type text and required unless the request says otherwise, at the largest order of the survey plus one (1 when the survey has none or only order 0) |
| Views.NewQuestionAskedLast | survey/views.py:92-98 | a new question is ordered above every question of its survey, is the last one of the traversal, and gets order 1 in a survey with no positive order |
| Views.CreateQuestion | survey/views.py:86-106 | appends the new question with defaults 'New question', text type and required; nothing changes when the survey is missing |
| Views.MaxOptionOrder | survey/views.py:145 | bounds every order of the question's options, and is 0 or attained by one of them |
| Views.NewOption | survey/views.py:145-151 | the row `create_option` makes: the given id and question, text 'New option' unless the request gives one, at the largest order of the question's options plus one (1 when it has none or only order 0) |
| Views.NewOptionListedLast | survey/views.py:145-151 | a new option is ordered above every option of its question, and gets order 1 when none has a positive order |
| Views.CreateOption | survey/views.py:140-156 | appends the new option with default text 'New option'; nothing changes when the question is missing |
| Views.QuestionsWithout | survey/views.py:134 | exactly the questions with another id remain |
| Views.OptionsNotOf | survey/models.py:93 | exactly the options of other questions remain |
| Views.ResponsesNotTo | survey/models.py:140 | exactly the responses to other questions remain |
| Views.ClearSelected | survey/models.py:142 | a response whose selected option is deleted loses the selection; every other response is untouched |
| Views.ClearCurrentQuestion | survey/models.py:119 | a session standing at the deleted question loses its current question; every other session is untouched |
| Views.OptionsWithout | survey/views.py:180 | exactly the options with another id remain |
| Views.DeleteQuestion | survey/views.py:131-135 | the question, its options and the responses to it go; selections of its options and sessions at it are cleared; no row refers to it afterwards |
| Views.QuestionsWithoutKeys | survey/views.py:134 | deleting a question removes exactly its id from the question keys |
| Views.OptionsNotOfKeys | survey/models.py:93 | the options cascade keeps every option of another question |
| Views.ClearedKeys | survey/models.py:119 | clearing a nullable link keeps every row and its key |
| Views.SessionsStayLinked | survey/models.py:119-120 | sessions still link to existing rows after the question they stand at is deleted |
| Views.ResponsesStayLinked | survey/models.py:139-143 | the responses that survive a question's deletion still link to existing rows |
| Views.DeleteQuestionKeepsKeys | survey/views.py:131-135 | the delete cascade keeps every table keyed, removes exactly the question's id, keeps the options of other questions and every session |
| Views.DeleteQuestionKeepsValid | survey/views.py:131-135 | after the delete cascade every key is unique and every link names an existing row |
| Views.DeleteOption | survey/views.py:177-181 | the option goes and responses that selected it lose the selection; nothing else changes |
| Views.OptionsWithoutKeys | survey/views.py:180 | deleting an option removes exactly its id from the option keys |
| Views.DeleteOptionKeepsValid | survey/views.py:177-181 | after an option is deleted every key is unique and every link names an existing row |
| Admin.AnonymousIdShort | survey/admin.py:40-42 | at most 8 characters taken from the start of the anonymous id, then "..." |
| Admin.ShortIdOfLongId | survey/admin.py:40-42 | an id of at least 8 characters shows exactly its first 8, and two such ids look alike if and only if those 8 agree |
| Admin.UserShort | survey/admin.py:92-94 | the session's respondent starts with "Респондент " |
| Admin.UserShortIsRespondentStr | survey/admin.py:92-94 | the admin column is the respondent's own string form, "Респондент " and the short id |
| Admin.SessionInfo | survey/admin.py:108-110 | the respondent's short form, " - ", then the survey title |
| Admin.AnswerPreview | survey/admin.py:118-125 | non-empty text shows its first 50 characters; else the selected option's text; else "Голосовой файл: " and the file name; else "-" |
| Admin.AnswerPreviewPriority | survey/admin.py:119-122 | a non-empty text hides any option and voice file; an option hides any voice file |
| Admin.ShortTextShownWhole | survey/admin.py:119-120 | a non-empty text of at most 50 characters is shown whole |

## Left out

- Django ORM persistence, `sync_to_async` and asynchronous execution: tables are sequences of rows in one object, and every helper runs atomically.
- `datetime.now()` and `auto_now_add`: the time is a parameter `now`.
- UTF-8 encoding and SHA-256 itself: `Handlers.GenerateAnonymousId` takes the hex digest as a function parameter `sha256Hex`, known only to return 64 lower-case hex characters.
- The salt comes from Django settings; it is a parameter.
- `get_question_options` (bot/handlers.py:103-105), a listing of a question's options sorted by order, is not modelled.
- `Handlers.GetActiveSurvey`, `Handlers.GetFirstQuestion`, `Handlers.GetNextQuestion`, `Handlers.FindOptionByText`: the database leaves ties in the sort key unordered. The model takes the earliest row, and the contracts leave the choice among tied rows open.
- `Handlers.UpdateRespondent`: only the six profile columns can be set; `setattr` of any other attribute name is not modelled.
- `Handlers.UpdateSessionQuestion`, `Handlers.AbandonSession`, `Handlers.CompleteSession`, `Handlers.CreateSurveySession`, `Handlers.CreateResponse`: the source receives fetched objects, the model the ids of existing rows; a stale in-memory object saved over newer data is not modelled.
- `Views.UpdateQuestion`, `Views.CreateQuestion`: the question type is one of the three declared choices; the JSON body could carry any string, which is not modelled.
- JSON parsing of request bodies, staff authentication, HTTP responses and template rendering of `survey/views.py`, and the `survey_list` and `survey_editor` statistics.
- Deleting a survey, a respondent or a session (their cascades) is not reachable from the modelled code and is not modelled.
- Column bounds: the model's integers and strings are unbounded. `PositiveIntegerField` stops at 2147483647, so `max_order + 1` in `create_question` and `create_option` fails at that order, and `CharField` rejects text longer than its `max_length`; neither limit is modelled.
- The whole database uses one id counter instead of one sequence per table.
- The conversation state machine, keyboards, bot states and bot start-up: they are not part of this model.
- The declarative admin configuration and the voice file upload path.
- `Survey.__str__` returns the title unchanged and has no member of its own.
