# Kaizen JLPT: question ingest, authentication and practice session

A Dafny model of the core of a Next.js study application for Japanese-language exams. The model covers:

- **Bulk question upload**, in three parts:
  - the spreadsheet row parser (`question_parser.dfy`);
  - the zod question schema (`question_schema.dfy`, over the JavaScript values of `json.dfy`);
  - the bulk-save route, which flattens the validated questions into question and answer rows and inserts them in one transaction (`bulk_save.dfy`).
- **The request middleware** (`middleware.dfy`): public paths pass; other paths need an `auth_token` cookie that verifies, and are otherwise redirected to the login page.
- **The authentication routes**:
  - register (`register.dfy`), login (`login.dfy`), forgot password (`forgot_password.dfy`) and reset password (`reset_password.dfy`);
  - Google sign-in's find-or-create (`oauth.dfy`);
  - shared request and response shapes (`auth.dfy`).

  All of them run over the user, account and reset-token tables of `db.dfy`.
- **The practice-session component** (`practice_session.dfy`): the current index, the selected answer, the feedback, the explanation and the loading flag, as `handleSubmit` and `handleNext` update them.

**How the database is modelled.** The tables are maps keyed by primary key, held in the `Db.Database` class. A `Db.Tables` value is that state as a value.

- Each route is a method that changes the database.
- Each route's `ensures` ties its response and its new tables to a function of the old tables, such as `Register.RegisterOutcome`.
- The route's properties are proved as lemmas about that function.
- Every statement or transaction the routes run is one `Database` method. Each method is specified by a `Tables` function (`UserInserted`, `AccountLinked`, `TokenReplaced`, `TokenConsumed`, `QuestionsInserted`).
- A statement that breaks a constraint leaves the tables as they were. That constraint is a primary key, a `unique`, a `not null`, or a `varchar(255)` length on a user's email or hash or on a reset token (`Db.Varchar`: a longer value is cut to 255 characters when only spaces follow, and refused otherwise).
- The accounts table has no primary key. Its `pk` entry is a plain array, which declares nothing. The model keys accounts by the (provider, account id) pair the handlers look them up by.

**What becomes a parameter.** The code around the model becomes parameters:

- bcrypt's `hash` and `compare`;
- `verifyAuthToken`'s verdict;
- the random reset token;
- the clock, in integer milliseconds.

UUIDs are drawn from the counter `nextId`.

**What the code does with a mapped row.** The model follows the code as written. Two consequences are proved:

- A row the parser maps never passes the schema. The mapped object carries `language` and `category` keys, while the schema requires `languageId` (a UUID) and reads `categoryId`. An empty explanation cell also gives `explanation: undefined`, which the schema refuses. So an upload always yields no questions and one error per non-empty data row (`QuestionParser.UploadRejectsAll`).
- The save route fills `language_id` and `category_id` from `q.language` and `q.category`, which the validated question does not have. `language_id` is `not null` (src/lib/db/schema.ts:250), so every non-empty save rolls back and answers 500 (`BulkSave.NonEmptySaveFails`, `BulkSave.SaveNeverSucceeds`).

**Pending explanations.** `handleNext` does not reset `isLoading`. An explanation that arrives after Next is shown on the next question (`Practice.LateExplanationLandsOnNextQuestion`).

## Model

| member | source | states |
|---|---|---|
| QuestionParser.MapRawToSchema | src/lib/question-parser.ts:21-51 | The row mapping, answer loop included, yields `MapRow(row)`: null for a falsy first cell, otherwise the trimmed question, the optional explanation, difficulty and category, language `ja`, and the answers of the present pairs |
| QuestionParser.PairAnswersSpec | src/lib/question-parser.ts:30-41 | Answers come only from pairs j < 4 whose text cell is truthy, in column order. Each has the pair's trimmed text and is correct iff the flag cell is `1`, `'1'` or `true`. Every present pair is included |
| QuestionParser.MapRowShape | src/lib/question-parser.ts:28-50 | A row maps to null iff its first cell is falsy. Otherwise language is `ja`, the question is the trimmed first cell, and there are at most 4 answers, one per present pair |
| QuestionParser.EncodedFields | src/lib/question-parser.ts:43-50 | The object handed to the schema has `languageId` and `categoryId` undefined, and `explanation` undefined when its cell was empty |
| QuestionParser.MappedRowIssues | src/lib/question-parser.ts:63-66 | Validating any mapped row fails, with exactly the issues zod reports for its shape |
| QuestionParser.MappedRowRejected | src/lib/question-parser.ts:43-50 | Every mapped row is rejected with `[languageId] Required`, plus `[explanation] Required` when the explanation cell was empty |
| QuestionParser.SchemaCheckRejectsAll | src/lib/question-parser.ts:63-66 | The schema check used by the parser refuses every mapped row |
| QuestionParser.ValidateAndMap | src/lib/question-parser.ts:54-82 | The loop over rows builds the same questions and errors as `Scan` over the mapped rows |
| QuestionParser.ScanCounts | src/lib/question-parser.ts:59-79 | Each non-null data row lands in exactly one of questions and errors, so the two counts add up to the non-empty data rows, at most n - 1 |
| QuestionParser.ScanErrorsSound | src/lib/question-parser.ts:59-77 | Every error names a row in 2..n that maps to a refused question. Its message is the issues formatted `[path] message` and joined by `; `. Row numbers strictly increase |
| QuestionParser.ScanErrorsComplete | src/lib/question-parser.ts:66-78 | Every refused data row i is reported as row i + 1 |
| QuestionParser.ScanQuestionsSound | src/lib/question-parser.ts:66-69 | Every question returned is the parse of a data row that the check accepted |
| QuestionParser.ScanQuestionsInOrder | src/lib/question-parser.ts:59-79 | The questions are exactly `AcceptedParses`: the checked parse of every accepted data row, once each and in row order, and nothing else |
| QuestionParser.ScanRejecting | src/lib/question-parser.ts:59-79 | A check that refuses everything leaves no questions |
| QuestionParser.ScanRejectsWith | src/lib/question-parser.ts:59-79 | When the check's issues are fixed per row, no questions remain and each error message is formatted from those issues |
| QuestionParser.HeaderIgnored | src/lib/question-parser.ts:58-59 | Replacing row 0 by anything leaves the result unchanged |
| QuestionParser.UploadIgnoresHeader | src/lib/question-parser.ts:58-59 | With the real schema check, the header row never affects the result |
| QuestionParser.UploadRejectsAll | src/lib/question-parser.ts:54-82 | Any sheet yields no questions and exactly one error per non-empty data row, each carrying that row's zod issues |
| QuestionParser.UploadReportsEveryRow | src/lib/question-parser.ts:63-78 | Every data row with a truthy first cell appears in the errors, with its 1-based number |
| QuestionParser.ParseQuestionsFromFile | src/lib/question-parser.ts:106-123 | The MIME dispatch returns `FileResult`: CSV rows for `text/csv`, buffer rows for xlsx or xls, otherwise the unsupported-type result |
| QuestionParser.FileResultShape | src/lib/question-parser.ts:106-123 | No file ever yields a question. A row-0 error is present iff the type is neither CSV nor Excel |
| QuestionParser.KindIgnoresCase | src/lib/question-parser.ts:107 | The dispatch is the same for a type and its lowercase form |
| Strings.TrimSpec | src/lib/question-parser.ts:37 | `Trim` yields a contiguous part of the input with no whitespace at either end, after dropping only whitespace |
| Strings.Lower | src/lib/question-parser.ts:107 | Lowercasing keeps the length and maps each character by `LowerChar` |
| QuestionSchema.SafeParseQuestion | src/validation-schema/question-schema.ts:3-23 | A failed `safeParse` always reports at least one issue |
| QuestionSchema.SafeParseQuestionIffAccepts | src/validation-schema/question-schema.ts:3-23 | `safeParse` succeeds iff the value meets the declarative reading of the schema, `Accepts`, and then yields the decoded question. `Accepts` spells out the rules: non-empty question; any string explanation; UUID `languageId`; optional UUID difficulty and category ids; at least 2 answers with non-empty text and a boolean flag; exactly one correct |
| QuestionSchema.ParseQuestionIffAccepts | src/validation-schema/question-schema.ts:3-23 | The object parser records no issue and yields a value iff `Accepts`, at any path |
| QuestionSchema.AcceptedQuestionInvariant | src/validation-schema/question-schema.ts:5-22 | An accepted question has a non-empty question, a UUID language id, at least two answers each with non-empty text, and exactly one correct answer |
| QuestionSchema.EmptyQuestionRejected | src/validation-schema/question-schema.ts:5 | An empty question string is rejected with `Question is required` at `question` |
| QuestionSchema.MissingExplanationRejected | src/validation-schema/question-schema.ts:6 | A missing explanation is rejected with `Required` at `explanation` |
| QuestionSchema.MissingLanguageIdRejected | src/validation-schema/question-schema.ts:7 | A `languageId` that is not a string is rejected with the type issue at `languageId` |
| QuestionSchema.InvalidLanguageIdRejected | src/validation-schema/question-schema.ts:7 | A `languageId` string that is not a UUID is rejected with `Invalid language ID` |
| QuestionSchema.EmptyAnswerTextRejected | src/validation-schema/question-schema.ts:12 | An empty answer text is rejected with `Answer text is required` at `answers.i.answerText` |
| QuestionSchema.TooFewAnswersRejected | src/validation-schema/question-schema.ts:15 | Fewer than two answers is rejected with `At least two answers are required.` |
| QuestionSchema.WrongCorrectCountRejected | src/validation-schema/question-schema.ts:17-22 | Well-typed data with zero, or two or more, correct answers is rejected at `answers` with `Exactly one answer must be marked as correct.` |
| QuestionSchema.ShapeTypedParses | src/validation-schema/question-schema.ts:3-16 | The object parse aborts iff some field has the wrong type. Otherwise its value is the decoded question |
| QuestionSchema.CorrectCountDecoded | src/validation-schema/question-schema.ts:18 | The refinement's count of correct decoded answers equals the count of answer values marked `isCorrect: true` |
| QuestionSchema.SafeParseSave | src/app/api/questions/bulk-upload/save/route.ts:9-11 | A failed `saveSchema.safeParse` always reports at least one issue |
| QuestionSchema.SafeParseSaveIffAccepts | src/app/api/questions/bulk-upload/save/route.ts:9-11 | `saveSchema` accepts iff the body is an object whose `questions` is an array with every element accepted. The result lists each element's parse, in order |
| BulkSave.Post | src/app/api/questions/bulk-upload/save/route.ts:13-70 | The route's response and new tables are those of `Save` on the old tables |
| BulkSave.BuildInserts | src/app/api/questions/bulk-upload/save/route.ts:32-52 | The outer loop builds exactly `QuestionRows` and `AnswerRows` from the first fresh id on, and draws one id per question and per answer |
| BulkSave.PushAnswerRows | src/app/api/questions/bulk-upload/save/route.ts:44-51 | The inner loop appends one row per answer, ids drawn in turn after the question's id |
| BulkSave.InvalidBodyRejected | src/app/api/questions/bulk-upload/save/route.ts:16-20 | A body the schema refuses gets 400 `Invalid request body` with zod's issues, and the tables are unchanged |
| BulkSave.EmptyListRejected | src/app/api/questions/bulk-upload/save/route.ts:22-26 | An empty question list gets 400 `No valid questions to upload`, and the tables are unchanged |
| BulkSave.QuestionRowsSpec | src/app/api/questions/bulk-upload/save/route.ts:32-42 | There is one question row per question, in input order. Each has the question's text, explanation and difficulty, and NULL language and category |
| BulkSave.AnswerRowsSpec | src/app/api/questions/bulk-upload/save/route.ts:44-51 | There are as many answer rows as answers in all. They are grouped per question in order, and the m-th answer of question k carries question k's id |
| BulkSave.AnswerRowsOfSpec | src/app/api/questions/bulk-upload/save/route.ts:44-50 | One question's answer rows are its answers in order, with ids following the question's id |
| BulkSave.IdsUsedCounts | src/app/api/questions/bulk-upload/save/route.ts:32-51 | The flattening draws exactly one id per question plus one per answer |
| BulkSave.IdsInRange | src/app/api/questions/bulk-upload/save/route.ts:33-46 | Every generated id lies in the range drawn for this request |
| BulkSave.IdsDistinct | src/app/api/questions/bulk-upload/save/route.ts:33-46 | All generated ids are distinct. Question ids increase, answer ids increase, and no answer id is a question id |
| BulkSave.NonEmptySaveFails | src/app/api/questions/bulk-upload/save/route.ts:28-69 | Every valid non-empty body gets 500 `Internal Server Error during database save`, and the transaction leaves every table's rows as they were |
| BulkSave.SaveNeverSucceeds | src/app/api/questions/bulk-upload/save/route.ts:28-69 | No request is answered 200, and no request adds a question or an answer |
| Db.QuestionsInsertedSpec | src/app/api/questions/bulk-upload/save/route.ts:54-62 | After a committed insert the question and answer keys are the old keys plus the ids of the given rows; the tables stay valid and no other table changes |
| Db.NullLanguageRollsBack | src/lib/db/schema.ts:250 | A question row without a language id makes the whole transaction fail |
| Db.Database.InsertQuestions | src/app/api/questions/bulk-upload/save/route.ts:28-63 | The transaction commits exactly when `QuestionsInserted` does, and otherwise leaves the state as it was |
| Db.Database.FreshId | src/app/api/questions/bulk-upload/save/route.ts:33 | Each UUID drawn is new: the counter moves past it |
| Db.UserByEmailSpec | src/app/api/auth/register/route.ts:21-23 | The lookup finds nothing iff no user has the email. Otherwise it returns the stored user with that email, and it is unique |
| Db.Database.FindUserByEmail | src/app/api/auth/register/route.ts:21-23 | The query returns `UserByEmail` of the current state |
| Db.Varchar | src/lib/db/schema.ts:41-43 | A value of at most 255 characters is stored as it is. A longer one is stored cut to 255 characters when only spaces follow, and is refused iff a non-space follows |
| Db.UserInsertedSpec | src/lib/db/schema.ts:35-53 | The insert succeeds iff the email and the hash fit `varchar(255)` and no user has the stored email. It then adds one row at a fresh id, with the stored email and hash and the defaults `authenticated-user` and `free-plan`, which the email lookup finds. Nothing else changes |
| Db.Database.InsertUser | src/app/api/auth/register/route.ts:33-37 | The insert returns a row iff `UserInserted` succeeds. That row is the inserted user, and the tables move to `UserInserted`; a refused insert returns none and changes nothing |
| Db.AccountLinkedSpec | src/lib/db/schema.ts:73-101 | An account insert succeeds iff the (provider, account id) key is new and the user has no account with that provider. It then adds just that row |
| Db.Database.LinkAccount | src/lib/oauth.ts:146-150 | The account insert commits iff `AccountLinked` does, and otherwise changes nothing |
| Db.TokenReplacedSpec | src/app/api/auth/forgot-password/route.ts:37-44 | The delete-then-insert fails iff the token does not fit `varchar(255)` or another user holds a token with its stored value. On success the user owns exactly the new token, other users' tokens are unchanged, and no other token appears |
| Db.Database.ReplaceResetToken | src/app/api/auth/forgot-password/route.ts:37-44 | The transaction commits iff `TokenReplaced` does, and otherwise changes nothing |
| Db.TokenConsumedSpec | src/app/api/auth/reset-password/route.ts:40-48 | The transaction fails iff the owner exists and the new hash does not fit `varchar(255)`. Otherwise the owner's hash and `updatedAt` are set, other users and other tokens are unchanged, and no token with the value remains, so it is never live again |
| Db.Database.ConsumeResetToken | src/app/api/auth/reset-password/route.ts:40-48 | The transaction commits iff `TokenConsumed` does, and otherwise changes nothing |
| Db.LiveTokenSpec | src/app/api/auth/reset-password/route.ts:20-30 | The lookup finds nothing iff every token with the value has `expiresAt <= now`. Otherwise it returns a stored live token with that value |
| Db.Database.FindLiveToken | src/app/api/auth/reset-password/route.ts:20-30 | The query returns `LiveToken` of the current state |
| Register.Post | src/app/api/auth/register/route.ts:11-68 | The route's response and new tables are those of `RegisterOutcome` |
| Register.MissingFieldsRejected | src/app/api/auth/register/route.ts:16-18 | A missing email or password gets 400, and the tables are unchanged |
| Register.DuplicateEmailRejected | src/app/api/auth/register/route.ts:21-27 | An email already stored gets 409, and the tables are unchanged |
| Register.RegistrationCreatesUser | src/app/api/auth/register/route.ts:30-67 | For a new email, the status is 201 iff the email and hash(password) fit `varchar(255)` and no user has the stored email; otherwise it is 500 with the tables unchanged. A 201 adds exactly one user, with the stored email and hash, `authenticated-user` and `free-plan`, and the returned user and the token payload carry its id, email, role and plan. An email and hash of at most 255 characters always succeed |
| Register.RegistrationSucceedsIff | src/app/api/auth/register/route.ts:16-67 | The status is 201 iff both fields are given, the email is new, the email and hash fit `varchar(255)`, and the stored email is new. Any other outcome leaves the tables unchanged |
| Login.LoginResponse | src/app/api/auth/login/route.ts:11-60 | The status is 200, 400, 401 or 500. A user and a session come back iff it is 200, and then the session is the payload of the user's id, email, role and plan |
| Login.MissingFieldsRejected | src/app/api/auth/login/route.ts:13-15 | A missing email or password gets 400 |
| Login.FailuresIndistinguishable | src/app/api/auth/login/route.ts:18-32 | The status is 401 iff the email is unknown, or its user has no hash or an empty one, or the password does not match. Every 401 is the same `Invalid credentials` response |
| Login.SuccessSignsInStoredUser | src/app/api/auth/login/route.ts:18-54 | The status is 200 iff a stored user with the email has a non-empty hash matching the password. The returned user and the payload are that user's id, email, role and plan |
| Login.RegisterThenLogin | src/app/api/auth/login/route.ts:18-54 | After a registration, logging in with the same email and password succeeds and yields the same user and payload, when the email was stored uncut and the verifier accepts the password against its stored, non-empty hash. An email cut to 255 characters is then refused with `Invalid credentials` |
| ForgotPassword.Post | src/app/api/auth/forgot-password/route.ts:11-57 | The route's response, new tables and mail are those of `ForgotOutcomeOf` |
| ForgotPassword.MissingEmailRejected | src/app/api/auth/forgot-password/route.ts:16-18 | A missing email gets 400, with no table changed and no mail sent |
| ForgotPassword.UnknownEmailIndistinguishable | src/app/api/auth/forgot-password/route.ts:27-30 | An unknown email gets the same 200 as success, with no token written and no mail sent |
| ForgotPassword.SuccessResponseUniform | src/app/api/auth/forgot-password/route.ts:27-51 | Every 200 carries the one message `If an account with that email exists, ...` |
| ForgotPassword.KnownEmailReplacesToken | src/app/api/auth/forgot-password/route.ts:32-55 | For a known email, the transaction fails iff the token does not fit `varchar(255)` or another user holds its stored value, with 500, nothing changed and no mail; otherwise it succeeds with 200. On success the user holds exactly one token, the stored value, expiring at now + 3,600,000 ms, other users' tokens are unchanged, and the reset link is mailed to the user |
| ResetPassword.Post | src/app/api/auth/reset-password/route.ts:10-56 | The route's response and new tables are those of `ResetOutcome` |
| ResetPassword.MissingFieldsRejected | src/app/api/auth/reset-password/route.ts:15-17 | A missing token or new password gets 400, and the tables are unchanged |
| ResetPassword.InvalidTokenRejected | src/app/api/auth/reset-password/route.ts:20-55 | The status is 400 iff every token with the value has expired (`expiresAt <= now`) or has no user. A 400 leaves the tables unchanged; otherwise the response is the 200 success when the new hash fits `varchar(255)`, and 500 with the tables unchanged when it does not |
| ResetPassword.ResetUpdatesOwner | src/app/api/auth/reset-password/route.ts:36-55 | A live token whose new hash does not fit `varchar(255)` gets 500 and changes nothing. Otherwise it resets its owner's hash to the stored hash(newPassword) and `updatedAt` to now. Other users are unchanged, and the token is gone |
| ResetPassword.TokenSingleUse | src/app/api/auth/reset-password/route.ts:46-48 | After a successful reset, the same token is refused at any later time |
| ResetPassword.IssuedTokenValidForAnHour | src/app/api/auth/reset-password/route.ts:20-24 | A random 64-hex-digit token issued at time t resets the password exactly at the times before t + 3,600,000 ms, when the new hash fits `varchar(255)` |
| OAuth.FindOrCreateOAuthUser | src/lib/oauth.ts:103-162 | The result and the new tables are those of `FindOrCreate` on the old tables |
| OAuth.HandleGoogleCallback | src/lib/oauth.ts:167-176 | The result and the new tables are those of `GoogleSignIn` |
| OAuth.EmptyEmailRejected | src/lib/oauth.ts:171-173 | A profile without an email is refused, and no table is read or written |
| OAuth.KnownAccountSignsIn | src/lib/oauth.ts:108-126 | A linked account's user is returned, and nothing is written |
| OAuth.KnownEmailLinked | src/lib/oauth.ts:128-150 | With no linked account, the user with the email is reused and no user is created. Linking fails iff that user already has an account with the provider, and a failure writes nothing |
| OAuth.NewUserCreatedAndLinked | src/lib/oauth.ts:133-150 | With no account and no user with the email, sign-in succeeds iff the email fits `varchar(255)` and no user has the stored email; a failure writes nothing. On success exactly one user is created, with the stored email, no password and the default role and plan, and it is linked to the account. An email of at most 255 characters always succeeds |
| OAuth.SignInLinksReturnedUser | src/lib/oauth.ts:145-161 | After a success, the account links to the returned user, which is stored, and the payload carries its id, email, role and plan. A failure leaves the tables unchanged |
| Middleware.Decide | middleware.ts:20-51 | Only a protected path is ever redirected, always to `/auth/login`, and the redirect clears the cookie iff a cookie was sent |
| Middleware.PassesUncheckedIffPublic | middleware.ts:8-26 | A path passes whatever the cookie and verifier say iff it is listed, or starts with `/_next/` or `/api/auth/` |
| Middleware.ProtectedPathDecision | middleware.ts:28-50 | On a protected path: no cookie redirects to `/auth/login` with `redirect=<path>`. A failing cookie redirects without it and clears the cookie (empty, maxAge 0, path `/`). The request proceeds iff the cookie is present and verifies |
| Middleware.DecisionDependsOnlyOnVerdict | middleware.ts:20-51 | The decision depends only on the path, the cookie's presence and its verdict |
| Middleware.RedirectTargetPasses | middleware.ts:33-43 | Every redirect goes to a page that passes, so redirects cannot loop |
| Middleware.AuthApiAlwaysPublic | middleware.ts:24 | Every `/api/auth/` path is public, listed or not |
| Middleware.DashboardNeedsLogin | middleware.ts:29-35 | An unauthenticated `/dashboard` visit is sent to log in with `redirect=/dashboard` |
| Practice.PracticeSession.constructor | src/components/practice/PracticeSession.tsx:21-25 | The session starts at question 0 with nothing selected, no feedback, no explanation and not loading |
| Practice.PracticeSession.SelectAnswer | src/components/practice/PracticeSession.tsx:65 | Selecting sets only the selected answer |
| Practice.PracticeSession.Submit | src/components/practice/PracticeSession.tsx:29-45 | Submission moves the state to `Submitted` and returns the query `SubmitQuery` sends, up to the request |
| Practice.PracticeSession.ReceiveExplanation | src/components/practice/PracticeSession.tsx:47-52 | The returned explanation moves the state to `Received` |
| Practice.PracticeSession.Next | src/components/practice/PracticeSession.tsx:55-60 | Next moves the state to `Advanced` and keeps the index in range |
| Practice.SubmitWithoutAnswerIgnored | src/components/practice/PracticeSession.tsx:30 | With nothing selected, submit changes nothing and sends nothing |
| Practice.SubmitAssesses | src/components/practice/PracticeSession.tsx:32-36 | Feedback is correct iff the selection equals the correct answer, and incorrect otherwise. Loading starts, the explanation clears, and the index and selection stay |
| Practice.QueryFollowsFeedback | src/components/practice/PracticeSession.tsx:38-43 | A correct answer sends the question's explanation when non-empty, else the "is correct" template. A wrong answer always sends the "incorrect ... correct" template |
| Practice.ReceivedShowsText | src/components/practice/PracticeSession.tsx:47-52 | Loading ends. The explanation is the result's text, or on failure the error or `Failed to load explanation.`, never empty |
| Practice.NextStaysInRange | src/components/practice/PracticeSession.tsx:55-60 | Next clears selection, feedback and explanation and sets the index to (index + 1) mod n, so it stays below n |
| Practice.NextCycles | src/components/practice/PracticeSession.tsx:59 | k presses of Next land on (index + k) mod n |
| Practice.FullRoundReturns | src/components/practice/PracticeSession.tsx:59 | n presses of Next return to the starting question |
| Practice.LateExplanationLandsOnNextQuestion | src/components/practice/PracticeSession.tsx:35-59 | Next during loading keeps the flag set, and the late explanation is then shown on the next question |

## Left out

- XLSX workbook reading and `sheet_to_json` (src/lib/question-parser.ts:84-104): a sheet is given as its rows of cells. The CSV text and the Excel buffer arrive already as rows.
- Cell values: text, integers, booleans and blanks only. Floating-point cells and JavaScript's `String()` of other objects are not modelled.
- Strings.Lower: maps only 'A'..'Z' and U+212A KELVIN SIGN, and keeps one character per character. JavaScript's `toLowerCase` follows Unicode's full case mapping, which lowercases many more letters and can change the length (U+0130 becomes two characters). This does not change the dispatch: the MIME constants compared are ASCII, and every other character lowercases to non-ASCII text in both.
- bcrypt hashing and comparison, JWT signing and verification, and cookie serialisation: these are parameters (`Hasher`, `Verifier`, `Verdict`). The session a route grants is modelled as the token payload it signs.
- `uuidv4`, `defaultRandom` and `randomBytes`: ids come from the counter `nextId`, and the reset token string is a parameter.
- The clock: `now` is a parameter in milliseconds. The timestamps of accounts, tokens and questions are not kept.
- Network I/O: the Google code exchange and userinfo fetch, the callback route's redirects and cookie, and the mail transport. Forgot-password returns the mail it would send as a value.
- Request bodies: the auth routes' bodies are objects with string fields. A body with a field that is not a string is folded into `Unparseable` and answered 500, which is the model's choice. The source answers 400 when such a field is falsy (`{"email": 0}`) and hands a truthy one to the query. The save route takes any JSON value and answers 400 when the schema refuses it. There, only `request.json()` throwing gives 500.
- Foreign keys to the language, difficulty and category tables are not checked. The rows are rejected before that, by `not null`, so no outcome depends on them.
- Concurrency: races between requests, such as the gap between register's duplicate check and its insert. Each request runs alone. Only a stored email that collides after being cut to 255 characters reaches the unique constraint.
- Db.AccountLinkedSpec: the model refuses an account whose (provider, account id) pair is already stored. The schema declares no key on that pair, only an index (src/lib/db/schema.ts:89-100), so the database would accept it. `FindOrCreate` looks the pair up before it inserts, so from the route that refusal cannot happen.
- The `varchar(255)` lengths of an account's provider and account id: the provider is always `google`, and Google's account ids are at most 255 ASCII characters, so no insert fails on them.
- BulkSave.Post: the success message `Successfully uploaded N questions` is modelled, but it is unreachable. Every non-empty insert fails, as above.
- The component's rendering: radio options, markdown and disabled states. The fields of `PracticeQuestion` the component reads (`correctAnswer`, `options`) are modelled as given. src/lib/types.ts:60-68 declares other fields.
- The middleware's `config.matcher` regex (middleware.ts:59-61): the model decides for every path handed to it.
