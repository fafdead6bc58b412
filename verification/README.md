# PlanetTerp chatbot: a verified model of its core

PlanetTerp chatbot answers questions about University of Maryland courses
and professors. The answers are built from PlanetTerp API data and a
Gemini chat model. The repository holds two front ends over one Python
core:

- a Streamlit page, `app.py`, over `planetterp_core.py`;
- a Next.js client (`frontend/`) that talks to a chat server over HTTP.

This Dafny project models the logic of both front ends that can be stated
as contracts, and proves what that logic promises.

- **Python core** (`planetterp_core.py`):
  - the course-code scanner `extract_course_ids`, which is the regex
    `\b[A-Z]{4}\d{3}[A-Z]?\b` over the upper-cased query, written out as
    the regex engine's scan;
  - `generate_chat_name` and `get_greeting`;
  - `get_rating_emoji` and the emoji annotation loop of
    `generate_response`;
  - `filter_recent_grades`, including Python's `int()` on the year prefix
    and the `ValueError` it can raise;
  - `sort_professor_reviews`, a stable descending sort;
  - the post-processing loop of `search`.
- **Streamlit session** (`app.py`). The session store is a record, and
  these are pure transitions over it:
  - session start and the first-visit welcome;
  - `save_current_chat`, `start_new_chat` and `load_chat`;
  - one query turn: candidate ids, context assembly, annotation, the
    answer, naming and saving.
- **Next.js client**:
  - `lib/api.ts`: request construction for the four operations, and how a
    response is classified;
  - `app/page.tsx`: the page state, the health-then-greeting start-up,
    and sending as a start step and a settle step;
  - `components/ChatInput.tsx`: the send guard, the Enter key, and the
    enabled conditions of the button and the text area;
  - `components/QuickReplies.tsx`: the rotation, the two-item window, the
    click, and the timer lifecycle;
  - `components/Sidebar.tsx`: the fun-fact loader and its refresh button;
  - `ClientApp`: the page, the input box and the quick replies composed
    into one state machine, whose invariant is proved over every event
    trace. The sidebar runs on its own and is not part of it.

The model treats I/O as follows:

- Every asynchronous call is a start step and a settle step. The call's
  outcome is an input of the settle step.
- The clock, uuids, the random fact draw, the embedding index's neighbour
  labels and Gemini's answer are parameters.
- PlanetTerp API answers are functions in a `Backend` record.

Strings are `seq<char>`. Three sets of text rules are written out:

- Python's `str.split()` whitespace;
- JavaScript's `trim()` whitespace;
- Python's code-point string order.

The modules follow the files:

| file | module | models |
|---|---|---|
| wrappers.dfy | Wrappers | `Option`, `Result`, Python exceptions |
| text.dfy | Text | upper-casing, JS `trim`, Python `split`/`join`, string order |
| sorting.dfy | Sorting | `list.sort(key=..., reverse=True)` on string keys |
| planetterp_data.dfy | PlanetTerpData | the API records the core reads |
| course_ids.dfy | CourseIds | `extract_course_ids` |
| chat_naming.dfy | ChatNaming | `generate_chat_name` |
| greetings.dfy | Greetings | `get_greeting` |
| ratings.dfy | Ratings | `get_rating_emoji` and the annotation loop |
| grades.dfy | Grades | `filter_recent_grades`, `sort_professor_reviews` |
| search.dfy | Search | the post-processing of `search` |
| session.dfy | Session | the session state and transitions of `app.py` |
| transport.dfy | Transport | `frontend/lib/api.ts` |
| chat_page.dfy | ChatPage | `frontend/app/page.tsx` |
| chat_input.dfy | ChatInput | `frontend/components/ChatInput.tsx` |
| quick_replies.dfy | QuickReplies | `frontend/components/QuickReplies.tsx` |
| sidebar.dfy | Sidebar | `frontend/components/Sidebar.tsx` |
| client_app.dfy | ClientApp | the page, input box and quick replies together |

Two details of the page's send path matter for the proofs:

- **The page stores the message it is given untrimmed.**
  `handleSendMessage` (`frontend/app/page.tsx:47-57`) rejects only blank
  text and stores its argument as given. Trimming happens in the input
  box (`frontend/components/ChatInput.tsx:16`).
- **Quick replies send even when the backend is unhealthy.** Only the
  input box gets `disabled={!isBackendHealthy}`
  (`frontend/app/page.tsx:169`). The quick replies call the send handler
  directly. They are shown only while the conversation is empty, so they
  can never start a second request while one is in flight
  (`ClientApp.StepKeepsInv`).

## Model

| member | source | states |
|---|---|---|
| CourseIds.ExtractCourseIdsSpec | planetterp_core.py:76-80 | The scanner returns exactly what the pattern matches at each position, left to right. Every id is four capital letters, three digits and an optional capital, standing alone as a word of the upper-cased query. Upper-casing the query first changes nothing. |
| CourseIds.ScanIsAllMatches | planetterp_core.py:78-79 | The regex engine's jump past a match is the same as trying every position, because no match can start inside another. |
| CourseIds.MatchIsCode | planetterp_core.py:78 | A match at a position is a course code of the reported length, with no word character on either side. |
| CourseIds.NoMatchInside | planetterp_core.py:78-79 | No match starts strictly inside another match, so the matches never overlap. |
| CourseIds.ExtractedAreCodes | planetterp_core.py:76-80 | Every extracted id has the course-code shape, so its length is 7 or 8. |
| CourseIds.ExtractedStandAlone | planetterp_core.py:76-80 | Every extracted id occurs in the upper-cased query with no word character next to it. |
| CourseIds.ExtractedComplete | planetterp_core.py:76-80 | Every position where the pattern matches contributes its code to the result. |
| CourseIds.EmbeddedCodesIgnored | planetterp_core.py:78 | A code glued to more word characters is not extracted: `XCMSC131` and `CMSC1311` give nothing. |
| CourseIds.CodesFound | planetterp_core.py:76-80 | Lower-case codes are found, with and without the optional trailing letter, in query order. |
| ChatNaming.ChatNameForCourses | planetterp_core.py:241-244 | A query that names courses is titled with its ids separated by commas, followed by the word "Question". |
| ChatNaming.ChatNameForText | planetterp_core.py:246-250 | Without course ids, a query of at most four words is its own title. A longer query becomes its first four words, the last followed by "...". |
| Text.SplitJoin | planetterp_core.py:246-250 | `split()` undoes `' '.join` on proper words. The title rules rest on this. |
| Text.TrimShape | frontend/components/ChatInput.tsx:15-16 | `trim()` returns the part of the input between its leading and trailing whitespace. The result's own ends are not whitespace. |
| Text.TrimEmptyIffBlank | frontend/app/page.tsx:48 | A string trims to empty exactly when every character is whitespace, which is the test `!message.trim()`. |
| Text.TrimIdempotent | frontend/components/ChatInput.tsx:16 | Trimming twice is trimming once. |
| Greetings.Greeting | planetterp_core.py:252-259 | Hours 6-10 give "Good morning", 11-16 give "Good afternoon", and every other hour gives "Good evening". Each holds in both directions. |
| Greetings.GreetingOverTheDay | planetterp_core.py:252-259 | Every hour of the day gets one of the three greetings. Hours 0-5 are evening, and the greeting changes at 6, 11 and 17. |
| Ratings.RatingBand | planetterp_core.py:136-149 | Each rating lands in exactly one band, each stated in both directions. Missing, zero or negative is unknown; 4.5 and up is excellent; [4.0, 4.5) very good; [3.0, 4.0) good; [2.0, 3.0) below average; (0, 2.0) poor. |
| Ratings.BandMonotone | planetterp_core.py:140-149 | A higher positive rating never lands in a lower band. |
| Ratings.BandEmojiInjective | planetterp_core.py:138-149 | The six strings differ, so the emoji tells the band. |
| Ratings.AnnotateProfessors | planetterp_core.py:168-172 | The loop keeps the list's length. The professor at each position gets that professor's annotation. |
| Ratings.AnnotateProfessorsSpec | planetterp_core.py:168-172 | Every professor gets a `rating_emoji` and nothing else changes. A rating key gives the emoji of its band; a missing key gives the bare question mark. Annotating again changes nothing. |
| Ratings.NullAndMissingRatingDiffer | planetterp_core.py:136-172 | A `null` rating and a missing rating both read as unknown. The two strings differ by a leading space. |
| Grades.ParseIntExamples | planetterp_core.py:60 | `int()` on a year prefix accepts surrounding whitespace, a sign and underscores between digits. It rejects a trailing underscore and the empty string. |
| Grades.Comprehension | planetterp_core.py:59-60 | The comprehension raises `ValueError` exactly when some row has a non-empty semester whose first four characters are not an integer. Otherwise it yields the recent rows in input order. |
| Grades.FilterRecentGrades | planetterp_core.py:55-64 | Either `ValueError`, exactly when a semester prefix is unreadable, or the following. Every row whose year is at least `currentYear - years` is kept as often as in the input, and no other row is. The rows are sorted by semester from newest to oldest. Rows of one semester keep their input order. |
| Grades.SortProfessorReviews | planetterp_core.py:49-53 | A present list of reviews is permuted into descending `created` order, with a missing date as `''`. Reviews with the same date keep their order. No other field changes. A missing professor, or one with no reviews, is returned unchanged. |
| Sorting.SortDescCorrect | planetterp_core.py:52-62 | The descending sort permutes its input, orders it by key, and keeps elements with the same key in their original order, as Python's stable `sort(reverse=True)` does. |
| Text.LexLeTotal | planetterp_core.py:52-62 | Python's string order is total, so the sorts above are well defined. |
| Text.LexLeTransitive | planetterp_core.py:52-62 | Python's string order is transitive. |
| Search.SearchResults | planetterp_core.py:118-134 | Without an index the result is empty. With one, it raises `IndexError` exactly when a label is below `-len(course_ids)`. Otherwise the results: have no duplicates; are course ids; number at most the k labels; are exactly the distinct hits; keep first-occurrence order. |
| Search.DedupSpec | planetterp_core.py:127-132 | Keeping first occurrences gives no duplicates and the same members as the input. It is no longer than the input and keeps the order of first occurrence. |
| Search.FillerLabelsChangeNothing | planetterp_core.py:128-130 | A `-1` filler label passes the guard and names the last course id. The flat index only pads a row after every stored vector has been returned, and the last id is then already a hit, so fillers never change the result. |
| Session.RandomFact | app.py:14-30 | The drawn fact is always one of the thirteen listed facts, and every one of them can be drawn. |
| Session.Init | app.py:47-77 | A fresh session has no messages and an empty context. It has no index, no saved chats, a fresh id and the name "New Chat". It is a first visit, with a listed fact. |
| Session.Welcome | app.py:157-160 | The welcome is shown exactly on a first visit, with the greeting of the hour, and clears the first-visit flag. |
| Session.WelcomeOnce | app.py:157-160 | A second run shows no welcome and changes nothing. |
| Session.FirstUserMessage | app.py:105 | Returns nothing exactly when no message has role `user`. Otherwise it returns the content of the first such message. |
| Session.Save | app.py:102-112 | An empty chat is not saved and nothing changes. A non-empty chat is stored under its id with its name, a copy of its messages and the time. No other entry changes. The name changes only for a "New Chat" with a non-empty first user message, and then becomes that message's title. Nothing else in the state changes. |
| Session.SaveIdempotent | app.py:102-112 | Saving twice at the same time is saving once. |
| Session.StartNewChat | app.py:115-130 | The open chat is saved first. The new chat has a fresh id, the name "New Chat", no messages, an empty Gemini history, an empty context and a listed fact. The index and the first-visit flag stay. |
| Session.History | app.py:140-143 | The rebuilt history has one entry per message, in order, carrying its content. Role `user` stays `user`; every other role becomes `model`. |
| Session.LoadChat | app.py:133-153 | An unknown id changes nothing. A known id saves the open chat first, then reads the entry after that save. Its id, name and messages become the open chat, and the Gemini chat restarts from their history. The context, index and fact stay. |
| Session.SaveThenLoadRestores | app.py:102-139 | Loading a chat that was just saved reopens the same messages under the same name. |
| Session.NewChatThenLoadRestores | app.py:115-143 | Starting a new chat loses nothing. The old chat loads back with its messages, its name and their history. |
| Session.CourseGrades | planetterp_core.py:66-73 | A failed grades call, or an error object, gives no rows. Otherwise the result is the recent rows of the last four years. |
| Session.ProfessorFor | planetterp_core.py:40-53 | A professor is found exactly when the API gives one. It is the API's professor with only the reviews changed: a present list is permuted into descending `created` order, stably; a missing list stays missing. |
| Session.ProfessorsFor | app.py:202-205 | The inner loop yields at most one professor per name. Each one is what the API gives for one of the names, and every name the API knows contributes its professor. |
| Session.GatherSnoc | app.py:192-205 | Assembly is the loop run in id order. A last id adds nothing if an earlier id raised. Otherwise it runs the loop body once more after everything the earlier ids gathered. |
| Session.AddCourseBounds | app.py:192-205 | One pass of the loop body keeps what was gathered as a prefix. It adds at most one course, and at most 5 grade rows and 5 professors, only with that course. |
| Session.PrependThen | app.py:192-205 | Putting one id in front of the loop commutes with running the body for a last id, so the recursive and the iterative readings of the loop agree. |
| Session.GatherOne | app.py:192-205 | The loop over one id is one pass of its body over empty data. |
| Session.ProfessorsForSnoc | app.py:202-205 | Adding a name at the end adds that name's professor at the end, if the API knows it, so the professors come in name order. |
| Session.Gather | app.py:188-205 | Assembly raises exactly when a fetched course has a grade row with an unreadable semester. Otherwise it yields at most one course per id, and in total at most 5 grade rows and 5 professors for each course it holds. The courses are exactly those the API gives for the ids. Every grade row is among the first 5 recent rows of one of those courses, and all of those rows are there. Every professor is the API's professor, reviews sorted, for one of the first 5 names of a course, and every such professor is there. |
| Session.CandidateIds | app.py:177-187 | The codes written in the query are used when there are any. Only otherwise does semantic search run, and its result is used. |
| Session.EnsureIndex | app.py:93-99 | The index is built once, and only from a non-empty course listing. |
| Session.EnsureIndexOnce | app.py:93-99 | A second call changes nothing, whatever the backend says then. An index is missing afterwards exactly when it was missing and the listing was empty. A new index is the listing of that time. |
| Session.QueryTurnMessages | app.py:168-214 | An empty input does nothing. Otherwise a turn appends the query and then the answer. A turn that raises has appended only the query. The id, fact, Gemini start history and first-visit flag never change. |
| Session.QueryTurnContext | app.py:174-208 | A completed turn uses the first 3 candidate ids. Its context holds exactly the courses, grade rows and annotated professors that assembly gives for them: at most 3 courses, exactly those the API gives for the ids, and in total at most 5 grade rows and 5 professors per course it holds; the per-course split follows from `Session.GatherSnoc`. Every professor carries a rating emoji. A turn that raises, or an empty input, leaves the context alone. |
| Session.QueryTurnContextContents | app.py:188-208 | In a completed turn's context, the grade rows are exactly the first 5 recent rows of each course of the first 3 candidate ids. The professors are exactly the annotated professors of the first 5 names of each context course. |
| Session.QueryTurnNaming | app.py:218-222 | A named chat keeps its name and its saved chats, and so does a turn that raises. A completed turn of an unnamed chat always saves it under its id, with its name, messages and time. The new name is the query's title, unless that title is "New Chat"; then the save names the chat after its first user message. |
| Session.DirectIdsSkipSearch | app.py:177-185 | When the query names a course code, the neighbour labels cannot change the turn. |
| Session.OperationsKeepSavedChats | app.py:102-222 | Every operation keeps every saved chat non-empty and never drops a saved chat. |
| Session.QueryTurnKeepsSavedChats | app.py:168-222 | A query turn keeps every saved chat non-empty and never drops a saved chat. |
| Transport.BaseUrl | frontend/lib/api.ts:3 | The base URL is the setting when one is given and not empty. Otherwise it is `http://localhost:8000`. |
| Transport.BaseUrlStable | frontend/lib/api.ts:3 | Feeding the resolved URL back in as the setting gives the same URL. A URL other than the default is the setting itself. |
| Transport.Project | frontend/lib/api.ts:13-16 | The wire history has the same length and order, with each role and content copied. |
| Transport.ProjectDropsOnlyTimestamps | frontend/lib/api.ts:13-16 | Two histories project alike exactly when they agree on every role and content, so the projection drops only the timestamps. |
| Transport.RequestFor | frontend/lib/api.ts:5-18 | Only the chat operation posts a body. The body carries the message verbatim and the projected history. |
| Transport.RequestPaths | frontend/lib/api.ts:5-48 | The four operations go to `/chat`, `/fun-fact`, `/greeting` and `/health` under the base URL. The path tells the operations apart. |
| Transport.Classify | frontend/lib/api.ts:20-24 | A network failure, a non-2xx status or an unreadable body is an error. A 2xx status with a readable body is that body. |
| Transport.ClassifyOutcomes | frontend/lib/api.ts:20-54 | A call yields a value exactly on a 2xx status with a readable body, and the value is that body unchanged. A status error carries its status and comes only from a non-2xx status. |
| ChatPage.StartSend | frontend/app/page.tsx:47-57 | A message that is all whitespace is dropped and the page is unchanged, in both directions. Any other message is appended untrimmed as a user message and loading starts. The request carries the messages from before the append. |
| ChatPage.SettleSend | frontend/app/page.tsx:62-81 | Settling appends exactly one assistant message: the answer, or the apology on failure. Loading ends either way. |
| ChatPage.SendThenSettle | frontend/app/page.tsx:47-82 | A whole send gives the server the message as given and the earlier conversation. The page gains the user message and one answer, keeps every earlier message, and ends idle. |
| ChatPage.HealthSettled | frontend/app/page.tsx:31-41 | After a health check: on success, healthy means the status is "healthy" and the greeting is requested. On failure, the page is unhealthy, says "Good day" and requests no greeting. |
| ChatPage.GreetingSettled | frontend/app/page.tsx:35-41 | The server's greeting is shown. A failure marks the page unhealthy and shows "Good day". |
| ChatPage.InitializeOutcomes | frontend/app/page.tsx:28-44 | Start-up requests the greeting exactly when the health check succeeds. The page ends healthy exactly when both calls succeed and the status is "healthy". Messages and loading are untouched. |
| ChatPage.InitialOffers | frontend/app/page.tsx:13-170 | The page starts with no messages, idle, with no greeting and healthy. The quick replies are offered and the input is enabled. |
| ChatPage.QuickRepliesGoForGood | frontend/app/page.tsx:56-159 | Once a message is accepted the quick replies disappear, and no later step brings them back. |
| ChatInput.HandleSend | frontend/components/ChatInput.tsx:14-19 | The box forwards exactly when its trimmed text is non-empty, it is not loading and it is not disabled. It then forwards the trimmed text and is cleared. Otherwise nothing is forwarded and the text stays. |
| ChatInput.HandleKeyPress | frontend/components/ChatInput.tsx:21-26 | Enter without Shift sends and suppresses the newline. Every other key leaves the box alone. |
| ChatInput.EnterMatchesButton | frontend/components/ChatInput.tsx:14-43 | Enter without Shift sends exactly when the button is enabled, forwarding the same text and leaving the same box as a click. Shift+Enter never sends and keeps the text. |
| ChatInput.EnablingMatchesGuard | frontend/components/ChatInput.tsx:15-43 | The button is enabled exactly when a click would send. A disabled text area never sends, and neither does whitespace alone. |
| ChatInput.ForwardedIsTrimmed | frontend/components/ChatInput.tsx:16 | The forwarded text is already trimmed and is not blank, so the page's blank check accepts it unchanged. |
| QuickReplies.Tick | frontend/components/QuickReplies.tsx:46 | One firing keeps the index inside the list. |
| QuickReplies.TicksFromStart | frontend/components/QuickReplies.tsx:42-46 | From index 0, after n firings the index is 2n mod 6, always 0, 2 or 4. |
| QuickReplies.ThreeTicksCycle | frontend/components/QuickReplies.tsx:8-46 | Three firings bring any index back to where it was; one or two do not. |
| QuickReplies.Window | frontend/components/QuickReplies.tsx:52-55 | The window is the item at the index and the next item, cyclically. |
| QuickReplies.WindowsPartition | frontend/components/QuickReplies.tsx:46-55 | Each reachable window holds two different items. Each item is in exactly one reachable window: the one at the even index at or below it. |
| QuickReplies.Click | frontend/components/QuickReplies.tsx:66 | A click sends the clicked item's message verbatim, which is one of the listed messages. |
| QuickReplies.MessagesNotBlank | frontend/components/QuickReplies.tsx:8-39 | Every suggested message starts with a non-whitespace character, so the page never drops it. |
| QuickReplies.RunKeepsOneTimer | frontend/components/QuickReplies.tsx:43-50 | Mounting registers an interval and the cleanup clears it. Over any sequence of mounts, firings and unmounts, a mounted component has exactly one timer, an unmounted one has none, and the index is 0, 2 or 4. |
| QuickReplies.UnmountedIgnoresFiring | frontend/components/QuickReplies.tsx:43-50 | After any history that leaves the component unmounted, a firing changes nothing, and a remount starts at index 0 with one timer. |
| QuickReplies.MountedFiringTicks | frontend/components/QuickReplies.tsx:44-46 | While mounted, each firing advances the index by one step of `(prev + 2) % 6`. |
| Sidebar.StartLoad | frontend/components/Sidebar.tsx:9-12 | Loading starts before the request goes out, and the fact on screen stays until the call settles. |
| Sidebar.SettleLoad | frontend/components/Sidebar.tsx:12-19 | The server's fact is shown, or the Testudo fallback on failure. Loading ends either way. |
| Sidebar.Step | frontend/components/Sidebar.tsx:22-36 | A click on the refresh button while loading does nothing. A step starts at most one load. |
| Sidebar.RunOneAtATime | frontend/components/Sidebar.tsx:6-36 | From the initial panel, at most one fact request is ever in flight. The panel shows loading exactly while one is, and none is in flight before mounting. |
| Sidebar.MountLoadsOnce | frontend/components/Sidebar.tsx:22-24 | Without refreshes, a run makes exactly one request if it mounts and none otherwise, however often mounting recurs. |
| ClientApp.StepKeepsInv | frontend/app/page.tsx:47-170 | Every event keeps the client's invariant. At most one chat request is in flight, and loading shows exactly while one is. The conversation alternates user and assistant, and ends on a user message exactly while loading. The rotation index stays reachable. |
| ClientApp.RunKeepsInv | frontend/app/page.tsx:13-82 | Every event trace from the fresh client keeps the invariant. |
| ClientApp.StepAppendsOnly | frontend/app/page.tsx:56-78 | A step never edits or removes a message and adds at most one. |
| ClientApp.QuickReplyIgnoresHealth | frontend/app/page.tsx:159-170 | On an unhealthy page with no messages, a quick-reply click still sends its suggestion. |
| ClientApp.EnabledSendStarts | frontend/components/ChatInput.tsx:14-43 | An enabled send button always starts a request carrying the trimmed text, and empties the box. |

## Left out

- Network I/O is not modelled: the `requests.get` calls, `fetch` and JSON parsing. Answers are inputs: the `Backend` record for the Python side and `Fetched` for the client. A body that is not JSON is unreadable, and a call that gets one fails, as `response.json()` rejects it.
- Transport.Classify: a body that is well-formed JSON of another shape is not modelled. The code does not check the shape, so `response.json()` accepts it, and the page would then store `data.response` as `undefined` rather than the apology. The model only has bodies of the expected shape.
- Streamlit's caching of the course, listing and grade calls is left out, because a cache hit returns what a fresh call would.
- The embedding model and the vector index are left out, because they are foreign libraries over floating point. `search` is modelled from the row of labels the index returns. `initialize_index` is reduced to the list of course ids it returns; its `course_id or name` choice and the text it embeds are left out.
- Gemini is left out: the calls, the prompts, and the chat object's own growing history. The answer is an input. The only Gemini state modelled is the history a chat is started with.
- The case where `generate_response` raises (a Gemini error) is left out, because its cause is foreign.
- The 5-second rotation period is not modelled; each firing of the interval is one abstract event.
- `search`'s default `k = 5` is not a constant of the model; `k` is the length of the label row the index returns.
- Randomness, the clock and uuids are parameters: `factChoice`, `now`, `hour`, `currentYear` and `freshId`.
- Rendering and layout are left out: the Streamlit and React markup, auto-scroll, the static links and dates, `ChatMessage.tsx`, and `cn` in `lib/utils.ts`.
- `torch_initialization`, `load_model` and the code after early `return`s are left out; they are unreachable or not logic.
- The course-code scanner and `str.upper()` are ASCII-only. Python's `\w`, `\d` and upper-casing on other scripts are not modelled.
- Grades.ParseInt: digits are ASCII only, because Python's acceptance of other Unicode decimal digits is not modelled.
- PlanetTerpData.Review: a `created` value of `null` is not modelled. Python would raise `TypeError` comparing it with a string.
- Session.Gather: a course whose `professors` value is `null` is not modelled; Python would raise `TypeError`. A missing key is the empty list.
- Session.CourseGrades: a grades answer that is a JSON object without an `"error"` key is not modelled.
- Ratings.RatingBand: ratings are exact reals, not floating point.
- The exact interleaving of overlapping asynchronous completions and React's batching of state updates are left out. Each handler reads the state of the render it belongs to; settle steps apply to the state current when they run.
- The `now` timestamps of client messages are abstract integers; their formatting is not modelled.
- The emoji strings are the characters the source file holds, which are a mis-decoding of the intended emoji. The model keeps them as written and proves only that they are distinct.
