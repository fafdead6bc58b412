/** The Streamlit session store of app.py: the open chat, the saved chats,
    the course context of the last query, and the transitions the page runs
    on it (save, new chat, load chat, and one query turn). Clocks, uuids,
    the random fact, the embedding model and Gemini are parameters: `now`
    is the formatted timestamp, `freshId` the new uuid, `factChoice` the
    random draw, `labels` the neighbours the vector index returns and
    `response` the text Gemini answers with. */
module Session {
  import opened Wrappers
  import opened PlanetTerpData
  import CourseIds
  import ChatNaming
  import Ratings
  import Search
  import Grades
  import opened Sorting
  import Greetings

  /** One chat message, `{"role": ..., "content": ...}`. */
  datatype Message = Message(role: string, content: string)

  /** A `saved_chats` entry; `timestamp` is when it was last saved. */
  datatype SavedChat = SavedChat(name: string, messages: seq<Message>, timestamp: string)

  /** One entry of the history a Gemini chat is started with. */
  datatype HistoryEntry = HistoryEntry(role: string, parts: seq<string>)

  /** `st.session_state`. `index` is the vector index, reduced to the course
      ids it was built from (`None` until it is built); `startHistory` is
      the history the current Gemini chat was started with. */
  datatype State = State(
    messages: seq<Message>,
    startHistory: seq<HistoryEntry>,
    context: Context,
    index: Option<seq<string>>,
    savedChats: map<string, SavedChat>,
    chatId: string,
    chatName: string,
    firstVisit: bool,
    currentFact: string)

  /** The name of a chat that has not been named yet. */
  const NewChatName := "New Chat"

  /** The facts `get_random_umd_fact` draws from. */
  const UmdFacts: seq<string> := [
    "UMD's mascot Testudo is a diamondback terrapin, Maryland's state reptile.",
    "McKeldin Mall is the largest academic mall in the country.",
    "UMD has the oldest continuously operating airport in the world - College Park Airport.",
    "UMD's school colors (red, white, black, and gold) come from the Maryland state flag.",
    "UMD's campus spans over 1,300 acres.",
    "The 'M Circle' flowerbed is 57 feet in diameter.",
    "UMD is one of only 62 members of the Association of American Universities.",
    "The Xfinity Center can hold over 17,000 fans for basketball games.",
    "UMD's campus has over 8,000 trees of 400+ species.",
    "Morrill Hall is UMD's oldest academic building, completed in 1898.",
    "The Clarice Smith Performing Arts Center covers 318,000 square feet.",
    "The fear of turtles is called chelonaphobia.",
    "Testudo statues around campus are considered good luck, especially during finals week."
  ]

  /** `get_random_umd_fact()` for the random draw `choice`: always one of
      the listed facts, and every fact can be drawn. */
  function RandomFact(choice: nat): (f: string)
    ensures f in UmdFacts
    ensures choice < |UmdFacts| ==> f == UmdFacts[choice]
  {
    assert |UmdFacts| == 13;
    var i := choice % 13;
    assert choice < 13 ==> i == choice;
    IndexIsMember(UmdFacts, i);
    UmdFacts[i]
  }

  lemma IndexIsMember<T>(s: seq<T>, i: nat)
    requires i < |s|
    ensures s[i] in s
  {
  }

  /** Python's `s[:n]`. */
  function Take<T>(s: seq<T>, n: nat): (r: seq<T>)
    ensures |r| <= n && |r| <= |s|
    ensures r == s[..|r|]
    ensures |s| <= n ==> r == s
  {
    if |s| <= n then s else s[..n]
  }

  // ---------------------------------------------------------------------
  // Session start
  // ---------------------------------------------------------------------

  /** The state the page sets up on a fresh session. */
  function Init(freshId: string, factChoice: nat): (s: State)
    ensures s.messages == [] && s.startHistory == [] && s.context == EmptyContext
    ensures s.index.None? && s.savedChats == map[]
    ensures s.chatId == freshId && s.chatName == NewChatName && s.firstVisit
    ensures s.currentFact in UmdFacts
  {
    State([], [], EmptyContext, None, map[], freshId, NewChatName, true, RandomFact(factChoice))
  }

  /** The welcome line of a first visit at hour `hour`: shown, with the
      greeting of the hour, on the first run of the page only. */
  function Welcome(s: State, hour: int): (r: (Option<string>, State))
    ensures r.0.Some? <==> s.firstVisit
    ensures r.0.Some? ==> r.0.value == Greetings.Greeting(hour)
    ensures r.1 == s.(firstVisit := false)
  {
    if s.firstVisit then (Some(Greetings.Greeting(hour)), s.(firstVisit := false)) else (None, s)
  }

  /** The welcome is shown once: a second run shows nothing and changes
      nothing, whatever the hour. */
  lemma WelcomeOnce(s: State, hour1: int, hour2: int)
    ensures Welcome(Welcome(s, hour1).1, hour2) == (None, Welcome(s, hour1).1)
  {
  }

  // ---------------------------------------------------------------------
  // save_current_chat
  // ---------------------------------------------------------------------

  /** `next((m["content"] for m in messages if m["role"] == "user"), None)`. */
  function FirstUserMessage(msgs: seq<Message>): (r: Option<string>)
    ensures r.None? <==> forall i :: 0 <= i < |msgs| ==> msgs[i].role != "user"
    ensures r.Some? ==> exists i :: 0 <= i < |msgs| && msgs[i].role == "user" && msgs[i].content == r.value
                          && forall j :: 0 <= j < i ==> msgs[j].role != "user"
  {
    if |msgs| == 0 then None
    else if msgs[0].role == "user" then Some(msgs[0].content)
    else
      var r := FirstUserMessage(msgs[1..]);
      assert forall i :: 1 <= i < |msgs| ==> msgs[i] == msgs[1..][i - 1];
      if r.Some? then
        var i :| 0 <= i < |msgs[1..]| && msgs[1..][i].role == "user" && msgs[1..][i].content == r.value
                 && forall j :: 0 <= j < i ==> msgs[1..][j].role != "user";
        assert msgs[i + 1] == msgs[1..][i];
        assert forall j :: 0 <= j < i + 1 ==> msgs[j].role != "user" by {
          forall j | 0 <= j < i + 1 ensures msgs[j].role != "user" {
            if j > 0 { assert msgs[j] == msgs[1..][j - 1]; }
          }
        }
        r
      else r
  }

  /** The chat has a first user message and it is not empty (Python truthiness). */
  predicate HasNamingMessage(msgs: seq<Message>) {
    FirstUserMessage(msgs).Some? && |FirstUserMessage(msgs).value| > 0
  }

  /** `save_current_chat()` at time `now`. An empty chat is not saved. A
      non-empty one is stored under its id with a copy of its messages,
      after an unnamed chat takes the name `generate_chat_name` gives its
      first user message (when that message exists and is not empty); no
      other saved chat and no other field changes. */
  function Save(s: State, now: string): (r: State)
    ensures |s.messages| == 0 ==> r == s
    ensures |s.messages| > 0 ==>
      r.savedChats == s.savedChats[s.chatId := SavedChat(r.chatName, s.messages, now)]
    ensures r.chatName != s.chatName ==>
      && |s.messages| > 0 && s.chatName == NewChatName && HasNamingMessage(s.messages)
      && r.chatName == ChatNaming.ChatName(FirstUserMessage(s.messages).value)
    ensures |s.messages| > 0 && s.chatName == NewChatName && HasNamingMessage(s.messages) ==>
      r.chatName == ChatNaming.ChatName(FirstUserMessage(s.messages).value)
    ensures r.(chatName := s.chatName, savedChats := s.savedChats) == s
  {
    if |s.messages| == 0 then s
    else
      var name :=
        if s.chatName == NewChatName && HasNamingMessage(s.messages)
        then ChatNaming.ChatName(FirstUserMessage(s.messages).value)
        else s.chatName;
      s.(chatName := name,
         savedChats := s.savedChats[s.chatId := SavedChat(name, s.messages, now)])
  }

  /** Saving twice at the same time is saving once. */
  lemma SaveIdempotent(s: State, now: string)
    ensures Save(Save(s, now), now) == Save(s, now)
  {
  }

  // ---------------------------------------------------------------------
  // start_new_chat
  // ---------------------------------------------------------------------

  /** `start_new_chat()`: the open chat is saved first, then an empty chat
      with a fresh id, the unnamed name, an empty Gemini history, an empty
      context and a newly drawn fact is opened. */
  function StartNewChat(s: State, now: string, freshId: string, factChoice: nat): (r: State)
    ensures r.savedChats == Save(s, now).savedChats
    ensures r.chatId == freshId && r.chatName == NewChatName
    ensures r.messages == [] && r.startHistory == [] && r.context == EmptyContext
    ensures r.currentFact in UmdFacts
    ensures r.index == s.index && r.firstVisit == s.firstVisit
  {
    Save(s, now).(chatId := freshId, chatName := NewChatName, messages := [], startHistory := [],
                  context := EmptyContext, currentFact := RandomFact(factChoice))
  }

  // ---------------------------------------------------------------------
  // load_chat
  // ---------------------------------------------------------------------

  /** The history `load_chat` rebuilds: one entry per message, in order,
      carrying its content; `user` stays `user`, every other role becomes
      `model`. */
  function History(msgs: seq<Message>): (h: seq<HistoryEntry>)
    ensures |h| == |msgs|
    ensures forall i :: 0 <= i < |h| ==>
      && h[i].parts == [msgs[i].content]
      && (h[i].role == "user" <==> msgs[i].role == "user")
      && (h[i].role == "user" || h[i].role == "model")
  {
    seq(|msgs|, i requires 0 <= i < |msgs| =>
      HistoryEntry(if msgs[i].role == "user" then "user" else "model", [msgs[i].content]))
  }

  /** `load_chat(id)` at time `now`. An unknown id changes nothing.
      Otherwise the open chat is saved first and the entry is read AFTER
      that save: its id, name and a copy of its messages become the open
      chat, and the Gemini chat restarts from their history. The context,
      the index and the fact stay. */
  function LoadChat(s: State, id: string, now: string): (r: State)
    ensures id !in s.savedChats ==> r == s
    ensures id in s.savedChats ==>
      var saved := Save(s, now).savedChats;
      && id in saved
      && r.savedChats == saved
      && r.chatId == id
      && r.chatName == saved[id].name
      && r.messages == saved[id].messages
      && r.startHistory == History(saved[id].messages)
      && r.context == s.context && r.index == s.index
      && r.currentFact == s.currentFact && r.firstVisit == s.firstVisit
  {
    if id !in s.savedChats then s
    else
      var t := Save(s, now);
      var entry := t.savedChats[id];
      t.(chatId := id, chatName := entry.name, messages := entry.messages,
         startHistory := History(entry.messages))
  }

  /** A saved chat reads back as it was saved: loading the chat that was
      just saved reopens the same messages under the same name. */
  lemma SaveThenLoadRestores(s: State, now: string, later: string)
    requires |s.messages| > 0
    ensures var t := Save(s, now);
      var u := LoadChat(t, s.chatId, later);
      && u.chatId == s.chatId && u.messages == s.messages && u.chatName == t.chatName
  {
  }

  /** Starting a new chat loses nothing: the chat that was open can be
      loaded back with its messages, whatever id the new chat draws. */
  lemma NewChatThenLoadRestores(s: State, now: string, freshId: string, factChoice: nat, later: string)
    requires |s.messages| > 0
    ensures var t := StartNewChat(s, now, freshId, factChoice);
      var u := LoadChat(t, s.chatId, later);
      && u.chatId == s.chatId && u.messages == s.messages
      && u.chatName == Save(s, now).chatName
      && u.startHistory == History(s.messages)
  {
    var t := StartNewChat(s, now, freshId, factChoice);
    assert Save(t, later) == t;
  }

  // ---------------------------------------------------------------------
  // One query turn
  // ---------------------------------------------------------------------

  /** The PlanetTerp API as a turn sees it. `courseIds` are the ids of the
      `/courses` listing in order (empty when the call fails); `course` is
      the `/course` body, `None` when the call fails or the body is empty;
      `gradeRows` is the `/grades` body, `None` when the call fails or
      answers with an error object; `professor` is the `/professor` body,
      `None` when the call fails or the body is empty; `currentYear` is
      the clock's year. */
  datatype Backend = Backend(
    courseIds: seq<string>,
    course: string -> Option<Course>,
    gradeRows: string -> Option<seq<Grade>>,
    professor: string -> Option<Professor>,
    currentYear: int)

  /** `get_course_grades(id)`: no rows when the call fails, otherwise the
      recent rows, or the `ValueError` of a bad semester. */
  function CourseGrades(b: Backend, id: string): (r: Result<seq<Grade>, PyError>)
    ensures b.gradeRows(id).None? ==> r == Success([])
    ensures b.gradeRows(id).Some? ==>
      r == Grades.FilterRecentGrades(b.gradeRows(id).value, Grades.DefaultYears, b.currentYear)
  {
    match b.gradeRows(id)
    case None => Success([])
    case Some(rows) => Grades.FilterRecentGrades(rows, Grades.DefaultYears, b.currentYear)
  }

  /** `get_professor(name)`: the API's professor, if any, with the reviews
      sorted by date, newest first; nothing else about it changes. */
  function ProfessorFor(b: Backend, name: string): (r: Option<Professor>)
    ensures r.None? <==> b.professor(name).None?
    ensures r.Some? ==> r.value.(reviews := b.professor(name).value.reviews) == b.professor(name).value
    ensures r.Some? ==> (r.value.reviews.None? <==> b.professor(name).value.reviews.None?)
    ensures r.Some? && r.value.reviews.Some? ==>
      var before := b.professor(name).value.reviews.value;
      var after := r.value.reviews.value;
      && multiset(after) == multiset(before)
      && SortedDesc(after, Grades.CreatedKey)
      && (forall k :: WithKey(after, Grades.CreatedKey, k) == WithKey(before, Grades.CreatedKey, k))
  {
    Grades.SortProfessorReviews(b.professor(name))
  }

  /** The inner loop over a course's professor names: the professors that
      could be fetched, each once per name that yields it, in name order. */
  function ProfessorsFor(b: Backend, names: seq<string>): (r: seq<Professor>)
    ensures |r| <= |names|
    ensures forall p :: p in r ==> exists n :: n in names && ProfessorFor(b, n) == Some(p)
    ensures forall n :: n in names && ProfessorFor(b, n).Some? ==> ProfessorFor(b, n).value in r
  {
    if |names| == 0 then []
    else
      var rest := ProfessorsFor(b, names[1..]);
      assert forall n :: n in names[1..] ==> n in names;
      assert forall n :: n in names ==> n == names[0] || n in names[1..];
      match ProfessorFor(b, names[0])
      case Some(p) => [p] + rest
      case None => rest
  }

  /** Looking up one more name appends its professor, if it has one, after
      those of the earlier names: the result keeps the order of the names. */
  lemma {:induction false} ProfessorsForSnoc(b: Backend, names: seq<string>, n: string)
    ensures ProfessorsFor(b, names + [n])
         == ProfessorsFor(b, names) + (if ProfessorFor(b, n).Some? then [ProfessorFor(b, n).value] else [])
    decreases |names|
  {
    if |names| == 0 {
      assert names + [n] == [n];
    } else {
      assert (names + [n])[1..] == names[1..] + [n];
      ProfessorsForSnoc(b, names[1..], n);
    }
  }

  /** The loop over `all_course_ids[:3]`: every course that could be fetched
      adds itself, its 5 most recent grade rows and the professors of its
      first 5 names that could be fetched. It raises exactly when a fetched
      course has a grade row with an unreadable semester. */
  function Gather(b: Backend, ids: seq<string>): (r: Result<Context, PyError>)
    ensures r.Failure? <==> exists i :: 0 <= i < |ids| && b.course(ids[i]).Some? && CourseGrades(b, ids[i]).Failure?
    ensures r.Success? ==> |r.value.courses| <= |ids|
    ensures r.Success? ==> |r.value.grades| <= 5 * |r.value.courses|
    ensures r.Success? ==> |r.value.professors| <= 5 * |r.value.courses|
    ensures r.Success? ==> forall c :: c in r.value.courses ==> exists id :: id in ids && b.course(id) == Some(c)
    ensures r.Success? ==> forall id :: id in ids && b.course(id).Some? ==> b.course(id).value in r.value.courses
    ensures r.Success? ==> forall g :: g in r.value.grades ==>
      exists id :: id in ids && b.course(id).Some? && CourseGrades(b, id).Success? && g in Take(CourseGrades(b, id).value, 5)
    ensures r.Success? ==> forall id :: id in ids && b.course(id).Some? ==>
      CourseGrades(b, id).Success? && forall g :: g in Take(CourseGrades(b, id).value, 5) ==> g in r.value.grades
    ensures r.Success? ==> forall p :: p in r.value.professors ==>
      exists c, n :: c in r.value.courses && n in Take(c.professors, 5) && ProfessorFor(b, n) == Some(p)
    ensures r.Success? ==> forall c, n :: c in r.value.courses && n in Take(c.professors, 5) && ProfessorFor(b, n).Some? ==>
      ProfessorFor(b, n).value in r.value.professors
  {
    if |ids| == 0 then Success(EmptyContext)
    else
      var rest := Gather(b, ids[1..]);
      assert forall i :: 1 <= i < |ids| ==> ids[i] == ids[1..][i - 1];
      assert forall id :: id in ids[1..] ==> id in ids;
      assert forall id :: id in ids ==> id == ids[0] || id in ids[1..];
      match b.course(ids[0])
      case None =>
        assert rest.Failure? ==> exists i :: 0 <= i < |ids| && b.course(ids[i]).Some? && CourseGrades(b, ids[i]).Failure? by {
          if rest.Failure? {
            var i :| 0 <= i < |ids[1..]| && b.course(ids[1..][i]).Some? && CourseGrades(b, ids[1..][i]).Failure?;
            assert ids[i + 1] == ids[1..][i];
          }
        }
        rest
      case Some(c) =>
        match CourseGrades(b, ids[0])
        case Failure(e) => Failure(e)
        case Success(g) =>
          match rest
          case Failure(e) =>
            assert exists i :: 0 <= i < |ids| && b.course(ids[i]).Some? && CourseGrades(b, ids[i]).Failure? by {
              var i :| 0 <= i < |ids[1..]| && b.course(ids[1..][i]).Some? && CourseGrades(b, ids[1..][i]).Failure?;
              assert ids[i + 1] == ids[1..][i];
            }
            Failure(e)
          case Success(more) =>
            var profs := ProfessorsFor(b, Take(c.professors, 5));
            Success(Context([c] + more.courses, profs + more.professors, Take(g, 5) + more.grades))
  }

  /** One pass of the loop body over `all_course_ids[:3]`, applied to the
      data gathered so far: a course that could be fetched appends itself,
      its 5 most recent grade rows and the fetched professors of its first
      5 names. */
  function AddCourse(b: Backend, ctx: Context, id: string): Result<Context, PyError> {
    match b.course(id)
    case None => Success(ctx)
    case Some(c) =>
      match CourseGrades(b, id)
      case Failure(e) => Failure(e)
      case Success(g) =>
        Success(Context(ctx.courses + [c], ctx.professors + ProfessorsFor(b, Take(c.professors, 5)), ctx.grades + Take(g, 5)))
  }

  /** The loop run on `ids` and then on one more id: an earlier raise
      stops it, otherwise the body runs once more. */
  function Then(b: Backend, r: Result<Context, PyError>, id: string): Result<Context, PyError> {
    if r.Failure? then r else AddCourse(b, r.value, id)
  }

  /** The data of one id placed in front of what the later ids gathered:
      the recursive step of `Gather`. */
  function Prepend(b: Backend, id: string, rest: Result<Context, PyError>): Result<Context, PyError> {
    match b.course(id)
    case None => rest
    case Some(c) =>
      match CourseGrades(b, id)
      case Failure(e) => Failure(e)
      case Success(g) =>
        match rest
        case Failure(e) => Failure(e)
        case Success(more) =>
          Success(Context([c] + more.courses, ProfessorsFor(b, Take(c.professors, 5)) + more.professors, Take(g, 5) + more.grades))
  }

  /** `Gather` is the loop of the source run in order: an id at the end
      either raises, leaves the data alone, or appends exactly its own
      course, at most 5 of its grade rows and at most 5 of its professors
      after everything the earlier ids gathered. An earlier raise stops
      the loop. */
  lemma {:induction false} GatherSnoc(b: Backend, ids: seq<string>, id: string)
    ensures Gather(b, ids + [id]) == Then(b, Gather(b, ids), id)
    decreases |ids|
  {
    if |ids| == 0 {
      GatherOne(b, id);
    } else {
      var ids' := ids + [id];
      assert ids'[0] == ids[0];
      assert ids'[1..] == ids[1..] + [id];
      GatherSnoc(b, ids[1..], id);
      GatherUnfold(b, ids');
      GatherUnfold(b, ids);
      PrependThen(b, ids[0], Gather(b, ids[1..]), id);
    }
  }

  /** Putting one id in front commutes with running the body for a last id. */
  lemma PrependThen(b: Backend, first: string, rest: Result<Context, PyError>, id: string)
    ensures Prepend(b, first, Then(b, rest, id)) == Then(b, Prepend(b, first, rest), id)
  {
    if b.course(first).Some? && CourseGrades(b, first).Success? && rest.Success? && b.course(id).Some? && CourseGrades(b, id).Success? {
      var c, g, more := b.course(first).value, CourseGrades(b, first).value, rest.value;
      var c2, g2 := b.course(id).value, CourseGrades(b, id).value;
      var p, p2 := ProfessorsFor(b, Take(c.professors, 5)), ProfessorsFor(b, Take(c2.professors, 5));
      assert [c] + (more.courses + [c2]) == ([c] + more.courses) + [c2];
      assert p + (more.professors + p2) == (p + more.professors) + p2;
      assert Take(g, 5) + (more.grades + Take(g2, 5)) == (Take(g, 5) + more.grades) + Take(g2, 5);
    }
  }

  /** The loop over a single id is one pass of its body. */
  lemma GatherOne(b: Backend, id: string)
    ensures Gather(b, [id]) == AddCourse(b, EmptyContext, id)
  {
    assert [id][1..] == [];
    GatherUnfold(b, [id]);
    if b.course(id).Some? && CourseGrades(b, id).Success? {
      var c, g := b.course(id).value, CourseGrades(b, id).value;
      var profs := ProfessorsFor(b, Take(c.professors, 5));
      assert [c] + [] == [] + [c];
      assert profs + [] == [] + profs;
      assert Take(g, 5) + [] == [] + Take(g, 5);
    }
  }

  /** One unfolding of `Gather`. */
  lemma GatherUnfold(b: Backend, ids: seq<string>)
    requires |ids| > 0
    ensures Gather(b, ids) == Prepend(b, ids[0], Gather(b, ids[1..]))
  {
  }

  /** Each step of the loop adds at most 5 grade rows and at most 5
      professors, and only with the course they belong to. */
  lemma AddCourseBounds(b: Backend, ctx: Context, id: string)
    ensures AddCourse(b, ctx, id).Success? ==>
      var r := AddCourse(b, ctx, id).value;
      && r.courses[..|ctx.courses|] == ctx.courses
      && r.grades[..|ctx.grades|] == ctx.grades
      && r.professors[..|ctx.professors|] == ctx.professors
      && |r.courses| - |ctx.courses| <= 1
      && |r.grades| - |ctx.grades| <= 5 * (|r.courses| - |ctx.courses|)
      && |r.professors| - |ctx.professors| <= 5 * (|r.courses| - |ctx.courses|)
  {
  }

  /** The course ids a query is answered from: the codes written in it, or,
      only when there are none, what `search` finds. */
  function CandidateIds(index: Option<seq<string>>, query: string, labels: seq<int>): (r: Result<seq<string>, PyError>)
    ensures |CourseIds.ExtractCourseIds(query)| > 0 ==> r == Success(CourseIds.ExtractCourseIds(query))
    ensures |CourseIds.ExtractCourseIds(query)| == 0 ==> r == Search.SearchSpec(index.Some?, labels, index.GetOr([]))
  {
    var direct := CourseIds.ExtractCourseIds(query);
    if |direct| > 0 then Success(direct)
    else
      match Search.SearchSpec(index.Some?, labels, index.GetOr([]))
      case Failure(e) => Failure(e)
      case Success(semantic) =>
        assert direct + semantic == semantic;
        Success(direct + semantic)
  }

  /** `ensure_index_initialized()`: the index is built once, from a
      non-empty course listing. */
  function EnsureIndex(s: State, b: Backend): (r: State)
    ensures s.index.Some? ==> r == s
    ensures s.index.None? ==> r == s.(index := if |b.courseIds| > 0 then Some(b.courseIds) else None)
  {
    if s.index.None? && |b.courseIds| > 0 then s.(index := Some(b.courseIds)) else s
  }

  /** The index is built at most once per session: a second call changes
      nothing, whatever the backend reports then, and once built the index
      is exactly the backend's course list of that time. */
  lemma EnsureIndexOnce(s: State, b: Backend, b2: Backend)
    ensures EnsureIndex(s, b).index.None? <==> s.index.None? && |b.courseIds| == 0
    ensures EnsureIndex(s, b).index.Some? ==> EnsureIndex(EnsureIndex(s, b), b2) == EnsureIndex(s, b)
    ensures EnsureIndex(s, b).index.Some? && s.index.None? ==> EnsureIndex(s, b).index.value == b.courseIds
  {
  }

  /** How a turn ends: it completes, or Python raises part-way and the
      state keeps what was done before. */
  datatype TurnResult = Completed(state: State) | Raised(state: State, error: PyError)

  /** One run of the `st.chat_input` branch for `query`; an empty input
      fails the walrus test and the branch does not run. */
  function QueryTurn(s: State, query: string, b: Backend, labels: seq<int>, response: string, now: string): (r: TurnResult)
  {
    if query == "" then Completed(s)
    else
      var s1 := EnsureIndex(s.(messages := s.messages + [Message("user", query)]), b);
      match CandidateIds(s1.index, query, labels)
      case Failure(e) => Raised(s1, e)
      case Success(ids) =>
        match Gather(b, Take(ids, 3))
        case Failure(e) => Raised(s1, e)
        case Success(data) =>
          var s2 := s1.(context := data.(professors := Ratings.AnnotateProfessors(data.professors)),
                        messages := s1.messages + [Message("assistant", response)]);
          if s2.chatName == NewChatName then Completed(Save(s2.(chatName := ChatNaming.ChatName(query)), now))
          else Completed(s2)
  }

  /** A turn appends the query and then the answer; if it raises, only the
      query has been appended. The id, the fact, the Gemini start history
      and the first-visit flag never change. */
  lemma QueryTurnMessages(s: State, query: string, b: Backend, labels: seq<int>, response: string, now: string)
    ensures query == "" ==> QueryTurn(s, query, b, labels, response, now) == Completed(s)
    ensures var r := QueryTurn(s, query, b, labels, response, now);
      && (query != "" && r.Completed? ==> r.state.messages == s.messages + [Message("user", query), Message("assistant", response)])
      && (r.Raised? ==> query != "" && r.state.messages == s.messages + [Message("user", query)])
      && r.state.chatId == s.chatId && r.state.currentFact == s.currentFact
      && r.state.startHistory == s.startHistory && r.state.firstVisit == s.firstVisit
  {
  }

  /** A turn that completes leaves the context gathered for the first 3
      candidate ids: every course found for one of them and no other, at
      most 5 recent grade rows of each such course (all of them when it has
      fewer), and the professors of the first 5 names of each course, each
      annotated with its rating emoji. A turn that raises, or an empty
      input, leaves the context alone. */
  lemma QueryTurnContext(s: State, query: string, b: Backend, labels: seq<int>, response: string, now: string)
    ensures var r := QueryTurn(s, query, b, labels, response, now);
      var index := EnsureIndex(s, b).index;
      && (r.Raised? ==> r.state.context == s.context)
      && (query == "" ==> r.state.context == s.context)
      && (query != "" && r.Completed? ==>
            var ctx := r.state.context;
            && CandidateIds(index, query, labels).Success?
            && var ids := Take(CandidateIds(index, query, labels).value, 3);
            && |ids| <= 3
            && Gather(b, ids).Success?
            && ctx.courses == Gather(b, ids).value.courses
            && ctx.grades == Gather(b, ids).value.grades
            && ctx.professors == Ratings.AnnotateProfessors(Gather(b, ids).value.professors)
            && |ctx.courses| <= 3
            && |ctx.grades| <= 5 * |ctx.courses|
            && |ctx.professors| <= 5 * |ctx.courses|
            && (forall c :: c in ctx.courses ==> exists id :: id in ids && b.course(id) == Some(c))
            && (forall id :: id in ids && b.course(id).Some? ==> b.course(id).value in ctx.courses)
            && (forall i :: 0 <= i < |ctx.professors| ==> ctx.professors[i].ratingEmoji.Some?))
  {
    var index := EnsureIndex(s, b).index;
    assert EnsureIndex(s.(messages := s.messages + [Message("user", query)]), b).index == index;
    Ratings.AnnotateProfessorsSpec(QueryTurn(s, query, b, labels, response, now).state.context.professors);
  }

  /** The grade rows of `ctx` are recent rows of a course found for one of
      the ids, at most 5 per course, and all of them when it has fewer. */
  predicate GradesGathered(b: Backend, ids: seq<string>, ctx: Context) {
    && (forall g :: g in ctx.grades ==>
          exists id :: id in ids && b.course(id).Some? && CourseGrades(b, id).Success? && g in Take(CourseGrades(b, id).value, 5))
    && (forall id :: id in ids && b.course(id).Some? ==>
          CourseGrades(b, id).Success? && forall g :: g in Take(CourseGrades(b, id).value, 5) ==> g in ctx.grades)
  }

  /** `p` is the annotated professor of one of the first 5 names of a
      course of `courses`. */
  predicate NamedByCourse(b: Backend, courses: seq<Course>, p: Professor) {
    exists c, n :: c in courses && n in Take(c.professors, 5) && ProfessorFor(b, n).Some?
                   && p == Ratings.Annotated(ProfessorFor(b, n).value)
  }

  /** Every professor of `profs` is named by a course of `courses`, and
      every professor a course names is there. */
  predicate ProfessorsGathered(b: Backend, courses: seq<Course>, profs: seq<Professor>) {
    && (forall i :: 0 <= i < |profs| ==> NamedByCourse(b, courses, profs[i]))
    && (forall c, n :: c in courses && n in Take(c.professors, 5) && ProfessorFor(b, n).Some? ==>
          Ratings.Annotated(ProfessorFor(b, n).value) in profs)
  }

  lemma AnnotatedGatherGrades(b: Backend, ids: seq<string>, data: Context)
    requires Gather(b, ids) == Success(data)
    ensures GradesGathered(b, ids, data.(professors := Ratings.AnnotateProfessors(data.professors)))
  {
  }

  lemma AnnotatedGatherProfessors(b: Backend, ids: seq<string>, data: Context)
    requires Gather(b, ids) == Success(data)
    ensures ProfessorsGathered(b, data.courses, Ratings.AnnotateProfessors(data.professors))
  {
    AnnotatedSources(b, data.courses, data.professors);
  }

  /** The annotation carries "comes from a course name" and "every course
      name is there" over to the annotated list. */
  lemma AnnotatedSources(b: Backend, courses: seq<Course>, profs: seq<Professor>)
    requires forall p :: p in profs ==>
      exists c, n :: c in courses && n in Take(c.professors, 5) && ProfessorFor(b, n) == Some(p)
    requires forall c, n :: c in courses && n in Take(c.professors, 5) && ProfessorFor(b, n).Some? ==>
      ProfessorFor(b, n).value in profs
    ensures ProfessorsGathered(b, courses, Ratings.AnnotateProfessors(profs))
  {
    var ann := Ratings.AnnotateProfessors(profs);
    forall i | 0 <= i < |ann|
      ensures NamedByCourse(b, courses, ann[i])
    {
      assert profs[i] in profs;
      var c, n :| c in courses && n in Take(c.professors, 5) && ProfessorFor(b, n) == Some(profs[i]);
      assert ann[i] == Ratings.Annotated(ProfessorFor(b, n).value);
    }
    forall c, n | c in courses && n in Take(c.professors, 5) && ProfessorFor(b, n).Some?
      ensures Ratings.Annotated(ProfessorFor(b, n).value) in ann
    {
      var i :| 0 <= i < |profs| && profs[i] == ProfessorFor(b, n).value;
      assert ann[i] == Ratings.Annotated(profs[i]);
    }
  }

  /** The context of a completed turn holds what was gathered for the first
      3 candidate ids: `GradesGathered` and `ProfessorsGathered`. */
  lemma QueryTurnContextContents(s: State, query: string, b: Backend, labels: seq<int>, response: string, now: string)
    requires query != "" && QueryTurn(s, query, b, labels, response, now).Completed?
    ensures GradesGathered(b, Take(CandidateIds(EnsureIndex(s, b).index, query, labels).value, 3),
                           QueryTurn(s, query, b, labels, response, now).state.context)
    ensures var ctx := QueryTurn(s, query, b, labels, response, now).state.context;
      ProfessorsGathered(b, ctx.courses, ctx.professors)
  {
    QueryTurnContext(s, query, b, labels, response, now);
    var ids := Take(CandidateIds(EnsureIndex(s, b).index, query, labels).value, 3);
    AnnotatedGatherGrades(b, ids, Gather(b, ids).value);
    AnnotatedGatherProfessors(b, ids, Gather(b, ids).value);
  }

  /** An unnamed chat is named after its first query and saved by the turn
      that answers it, whatever name that gives; a named chat keeps its
      name and the saved chats stay as they were. */
  lemma QueryTurnNaming(s: State, query: string, b: Backend, labels: seq<int>, response: string, now: string)
    ensures var r := QueryTurn(s, query, b, labels, response, now);
      && (s.chatName != NewChatName ==> r.state.chatName == s.chatName && r.state.savedChats == s.savedChats)
      && (r.Raised? ==> r.state.chatName == s.chatName && r.state.savedChats == s.savedChats)
      && (query != "" && r.Completed? && s.chatName == NewChatName ==>
            r.state.savedChats == s.savedChats[s.chatId := SavedChat(r.state.chatName, r.state.messages, now)])
      && (query != "" && r.Completed? && s.chatName == NewChatName && ChatNaming.ChatName(query) != NewChatName ==>
            r.state.chatName == ChatNaming.ChatName(query))
      && (query != "" && r.Completed? && s.chatName == NewChatName && ChatNaming.ChatName(query) == NewChatName ==>
            r.state.chatName == (if HasNamingMessage(r.state.messages)
                                 then ChatNaming.ChatName(FirstUserMessage(r.state.messages).value)
                                 else NewChatName))
  {
  }

  /** Semantic search only runs when the query names no course code: the
      neighbour labels then cannot change the turn. */
  lemma DirectIdsSkipSearch(s: State, query: string, b: Backend, labels1: seq<int>, labels2: seq<int>, response: string, now: string)
    requires |CourseIds.ExtractCourseIds(query)| > 0
    ensures QueryTurn(s, query, b, labels1, response, now) == QueryTurn(s, query, b, labels2, response, now)
  {
  }

  // ---------------------------------------------------------------------
  // The saved chats across all operations
  // ---------------------------------------------------------------------

  /** Every saved chat holds at least one message. */
  predicate SavedNonEmpty(s: State) {
    forall id :: id in s.savedChats ==> |s.savedChats[id].messages| > 0
  }

  /** Every operation keeps `SavedNonEmpty` and never drops a saved chat:
      saved chats are only ever added or overwritten. */
  lemma OperationsKeepSavedChats(s: State, now: string, freshId: string, factChoice: nat, id: string,
                                 query: string, b: Backend, labels: seq<int>, response: string)
    requires SavedNonEmpty(s)
    ensures SavedNonEmpty(Init(freshId, factChoice))
    ensures SavedNonEmpty(Save(s, now)) && s.savedChats.Keys <= Save(s, now).savedChats.Keys
    ensures var r := StartNewChat(s, now, freshId, factChoice);
      SavedNonEmpty(r) && s.savedChats.Keys <= r.savedChats.Keys
    ensures var r := LoadChat(s, id, now);
      SavedNonEmpty(r) && s.savedChats.Keys <= r.savedChats.Keys
    ensures var r := QueryTurn(s, query, b, labels, response, now).state;
      SavedNonEmpty(r) && s.savedChats.Keys <= r.savedChats.Keys
  {
    QueryTurnKeepsSavedChats(s, query, b, labels, response, now);
  }

  /** A query turn keeps `SavedNonEmpty` and every saved chat id. */
  lemma QueryTurnKeepsSavedChats(s: State, query: string, b: Backend, labels: seq<int>, response: string, now: string)
    requires SavedNonEmpty(s)
    ensures var r := QueryTurn(s, query, b, labels, response, now).state;
      SavedNonEmpty(r) && s.savedChats.Keys <= r.savedChats.Keys
  {
    QueryTurnNaming(s, query, b, labels, response, now);
    QueryTurnMessages(s, query, b, labels, response, now);
  }
}
