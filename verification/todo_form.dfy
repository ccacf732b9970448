/** The page that creates a todo or edits an existing one: the form's
    defaults, loading a stored todo into the form, turning the comma-separated
    tags text into a list, and the request the form sends. */
module TodoForm {
  import opened Maybe
  import opened Text
  import opened Records
  import opened Api
  import opened Wire
  import TodoService
  import TodoQueries
  import TodoList

  /** The form's inputs. `dueDate` is the day in the date input, as the UTC
      midnight that starts it, `None` when empty (the `YYYY-MM-DD` text
      itself is not modelled); `tags` is the raw text of the tags input. */
  datatype Form = Form(
    title: string,
    description: string,
    category: string,
    priority: string,
    dueDate: Option<Time>,
    tags: string,
    completed: bool)

  /** The page: the form, the error banner (`""` when none), whether a save
      is in flight, and where the page has been sent: the login form, or
      back to the list after a save. */
  datatype Page = Page(form: Form, error: string, loading: bool, toLogin: bool, toList: bool)

  const LoadFailed: string := "Failed to load todo"
  const SaveFailed: string := "Failed to save todo"
  const TodosPath: string := "/api/todos"

  /** The form a new todo starts from. */
  const Initial: Form := Form("", "", "general", "medium", None, "", false)

  /** The page as first shown. */
  const Opened: Page := Page(Initial, "", false, false, false)

  // ---------------------------------------------------------------- tags

  /** What a parsed tag looks like: non-empty, trimmed, without a comma. */
  predicate WellFormedTag(t: string) {
    t != "" && Trimmed(t) && ',' !in t
  }

  predicate WellFormedTags(tags: seq<string>) {
    forall k :: 0 <= k < |tags| ==> WellFormedTag(tags[k])
  }

  /** `pieces.map(p => p.trim()).filter(p => p)`. */
  function KeepTags(pieces: seq<string>): (tags: seq<string>)
    ensures forall k :: 0 <= k < |tags| ==> tags[k] != "" && Trimmed(tags[k])
  {
    if pieces == [] then []
    else
      var t := Trim(pieces[0]);
      if t == "" then KeepTags(pieces[1..]) else [t] + KeepTags(pieces[1..])
  }

  /** No string of `ss` holds `c`. */
  predicate Lacks(ss: seq<string>, c: char) {
    forall m :: 0 <= m < |ss| ==> c !in ss[m]
  }

  /** A character no piece holds is in no tag. */
  lemma {:induction false} KeepTagsKeepOut(pieces: seq<string>, c: char)
    requires Lacks(pieces, c)
    ensures Lacks(KeepTags(pieces), c)
  {
    if pieces != [] {
      var t, rest := Trim(pieces[0]), KeepTags(pieces[1..]);
      assert c !in pieces[0];
      assert Lacks(pieces[1..], c) by {
        forall m | 0 <= m < |pieces| - 1 ensures c !in pieces[1..][m] {
          assert pieces[1..][m] == pieces[m + 1];
        }
      }
      KeepTagsKeepOut(pieces[1..], c);
      if t != "" {
        var tags := [t] + rest;
        forall k | 0 <= k < |tags| ensures c !in tags[k] {
          if k > 0 {
            assert tags[k] == rest[k - 1];
          }
        }
      }
    }
  }

  /** `tags.split(',').map(tag => tag.trim()).filter(tag => tag)`: every
      tag it yields is non-empty, trimmed and free of commas. */
  function ParseTags(text: string): (tags: seq<string>)
    ensures WellFormedTags(tags)
  {
    KeepTagsKeepOut(Split(text, ','), ',');
    KeepTags(Split(text, ','))
  }

  /** Keeping the tags of two runs of pieces is keeping each in turn. */
  lemma {:induction false} KeepTagsAppend(a: seq<string>, b: seq<string>)
    ensures KeepTags(a + b) == KeepTags(a) + KeepTags(b)
  {
    if a == [] {
      assert a + b == b;
    } else {
      assert (a + b)[0] == a[0] && (a + b)[1..] == a[1..] + b;
      KeepTagsAppend(a[1..], b);
    }
  }

  /** Parsing keeps the order of the text: the tags on either side of a
      comma come in that order. */
  lemma ParseTagsAppend(a: string, b: string)
    ensures ParseTags(a + "," + b) == ParseTags(a) + ParseTags(b)
  {
    SplitAppend(a, b, ',');
    assert a + "," + b == a + [','] + b;
    KeepTagsAppend(Split(a, ','), Split(b, ','));
  }

  /** The text holds only commas and whitespace. */
  predicate Blank(text: string) {
    forall i :: 0 <= i < |text| ==> text[i] == ',' || IsSpace(text[i])
  }

  /** A text without commas is blank exactly when it is all whitespace. */
  lemma BlankWithoutComma(text: string)
    requires ',' !in text
    ensures Blank(text) <==> AllSpace(text)
  {
    assert forall i :: 0 <= i < |text| ==> text[i] != ',';
  }

  /** A text is blank exactly when both sides of one of its commas are. */
  lemma BlankAround(text: string, j: nat)
    requires j < |text| && text[j] == ','
    ensures Blank(text) <==> Blank(text[..j]) && Blank(text[j + 1..])
  {
    var head, rest := text[..j], text[j + 1..];
    assert forall i :: 0 <= i < |head| ==> head[i] == text[i];
    assert forall i :: 0 <= i < |rest| ==> rest[i] == text[j + 1 + i];
    if Blank(head) && Blank(rest) {
      forall i | 0 <= i < |text| ensures text[i] == ',' || IsSpace(text[i]) {
        if i < j {
          assert text[i] == head[i];
        } else if j < i {
          assert text[i] == rest[i - j - 1];
        }
      }
    }
  }

  /** The tags of a first piece and the rest. */
  lemma KeepTagsCons(p: string, ps: seq<string>)
    ensures KeepTags([p] + ps) == (if Trim(p) == "" then [] else [Trim(p)]) + KeepTags(ps)
  {
    assert ([p] + ps)[0] == p && ([p] + ps)[1..] == ps;
  }

  /** Parsing yields no tag at all exactly when the text holds nothing but
      commas and whitespace. */
  lemma {:induction false} NoTagsExactlyWhenBlank(text: string)
    ensures ParseTags(text) == [] <==> Blank(text)
    decreases |text|
  {
    if ',' !in text {
      assert Split(text, ',') == [text] + [];
      KeepTagsCons(text, []);
      assert KeepTags([]) == [];
      BlankWithoutComma(text);
    } else {
      var j := IndexOf(text, ',');
      var head, rest := text[..j], text[j + 1..];
      assert Split(text, ',') == [head] + Split(rest, ',');
      KeepTagsCons(head, Split(rest, ','));
      NoTagsExactlyWhenBlank(rest);
      BlankWithoutComma(head);
      BlankAround(text, j);
    }
  }

  /** Whitespace in front of the first piece does not change the tags. */
  lemma LeadingSpaceInPiece(c: char, first: string, others: seq<string>)
    requires IsSpace(c)
    ensures KeepTags([[c] + first] + others) == KeepTags([first] + others)
  {
    TrimSkipsLeadingSpace(c, first);
    KeepTagsCons([c] + first, others);
    KeepTagsCons(first, others);
  }

  /** Whitespace in front of the text does not change the tags. */
  lemma LeadingSpaceIgnored(c: char, text: string)
    requires IsSpace(c)
    ensures ParseTags([c] + text) == ParseTags(text)
  {
    var pieces := Split(text, ',');
    var first, others := pieces[0], pieces[1..];
    SplitCons(c, text, ',');
    LeadingSpaceInPiece(c, first, others);
    assert pieces == [first] + others;
  }

  /** The tags text the form shows for stored tags: `tags.join(', ')`. */
  function TagText(tags: seq<string>): string {
    Join(tags, ", ")
  }

  /** A well-formed tag on its own parses to itself. */
  lemma SingleTag(t: string)
    requires WellFormedTag(t)
    ensures ParseTags(t) == [t]
  {
    assert Split(t, ',') == [t] + [];
    TrimOfTrimmed(t);
    KeepTagsCons(t, []);
    assert KeepTags([]) == [];
  }

  lemma TagTextStep(tags: seq<string>)
    requires |tags| > 1
    ensures TagText(tags) == tags[0] + "," + ([' '] + TagText(tags[1..]))
  {
  }

  /** Showing well-formed tags and parsing the text back gives the same tags,
      in the same order. */
  lemma {:induction false} TagsRoundTrip(tags: seq<string>)
    requires WellFormedTags(tags)
    ensures ParseTags(TagText(tags)) == tags
  {
    if tags == [] {
      NoTagsExactlyWhenBlank("");
    } else if |tags| == 1 {
      assert TagText(tags) == tags[0];
      SingleTag(tags[0]);
    } else {
      var first, rest := tags[0], tags[1..];
      var shown := TagText(rest);
      assert WellFormedTags(rest);
      TagTextStep(tags);
      ParseTagsAppend(first, [' '] + shown);
      SingleTag(first);
      LeadingSpaceIgnored(' ', shown);
      TagsRoundTrip(rest);
      assert ParseTags(TagText(tags)) == [first] + rest;
      assert tags == [first] + rest;
    }
  }

  /** Tags the form once produced survive being shown and saved again. */
  lemma ReparseIsStable(text: string)
    ensures ParseTags(TagText(ParseTags(text))) == ParseTags(text)
  {
    TagsRoundTrip(ParseTags(text));
  }

  // ---------------------------------------------------------------- loading

  const DayMs: int := 86400000

  /** The day a stored due date shows in the date input: the UTC calendar
      day of `toISOString()`, i.e. the midnight at or before `d` (the
      Euclidean `%` rounds down for dates before 1970 too). The server reads
      the `YYYY-MM-DD` text it sends back as that same midnight. */
  function StartOfDay(d: Time): (m: Time)
    ensures m % DayMs == 0 && m <= d < m + DayMs
  {
    d - d % DayMs
  }

  /** `StartOfDay` of an optional date. */
  function DayOf(d: Option<Time>): (r: Option<Time>)
    ensures r.None? <==> d.None?
    ensures d.Some? ==> r == Some(StartOfDay(d.value))
  {
    match d
    case None => None
    case Some(v) => Some(StartOfDay(v))
  }

  /** A date is kept by the date input exactly when it is a UTC midnight. */
  lemma DayOfKeeps(d: Option<Time>)
    ensures DayOf(d) == d <==> d.None? || d.value % DayMs == 0
  {
  }

  /** The form for a stored todo: an empty category or priority shows the
      form's default, the tags are shown joined with `", "`. */
  function LoadForm(t: Todo): (f: Form)
    ensures f.title == t.title && f.description == t.description
    ensures f.dueDate == DayOf(t.dueDate) && f.completed == t.completed
    ensures f.category == (if t.category == "" then Initial.category else t.category)
    ensures f.priority == (if t.priority == "" then Initial.priority else t.priority)
    ensures WellFormedTags(t.tags) ==> ParseTags(f.tags) == t.tags
  {
    assert WellFormedTags(t.tags) ==> ParseTags(TagText(t.tags)) == t.tags by {
      if WellFormedTags(t.tags) {
        TagsRoundTrip(t.tags);
      }
    }
    Form(t.title, t.description,
         if t.category == "" then Initial.category else t.category,
         if t.priority == "" then Initial.priority else t.priority,
         DayOf(t.dueDate), TagText(t.tags), t.completed)
  }

  /** `todos.find(t => t._id === id)`: the first todo with that identifier. */
  function FindById(todos: seq<Todo>, id: TodoId): (r: Option<Todo>)
    ensures r.Some? ==> r.value in todos && r.value.id == id
    ensures r.None? <==> forall i :: 0 <= i < |todos| ==> todos[i].id != id
  {
    if todos == [] then None
    else if todos[0].id == id then Some(todos[0])
    else FindById(todos[1..], id)
  }

  /** `fetchTodo` once the list request settles: the todo with the route's
      identifier fills the form; none leaves the page as it was; a failed
      request, or a reply that is not a list, shows the load error, and a
      401 also sends the user to the login form. */
  function FetchSettled(p: Page, id: TodoId, answer: Call<Reply>): (r: Page)
    ensures answer.Ok? && answer.value.TodoArray? && FindById(answer.value.todos, id).Some? ==>
              r == p.(form := LoadForm(FindById(answer.value.todos, id).value))
    ensures answer.Ok? && answer.value.TodoArray? && FindById(answer.value.todos, id).None? ==> r == p
    ensures answer.Ok? && !answer.value.TodoArray? ==> r == p.(error := LoadFailed)
    ensures answer.Err? ==>
              r == p.(error := LoadFailed, toLogin := p.toLogin || SessionExpired(answer.error))
  {
    match answer
    case Ok(TodoArray(todos)) =>
      (match FindById(todos, id)
       case Some(t) => p.(form := LoadForm(t))
       case None => p)
    case Ok(_) => p.(error := LoadFailed)
    case Err(e) => p.(error := LoadFailed, toLogin := p.toLogin || SessionExpired(e))
  }

  /** A todo of the caller's own store, opened for editing, fills the form
      with that very todo: the unfiltered list the page asks for holds it,
      and identifiers are unique. */
  lemma EditLoadsOwnTodo(caller: UserId, s: Store, t: Todo, p: Page)
    requires UniqueIds(s.todos) && t in s.todos && t.userId == caller
    ensures var answer := Receive(TodoQueries.List(caller, TodoQueries.NoQuery, s).response);
            FetchSettled(p, t.id, answer) == p.(form := LoadForm(t))
  {
    var r := TodoQueries.List(caller, TodoQueries.NoQuery, s).response.reply.todos;
    TodoQueries.ListSelectsExactly(caller, TodoQueries.NoQuery, s, t);
    assert t in r;
    var found := FindById(r, t.id);
    assert found.Some?;
    var x := found.value;
    TodoQueries.ListSelectsExactly(caller, TodoQueries.NoQuery, s, x);
    SameIdSameTodo(s.todos, x, t);
  }

  /** In a store with unique identifiers a todo is known by its identifier. */
  lemma SameIdSameTodo(todos: seq<Todo>, a: Todo, b: Todo)
    requires UniqueIds(todos) && a in todos && b in todos && a.id == b.id
    ensures a == b
  {
    var i :| 0 <= i < |todos| && todos[i] == a;
    var j :| 0 <= j < |todos| && todos[j] == b;
    assert i == j;
  }

  // ---------------------------------------------------------------- saving

  /** The body the form sends: its fields as they are, except the tags,
      which are parsed; an empty date input is sent as no date. */
  function Body(f: Form): (b: Fields)
    ensures b.tags == Some(ParseTags(f.tags))
    ensures b.title == Some(f.title) && b.description == Some(f.description)
    ensures b.category == Some(f.category) && b.priority == Some(f.priority)
    ensures b.dueDate == Some(f.dueDate) && b.completed == Some(f.completed)
    ensures b.userId.None? && b.createdAt.None? && b.updatedAt.None?
  {
    Fields(Some(f.title), Some(f.description), Some(f.category), Some(f.priority),
           Some(f.dueDate), Some(f.completed), None, Some(ParseTags(f.tags)), None, None)
  }

  /** The tags text influences nothing in the body but the tags. */
  lemma OnlyTagsTransformed(f: Form, text: string)
    ensures Body(f.(tags := text)).(tags := None) == Body(f).(tags := None)
    ensures Body(f.(tags := text)).tags == Some(ParseTags(text))
  {
  }

  datatype Method = Post | Put

  datatype Request = Request(verb: Method, path: string, body: Fields)

  /** `Boolean(id)` for the route's `:id` parameter. */
  predicate Editing(routeId: Option<string>) {
    routeId.Some? && routeId.value != ""
  }

  /** The request `handleSubmit` sends: an update of the routed todo when
      editing, a creation otherwise. */
  function SaveRequest(f: Form, routeId: Option<string>): (r: Request)
    ensures r.verb == Put <==> Editing(routeId)
    ensures r.verb == Put ==> r.path == TodoList.TodoPath(routeId.value)
    ensures r.verb == Post ==> r.path == TodosPath
    ensures r.body == Body(f)
  {
    if Editing(routeId) then Request(Put, TodoList.TodoPath(routeId.value), Body(f))
    else Request(Post, TodosPath, Body(f))
  }

  /** `handleSubmit`: the request sent, and the page once `answer` (the
      request's outcome) settles. Success goes back to the list; a failure
      shows the server's message or the fallback, and a 401 sends the user
      to the login form. Either way the page stops loading. */
  function HandleSubmit(p: Page, routeId: Option<string>, answer: Call<Reply>): (out: (Request, Page))
    ensures out.0 == SaveRequest(p.form, routeId)
    ensures !out.1.loading && out.1.form == p.form
    ensures answer.Ok? ==> out.1 == p.(error := "", loading := false, toList := true)
    ensures answer.Err? ==>
              && out.1.error == OrElse(ResponseMessage(answer.error), SaveFailed)
              && out.1.error != ""
              && out.1.toList == p.toList
              && out.1.toLogin == (p.toLogin || SessionExpired(answer.error))
  {
    var sending := p.(loading := true, error := "");
    var r := SaveRequest(p.form, routeId);
    match answer
    case Ok(_) => (r, sending.(loading := false, toList := true))
    case Err(e) =>
      (r, sending.(loading := false, error := OrElse(ResponseMessage(e), SaveFailed),
                   toLogin := sending.toLogin || SessionExpired(e)))
  }

  // ---------------------------------------------------------------- against the server

  /** The form's defaults are the schema's: creating a todo from the initial
      form with only a title filled in stores the same todo as a body that
      carries nothing but the title. */
  lemma InitialFormMatchesSchemaDefaults(caller: UserId, ctx: Context, title: string)
    ensures var f := Initial.(title := title);
            TodoService.NewTodo(ctx.freshId, caller, Body(f), ctx.now)
              == TodoService.NewTodo(ctx.freshId, caller, NoFields.(title := Some(title)), ctx.now)
  {
    assert ParseTags("") == [] by {
      assert Split("", ',') == [""];
    }
  }

  /** A new todo whose title was left empty is not created: the server
      answers 400 with a body that carries no message, so the page shows the
      fallback and stays on the form; nothing is stored. */
  lemma EmptyTitleNotCreated(caller: UserId, ctx: Context, p: Page, s: Store)
    requires p.form.title == ""
    requires !HasId(s.todos, ctx.freshId)
    ensures var o := TodoService.Create(caller, ctx, Body(p.form), s);
            && o.response.status == 400 && o.store == s
            && var page := HandleSubmit(p, None, Receive(o.response)).1;
               page.error == SaveFailed && page.toList == p.toList
  {
    var b := Body(p.form);
    assert TodoService.TodoErrors(b) != [];
    var o := TodoService.Create(caller, ctx, b, s);
    assert o.response.reply == Rejected(None, TodoService.TodoErrors(b));
  }

  /** Nor is an edit that empties the title saved. */
  lemma EmptyTitleNotUpdated(caller: UserId, ctx: Context, id: TodoId, f: Form, s: Store)
    requires f.title == ""
    ensures var o := TodoService.Update(caller, ctx, id, Body(f), s);
            o.response.status != 200 && o.store == s
  {
    assert !TodoService.FieldsValid(Body(f));
  }

  /** Opening a stored todo of the caller's and saving it untouched changes
      none of what the form shows: the server's copy keeps the title,
      description, category, priority, completion, tags and owner, and its due
      date becomes the midnight of its day, which keeps it exactly when it
      already was one. */
  lemma ResubmitKeepsTodo(caller: UserId, ctx: Context, t: Todo, s: Store)
    requires UniqueIds(s.todos) && t in s.todos && t.userId == caller
    requires t.title != "" && t.category != "" && t.priority in Priorities
    requires WellFormedTags(t.tags)
    ensures var o := TodoService.Update(caller, ctx, t.id, Body(LoadForm(t)), s);
            && o.response.status == 200
            && var u := o.response.reply.todo;
            && u.id == t.id && u.title == t.title && u.description == t.description
            && u.category == t.category && u.priority == t.priority
            && u.completed == t.completed && u.tags == t.tags && u.userId == t.userId
            && u.dueDate == DayOf(t.dueDate)
            && (u.dueDate == t.dueDate <==> t.dueDate.None? || t.dueDate.value % DayMs == 0)
  {
    DayOfKeeps(t.dueDate);
    var b := Body(LoadForm(t));
    assert TodoService.FieldsValid(b);
    var i :| 0 <= i < |s.todos| && s.todos[i] == t;
    assert TodoService.FindOwned(s.todos, t.id, caller).Some?;
    var o := TodoService.Update(caller, ctx, t.id, b, s);
    var u := o.response.reply.todo;
    var k :| 0 <= k < |s.todos| && s.todos[k].id == t.id && s.todos[k].userId == caller
               && AgreeOutside(s.todos[k], u, b.(updatedAt := Some(ctx.now)))
               && o.store == s.(todos := s.todos[k := u], events := s.events + [Updated(u)]);
    SameIdSameTodo(s.todos, s.todos[k], t);
  }
}
