/** The todo mutation routes of `server/server.js`: create, update and delete,
    each scoped to the authenticated caller and each broadcasting its change. */
module TodoService {
  import opened Maybe
  import opened Records
  import opened Api
  import Text

  const TitleEmpty: string := "Title is required when provided"
  const InvalidPriority: string := "Invalid priority"
  /** Mongoose's `required` error for the title, prefixed with its path. */
  const TitleRequired: string := "title: Path `title` is required."
  /** Mongoose's message when a document is saved without a title. */
  const TitleMissing: string := "Todo validation failed: " + TitleRequired

  /** Mongoose's `enum` error for a priority, prefixed with its path. */
  function NotInEnum(p: string): string {
    "priority: `" + p + "` is not a valid enum value for path `priority`."
  }

  /** The priority can be read back from its enum error, and that error is
      never the title's. */
  lemma NotInEnumNames(p: string)
    ensures |NotInEnum(p)| >= 11 + |p| && NotInEnum(p)[11..11 + |p|] == p
    ensures |NotInEnum(p)| - |p| == |NotInEnum("")|
    ensures NotInEnum(p) != TitleRequired
  {
    assert NotInEnum(p)[0] == 'p' && TitleRequired[0] == 't';
  }

  /** An update that only empties the title is refused with the title's
      `required` message. */
  lemma EmptyTitleMessage(f: Fields)
    requires f.title == Some("") && (f.priority.None? || f.priority.value in Priorities)
    ensures UpdateInvalid(f) == "Validation failed: title: Path `title` is required."
  {
  }

  /** The schema validators that fail on an update body, title first. */
  function UpdateErrors(f: Fields): (errs: seq<string>)
    ensures errs == [] <==> FieldsValid(f)
    ensures TitleRequired in errs <==> f.title == Some("")
    ensures forall p :: NotInEnum(p) in errs <==> f.priority == Some(p) && p !in Priorities
  {
    assert forall p :: NotInEnum(p) != TitleRequired by {
      forall p ensures NotInEnum(p) != TitleRequired { NotInEnumNames(p); }
    }
    assert forall p, q :: NotInEnum(p) == NotInEnum(q) ==> p == q by {
      forall p, q | NotInEnum(p) == NotInEnum(q) ensures p == q {
        NotInEnumNames(p);
        NotInEnumNames(q);
      }
    }
    (if f.title == Some("") then [TitleRequired] else [])
    + (if f.priority.Some? && f.priority.value !in Priorities then [NotInEnum(f.priority.value)] else [])
  }

  /** The message of the error `findByIdAndUpdate` raises when its update
      validators fail: the failing paths' messages after a fixed prefix. */
  function UpdateInvalid(f: Fields): string {
    "Validation failed: " + Text.Join(UpdateErrors(f), ", ")
  }
  const TodoNotFound: string := "Todo not found"
  const TodoDeleted: string := "Todo deleted successfully"

  /** The field checks shared by the `validateTodo` chain and the schema's
      validators: a title, when present, is not empty, and a priority, when
      present, is one of the enumerated values. */
  predicate FieldsValid(f: Fields) {
    f.title != Some("") && (f.priority.Some? ==> f.priority.value in Priorities)
  }

  /** `validateTodo`, in order: the messages of the failing checks. */
  function TodoErrors(f: Fields): (errs: seq<string>)
    ensures errs == [] <==> FieldsValid(f)
    ensures TitleEmpty in errs <==> f.title == Some("")
    ensures InvalidPriority in errs <==> f.priority.Some? && f.priority.value !in Priorities
  {
    (if f.title == Some("") then [TitleEmpty] else [])
    + (if f.priority.Some? && f.priority.value !in Priorities then [InvalidPriority] else [])
  }

  /** A fresh document before the body is spread over it: the schema defaults. */
  function Blank(id: TodoId, owner: UserId, now: Time): Todo {
    Todo(id, "", DefaultDescription, DefaultCategory, DefaultPriority, None, false, owner, [], now, now)
  }

  /** `new Todo({ ...body, userId: caller })`: the body's fields over the
      schema defaults, then the caller as owner whatever the body said. */
  function NewTodo(id: TodoId, caller: UserId, f: Fields, now: Time): (t: Todo)
    ensures t.id == id && t.userId == caller
    ensures AgreeOutside(Blank(id, caller, now), t, f) && Carries(t, f.(userId := Some(caller)))
  {
    Overwrite(Blank(id, caller, now), f.(userId := Some(caller)))
  }

  /** Index of the todo with identifier `id` owned by `caller`:
      `Todo.findOne({ _id: id, userId: caller })`. */
  function FindOwned(todos: seq<Todo>, id: TodoId, caller: UserId): (k: Option<nat>)
    ensures k.Some? ==> k.value < |todos| && todos[k.value].id == id && todos[k.value].userId == caller
    ensures k.None? <==> forall i :: 0 <= i < |todos| ==> !(todos[i].id == id && todos[i].userId == caller)
  {
    if |todos| == 0 then None
    else if todos[0].id == id && todos[0].userId == caller then Some(0)
    else
      match FindOwned(todos[1..], id, caller)
      case None => None
      case Some(k) => Some(k + 1)
  }

  /** `POST /api/todos`, behind the token gate. */
  function Create(caller: UserId, ctx: Context, f: Fields, s: Store): (o: Outcome)
    requires !HasId(s.todos, ctx.freshId)
    ensures o.response.status == 201 <==> FieldsValid(f) && f.title.Some?
    ensures o.response.status != 201 ==> o.response.status == 400 && o.store == s
    ensures !FieldsValid(f) ==> o.response == Response(400, Rejected(None, TodoErrors(f)))
    ensures FieldsValid(f) && f.title.None? ==> o.response == Response(400, Failure(TitleMissing))
    ensures o.response.status == 201 ==>
              && o.response.reply.OneTodo?
              && var t := o.response.reply.todo;
              && t.userId == caller && t.id == ctx.freshId
              && AgreeOutside(Blank(ctx.freshId, caller, ctx.now), t, f)
              && Carries(t, f.(userId := Some(caller)))
              && o.store == s.(todos := s.todos + [t], events := s.events + [Created(t)])
    ensures UniqueIds(s.todos) ==> UniqueIds(o.store.todos)
  {
    var errs := TodoErrors(f);
    if errs != [] then
      Outcome(Response(400, Rejected(None, errs)), s)
    else if f.title.None? then
      Outcome(Response(400, Failure(TitleMissing)), s)
    else
      var t := NewTodo(ctx.freshId, caller, f, ctx.now);
      Outcome(Response(201, OneTodo(t)), s.(todos := s.todos + [t], events := s.events + [Created(t)]))
  }

  /** A created todo holds the schema's defaults in every field the body left
      out, and belongs to the caller even when the body names another owner. */
  lemma CreateFillsDefaults(caller: UserId, ctx: Context, f: Fields, s: Store)
    requires !HasId(s.todos, ctx.freshId)
    requires Create(caller, ctx, f, s).response.status == 201
    ensures
      var t := Create(caller, ctx, f, s).response.reply.todo;
      && t.userId == caller
      && (f.description.None? ==> t.description == "")
      && (f.category.None? ==> t.category == "general")
      && (f.priority.None? ==> t.priority == "medium")
      && (f.completed.None? ==> !t.completed)
      && (f.dueDate.None? ==> t.dueDate.None?)
      && (f.tags.None? ==> t.tags == [])
      && (f.createdAt.None? ==> t.createdAt == ctx.now)
  {
  }

  /** `PUT /api/todos/:id`, behind the token gate. The body is spread over
      the stored document, so any field it carries is applied, the owner
      included; `updatedAt` is always the server's clock. */
  function Update(caller: UserId, ctx: Context, id: TodoId, f: Fields, s: Store): (o: Outcome)
    ensures FindOwned(s.todos, id, caller).None? ==>
              o == Outcome(Response(404, Failure(TodoNotFound)), s)
    ensures o.response.status != 200 ==> o.store == s
    ensures o.response.status == 200 <==> FindOwned(s.todos, id, caller).Some? && FieldsValid(f)
    ensures FindOwned(s.todos, id, caller).Some? && !FieldsValid(f) ==>
              o.response == Response(400, Failure(UpdateInvalid(f)))
    ensures o.response.status == 200 ==>
              && o.response.reply.OneTodo?
              && var t := o.response.reply.todo;
              && var applied := f.(updatedAt := Some(ctx.now));
              && (exists k :: 0 <= k < |s.todos| && s.todos[k].id == id && s.todos[k].userId == caller
                    && AgreeOutside(s.todos[k], t, applied)
                    && o.store == s.(todos := s.todos[k := t], events := s.events + [Updated(t)]))
              && Carries(t, applied)
    ensures UniqueIds(s.todos) ==> UniqueIds(o.store.todos)
  {
    match FindOwned(s.todos, id, caller)
    case None => Outcome(Response(404, Failure(TodoNotFound)), s)
    case Some(k) =>
      if !FieldsValid(f) then
        Outcome(Response(400, Failure(UpdateInvalid(f))), s)
      else
        var t := Overwrite(s.todos[k], f.(updatedAt := Some(ctx.now)));
        Outcome(Response(200, OneTodo(t)), s.(todos := s.todos[k := t], events := s.events + [Updated(t)]))
  }

  /** `DELETE /api/todos/:id`, behind the token gate. The broadcast carries
      only the identifier. */
  function Delete(caller: UserId, id: TodoId, s: Store): (o: Outcome)
    ensures FindOwned(s.todos, id, caller).None? ==>
              o == Outcome(Response(404, Failure(TodoNotFound)), s)
    ensures o.response.status == 200 <==> FindOwned(s.todos, id, caller).Some?
    ensures o.response.status == 200 ==>
              && o.response == Response(200, Confirmed(TodoDeleted))
              && exists k :: 0 <= k < |s.todos| && s.todos[k].id == id && s.todos[k].userId == caller
                   && o.store == s.(todos := s.todos[..k] + s.todos[k + 1..], events := s.events + [Deleted(id)])
    ensures UniqueIds(s.todos) ==> UniqueIds(o.store.todos)
    ensures UniqueIds(s.todos) && o.response.status == 200 ==> !HasId(o.store.todos, id)
  {
    match FindOwned(s.todos, id, caller)
    case None => Outcome(Response(404, Failure(TodoNotFound)), s)
    case Some(k) =>
      var rest := s.todos[..k] + s.todos[k + 1..];
      assert UniqueIds(s.todos) ==> UniqueIds(rest) && !HasId(rest, id) by {
        if UniqueIds(s.todos) {
          RemovedAtIsGone(s.todos, k);
        }
      }
      Outcome(Response(200, Confirmed(TodoDeleted)), s.(todos := rest, events := s.events + [Deleted(id)]))
  }

  /** Cutting one todo out of a list with distinct identifiers keeps them
      distinct and leaves no todo with the removed identifier. */
  lemma RemovedAtIsGone(todos: seq<Todo>, k: nat)
    requires UniqueIds(todos) && k < |todos|
    ensures UniqueIds(todos[..k] + todos[k + 1..])
    ensures !HasId(todos[..k] + todos[k + 1..], todos[k].id)
  {
    var rest := todos[..k] + todos[k + 1..];
    assert forall i :: 0 <= i < |rest| ==> rest[i] == todos[if i < k then i else i + 1];
  }

  /** The body is applied verbatim, so an owner can hand a todo to another
      user: the update route does not keep `userId` fixed. */
  lemma UpdateCanReassignOwner(caller: UserId, other: UserId, ctx: Context, id: TodoId, s: Store)
    requires FindOwned(s.todos, id, caller).Some? && caller != other
    ensures
      var o := Update(caller, ctx, id, NoFields.(userId := Some(other)), s);
      && o.response.status == 200
      && o.response.reply.todo.id == id && o.response.reply.todo.userId == other
      && o.response.reply.todo in o.store.todos
      && (UniqueIds(s.todos) ==> FindOwned(o.store.todos, id, caller).None?)
  {
    var f := NoFields.(userId := Some(other));
    assert FieldsValid(f);
    var o := Update(caller, ctx, id, f, s);
    var u := o.response.reply.todo;
    var k :| 0 <= k < |s.todos| && s.todos[k].id == id && s.todos[k].userId == caller
               && AgreeOutside(s.todos[k], u, f.(updatedAt := Some(ctx.now)))
               && o.store == s.(todos := s.todos[k := u], events := s.events + [Updated(u)]);
    assert o.store.todos[k] == u;
    if UniqueIds(s.todos) {
      forall i | 0 <= i < |o.store.todos| ensures !(o.store.todos[i].id == id && o.store.todos[i].userId == caller) {
        if i != k {
          assert o.store.todos[i] == s.todos[i];
          assert s.todos[i].id != s.todos[k].id;
        }
      }
    }
  }
}
