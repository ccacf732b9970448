/** The entities the server stores and the client displays: users, todos, the
    JSON body that creates or patches a todo, and the live-update event. */
module Records {
  import opened Maybe

  type UserId = string
  type TodoId = string

  /** A point in time, in milliseconds since the epoch (JavaScript `Date`). */
  type Time = int

  /** The priorities the todo schema's `enum` admits. */
  const Priorities: set<string> := {"low", "medium", "high"}

  const DefaultDescription: string := ""
  const DefaultCategory: string := "general"
  const DefaultPriority: string := "medium"

  /** A stored user: `password` holds the bcrypt hash, never the plain text. */
  datatype User = User(id: UserId, username: string, email: string, passwordHash: string, createdAt: Time)

  /** The public view of a user that the auth routes return and the client caches. */
  datatype UserInfo = UserInfo(id: UserId, username: string, email: string)

  function InfoOf(u: User): UserInfo {
    UserInfo(u.id, u.username, u.email)
  }

  /** A stored todo document. The schema's defaults guarantee every field is
      present except `dueDate`, which is optional. */
  datatype Todo = Todo(
    id: TodoId,
    title: string,
    description: string,
    category: string,
    priority: string,
    dueDate: Option<Time>,
    completed: bool,
    userId: UserId,
    tags: seq<string>,
    createdAt: Time,
    updatedAt: Time)

  /** A JSON request body that creates or patches a todo. `None` is a field the
      body does not carry. For `dueDate`, `Some(None)` is an explicit `null` or
      empty string (the form's "no date"), which Mongoose stores as no date. */
  datatype Fields = Fields(
    title: Option<string>,
    description: Option<string>,
    category: Option<string>,
    priority: Option<string>,
    dueDate: Option<Option<Time>>,
    completed: Option<bool>,
    userId: Option<UserId>,
    tags: Option<seq<string>>,
    createdAt: Option<Time>,
    updatedAt: Option<Time>)

  const NoFields: Fields := Fields(None, None, None, None, None, None, None, None, None, None)

  /** The object spread `{...t, ...f}`: every field the body carries replaces
      the stored one; the identifier is never part of a body. */
  function Overwrite(t: Todo, f: Fields): Todo {
    Todo(
      t.id,
      f.title.GetOr(t.title),
      f.description.GetOr(t.description),
      f.category.GetOr(t.category),
      f.priority.GetOr(t.priority),
      f.dueDate.GetOr(t.dueDate),
      f.completed.GetOr(t.completed),
      f.userId.GetOr(t.userId),
      f.tags.GetOr(t.tags),
      f.createdAt.GetOr(t.createdAt),
      f.updatedAt.GetOr(t.updatedAt))
  }

  /** Every field of `b` that the body `f` does not carry is the field of `a`,
      and the identifier is never touched. */
  predicate AgreeOutside(a: Todo, b: Todo, f: Fields) {
    && a.id == b.id
    && (f.title.None? ==> b.title == a.title)
    && (f.description.None? ==> b.description == a.description)
    && (f.category.None? ==> b.category == a.category)
    && (f.priority.None? ==> b.priority == a.priority)
    && (f.dueDate.None? ==> b.dueDate == a.dueDate)
    && (f.completed.None? ==> b.completed == a.completed)
    && (f.userId.None? ==> b.userId == a.userId)
    && (f.tags.None? ==> b.tags == a.tags)
    && (f.createdAt.None? ==> b.createdAt == a.createdAt)
    && (f.updatedAt.None? ==> b.updatedAt == a.updatedAt)
  }

  /** Every field the body `f` carries holds the body's value in `b`. */
  predicate Carries(b: Todo, f: Fields) {
    && (f.title.Some? ==> b.title == f.title.value)
    && (f.description.Some? ==> b.description == f.description.value)
    && (f.category.Some? ==> b.category == f.category.value)
    && (f.priority.Some? ==> b.priority == f.priority.value)
    && (f.dueDate.Some? ==> b.dueDate == f.dueDate.value)
    && (f.completed.Some? ==> b.completed == f.completed.value)
    && (f.userId.Some? ==> b.userId == f.userId.value)
    && (f.tags.Some? ==> b.tags == f.tags.value)
    && (f.createdAt.Some? ==> b.createdAt == f.createdAt.value)
    && (f.updatedAt.Some? ==> b.updatedAt == f.updatedAt.value)
  }

  /** The spread is the one record that carries the body and agrees with the
      original everywhere else. */
  lemma OverwriteCharacterised(t: Todo, f: Fields, r: Todo)
    ensures r == Overwrite(t, f) <==> AgreeOutside(t, r, f) && Carries(r, f)
  {
  }

  /** A change pushed on the live-update channel (`todoUpdated`). The server
      emits the first three; a subscriber can still be handed any other
      `action`, which it ignores. */
  datatype Event =
    | Created(todo: Todo)
    | Updated(todo: Todo)
    | Deleted(todoId: TodoId)
    | Unrecognised(action: string)

  predicate HasId(todos: seq<Todo>, id: TodoId) {
    exists i :: 0 <= i < |todos| && todos[i].id == id
  }

  /** No two stored todos share an identifier (MongoDB's `_id` index). */
  predicate UniqueIds(todos: seq<Todo>) {
    forall i, j :: 0 <= i < j < |todos| ==> todos[i].id != todos[j].id
  }

  predicate HasUserId(users: seq<User>, id: UserId) {
    exists i :: 0 <= i < |users| && users[i].id == id
  }

  /** Usernames and e-mail addresses are unique across users (the schema's
      `unique` indexes). */
  predicate UniqueAccounts(users: seq<User>) {
    forall i, j :: 0 <= i < j < |users| ==>
      users[i].id != users[j].id && users[i].email != users[j].email && users[i].username != users[j].username
  }
}
