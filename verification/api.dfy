/** The server's side of the HTTP exchange: the JSON replies its handlers send,
    the in-memory store that stands for the MongoDB collections, and the log
    of live-update events the server has broadcast. */
module Api {
  import opened Maybe
  import opened Records

  /** The `overall` part of the statistics reply. */
  datatype Overall = Overall(total: nat, completed: nat, highPriority: nat, overdue: nat)

  /** One `byCategory` group. */
  datatype CategoryCount = CategoryCount(category: string, count: nat, completed: nat)

  /** The JSON body of a reply. */
  datatype Reply =
      /** `{ success: false, message }` */
    | Failure(message: string)
      /** `{ success: false, [message,] errors }`: the `msg` of each validation error, in order. */
    | Rejected(summary: Option<string>, errors: seq<string>)
      /** `{ success: true, message }` */
    | Confirmed(message: string)
      /** `{ success: true, token, user }` */
    | SignedIn(token: string, user: UserInfo)
      /** `{ success: true, user: { id, username, email, createdAt } }` */
    | ProfileOf(user: UserInfo, createdAt: Time)
      /** A todo document. */
    | OneTodo(todo: Todo)
      /** An array of todo documents. */
    | TodoArray(todos: seq<Todo>)
      /** `{ overall, byCategory }` */
    | Statistics(overall: Overall, byCategory: seq<CategoryCount>)

  datatype Response = Response(status: int, reply: Reply)

  /** The persistent state: the `users` and `todos` collections and every
      event broadcast so far. */
  datatype Store = Store(users: seq<User>, todos: seq<Todo>, events: seq<Event>)

  /** What a handler produces: the reply and the store afterwards. */
  datatype Outcome = Outcome(response: Response, store: Store)

  /** The store keeps MongoDB's unique indexes. */
  predicate Consistent(s: Store) {
    UniqueIds(s.todos) && UniqueAccounts(s.users)
  }

  /** The foreign functions the handlers call, as parameters:
      `verify` is `jwt.verify` with the server secret (signature and expiry
      checked against the clock), yielding the token's `userId`;
      `sign` is `jwt.sign({ userId }, secret, { expiresIn: '24h' })`;
      `matches` is `bcrypt.compare(plain, hash)`;
      `isEmail` is express-validator's `isEmail()`. */
  datatype Env = Env(
    verify: string -> Option<UserId>,
    sign: UserId -> string,
    matches: (string, string) -> bool,
    isEmail: string -> bool)

  /** Per-request inputs the server draws from the outside world: the clock,
      the `_id` MongoDB assigns to a new document, and the salted bcrypt hash
      of the password in the request. */
  datatype Context = Context(now: Time, freshId: string, hashed: string)
}
