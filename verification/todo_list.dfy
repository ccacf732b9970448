/** The todo list page: the reducer that merges live-update events into the
    displayed list, the delete and toggle actions, and the query string the
    page sends for its filters. */
module TodoList {
  import opened Maybe
  import opened Records
  import opened Api
  import opened Wire
  import opened Lists
  import opened FilterBar
  import opened TodoQueries
  import AuthService
  import TodoService

  /** The element-wise `map` of the `updated` case and of a toggle: every
      element with identifier `id` becomes `t`. */
  function ReplaceById(list: seq<Todo>, id: TodoId, t: Todo): (r: seq<Todo>)
    ensures |r| == |list|
    ensures forall i :: 0 <= i < |list| && list[i].id != id ==> r[i] == list[i]
    ensures forall i :: 0 <= i < |list| && list[i].id == id ==> r[i] == t
  {
    if list == [] then []
    else [if list[0].id == id then t else list[0]] + ReplaceById(list[1..], id, t)
  }

  /** The `filter` of the `deleted` case and of a local delete. */
  function RemoveById(list: seq<Todo>, id: TodoId): (r: seq<Todo>)
    ensures forall x :: x in r <==> x in list && x.id != id
  {
    var r := Filter(list, (x: Todo) => x.id != id);
    FilterMultiset(list, (x: Todo) => x.id != id);
    r
  }

  /** Replacing is idempotent, and replacing with a todo of the same
      identifier twice keeps only the second. */
  lemma {:induction false} ReplaceTwice(list: seq<Todo>, id: TodoId, t: Todo, u: Todo)
    requires t.id == id
    ensures ReplaceById(ReplaceById(list, id, t), id, u) == ReplaceById(list, id, u)
  {
    if list != [] {
      ReplaceTwice(list[1..], id, t, u);
      assert ReplaceById(list, id, t)[1..] == ReplaceById(list[1..], id, t);
    }
  }

  /** Removing twice is removing once. */
  lemma RemoveIdempotent(list: seq<Todo>, id: TodoId)
    ensures RemoveById(RemoveById(list, id), id) == RemoveById(list, id)
  {
    FilterIdempotent(list, (x: Todo) => x.id != id);
  }

  /** Removal keeps the relative order of what is left: it distributes over
      concatenation. */
  lemma RemoveKeepsOrder(a: seq<Todo>, b: seq<Todo>, id: TodoId)
    ensures RemoveById(a + b, id) == RemoveById(a, id) + RemoveById(b, id)
  {
    FilterAppend(a, b, (x: Todo) => x.id != id);
  }

  /** Removing an identifier that is not in the list changes nothing. */
  lemma RemoveAbsent(list: seq<Todo>, id: TodoId)
    requires !HasId(list, id)
    ensures RemoveById(list, id) == list
  {
    FilterAll(list, (x: Todo) => x.id != id);
  }

  /** `handleTodoUpdate`: the list after one `todoUpdated` message. */
  function Apply(list: seq<Todo>, e: Event): (r: seq<Todo>)
    ensures e.Created? ==> |r| == |list| + 1 && r[0] == e.todo && r[1..] == list
    ensures e.Updated? ==> |r| == |list|
    ensures e.Updated? ==> forall i :: 0 <= i < |list| ==> r[i] == (if list[i].id == e.todo.id then e.todo else list[i])
    ensures e.Deleted? ==> forall x :: x in r <==> x in list && x.id != e.todoId
    ensures e.Unrecognised? ==> r == list
  {
    match e
    case Created(t) => [t] + list
    case Updated(t) => ReplaceById(list, t.id, t)
    case Deleted(id) => RemoveById(list, id)
    case Unrecognised(_) => list
  }

  /** The list after a sequence of messages, oldest first. */
  function ApplyAll(list: seq<Todo>, es: seq<Event>): seq<Todo>
    decreases |es|
  {
    if es == [] then list else ApplyAll(Apply(list, es[0]), es[1..])
  }

  /** A todo created and then deleted leaves the list as if every todo with
      that identifier had been deleted. */
  lemma CreateThenDelete(list: seq<Todo>, t: Todo)
    ensures ApplyAll(list, [Created(t), Deleted(t.id)]) == RemoveById(list, t.id)
  {
    var p := (x: Todo) => x.id != t.id;
    var es := [Created(t), Deleted(t.id)];
    assert es[1..] == [Deleted(t.id)] && es[1..][1..] == [];
    assert ApplyAll(list, es) == ApplyAll([t] + list, [Deleted(t.id)]);
    assert ApplyAll([t] + list, [Deleted(t.id)]) == RemoveById([t] + list, t.id);
    FilterAppend([t], list, p);
  }

  /** The `deleted` broadcast that follows the page's own delete changes
      nothing further. */
  lemma EchoedDeleteIsHarmless(list: seq<Todo>, id: TodoId)
    ensures Apply(RemoveById(list, id), Deleted(id)) == RemoveById(list, id)
  {
    RemoveIdempotent(list, id);
  }

  /** Every message the server's create, update and delete handlers emit is
      one the reducer recognises, and on a page showing `list` it has the
      route's effect: the created todo is shown first, the updated todo
      replaces the copies with its identifier, the deleted one disappears. */
  lemma ServerEventsRecognised(caller: UserId, ctx: Context, f: Fields, id: TodoId, s: Store, list: seq<Todo>)
    requires !HasId(s.todos, ctx.freshId)
    ensures var o := TodoService.Create(caller, ctx, f, s);
            o.response.status == 201 ==>
              && o.store.events == s.events + [Created(o.response.reply.todo)]
              && Apply(list, Created(o.response.reply.todo)) == [o.response.reply.todo] + list
    ensures var o := TodoService.Update(caller, ctx, id, f, s);
            o.response.status == 200 ==>
              && o.store.events == s.events + [Updated(o.response.reply.todo)]
              && Apply(list, Updated(o.response.reply.todo)) == ReplaceById(list, id, o.response.reply.todo)
    ensures var o := TodoService.Delete(caller, id, s);
            o.response.status == 200 ==>
              && o.store.events == s.events + [Deleted(id)]
              && Apply(list, Deleted(id)) == RemoveById(list, id)
  {
    UpdateEventReachesPage(caller, ctx, f, id, s, list);
  }

  lemma UpdateEventReachesPage(caller: UserId, ctx: Context, f: Fields, id: TodoId, s: Store, list: seq<Todo>)
    ensures var o := TodoService.Update(caller, ctx, id, f, s);
            o.response.status == 200 ==>
              Apply(list, Updated(o.response.reply.todo)) == ReplaceById(list, id, o.response.reply.todo)
  {
    var o := TodoService.Update(caller, ctx, id, f, s);
    if o.response.status == 200 {
      var k :| 0 <= k < |s.todos| && s.todos[k].id == id
                 && AgreeOutside(s.todos[k], o.response.reply.todo, f.(updatedAt := Some(ctx.now)));
    }
  }

  /** What an action leaves behind besides the list: an alert, and whether the
      page navigates to the login form. */
  datatype Effect = Effect(todos: seq<Todo>, alert: Option<string>, toLogin: bool)

  const ConfirmDelete: string := "Are you sure you want to delete this todo?"
  const SessionExpiredAlert: string := "Your session has expired. Please login again."
  const UpdateFailedPrefix: string := "Failed to update todo: "
  const UpdateFailedOffline: string := "Failed to update todo. Please check your connection and try again."

  /** The path of a single todo. */
  function TodoPath(id: TodoId): string {
    "/api/todos/" + id
  }

  /** `handleDelete(id)`: `confirmed` is the answer to the confirmation
      dialog and `answer` the outcome of the DELETE request, which is only
      sent after a confirmation. */
  function DeleteTodo(list: seq<Todo>, id: TodoId, confirmed: bool, answer: Call<Reply>): (e: Effect)
    ensures e.alert == None
    ensures !confirmed ==> e == Effect(list, None, false)
    ensures confirmed && answer.Ok? ==> e.todos == RemoveById(list, id) && !e.toLogin
    ensures answer.Err? ==> e.todos == list && e.toLogin == (confirmed && SessionExpired(answer.error))
  {
    if !confirmed then Effect(list, None, false)
    else match answer
      case Ok(_) => Effect(RemoveById(list, id), None, false)
      case Err(err) => Effect(list, None, SessionExpired(err))
  }

  /** The body `handleToggleComplete(id, current)` sends. */
  function ToggleBody(current: bool): (f: Fields)
    ensures f.completed == Some(!current)
    ensures f.(completed := None) == NoFields
  {
    NoFields.(completed := Some(!current))
  }

  /** The alert a failed toggle shows: session expiry first, then the
      server's message, then the connection hint. */
  function ToggleAlert(err: HttpError): (m: string)
    ensures SessionExpired(err) ==> m == SessionExpiredAlert
    ensures !SessionExpired(err) && ResponseMessage(err).Some? && ResponseMessage(err).value != "" ==>
              m == UpdateFailedPrefix + ResponseMessage(err).value
    ensures !SessionExpired(err) && (ResponseMessage(err).None? || ResponseMessage(err).value == "") ==>
              m == UpdateFailedOffline
  {
    if SessionExpired(err) then SessionExpiredAlert
    else if ResponseMessage(err).Some? && ResponseMessage(err).value != "" then UpdateFailedPrefix + ResponseMessage(err).value
    else UpdateFailedOffline
  }

  /** The page's state after the toggle request for `id` settles: the
      server's copy replaces the element with that identifier; a failure
      leaves the list alone and alerts. */
  function ToggleSettled(list: seq<Todo>, id: TodoId, answer: Call<Todo>): (e: Effect)
    ensures answer.Ok? ==> e == Effect(ReplaceById(list, id, answer.value), None, false)
    ensures answer.Err? ==> e.todos == list && e.alert.Some? && e.toLogin == SessionExpired(answer.error)
  {
    match answer
    case Ok(t) => Effect(ReplaceById(list, id, t), None, false)
    case Err(err) => Effect(list, Some(ToggleAlert(err)), SessionExpired(err))
  }

  /** The server answers a toggle of an owned todo with that todo completed
      the other way round, and the page shows it in place of the old copy. */
  lemma ToggleRoundTrip(caller: UserId, ctx: Context, list: seq<Todo>, t: Todo, s: Store)
    requires TodoService.FindOwned(s.todos, t.id, caller).Some?
    ensures var o := TodoService.Update(caller, ctx, t.id, ToggleBody(t.completed), s);
            && o.response.status == 200 && o.response.reply.OneTodo?
            && o.response.reply.todo.completed == !t.completed
            && o.response.reply.todo.id == t.id
            && var e := ToggleSettled(list, t.id, Ok(o.response.reply.todo));
               forall i :: 0 <= i < |list| && list[i].id == t.id ==> e.todos[i].completed == !t.completed
  {
    var f := ToggleBody(t.completed);
    assert TodoService.FieldsValid(f);
  }

  /** The page's state after the list request settles. */
  function Fetched(list: seq<Todo>, answer: Call<seq<Todo>>): (e: Effect)
    ensures answer.Ok? ==> e == Effect(answer.value, None, false)
    ensures answer.Err? ==> e == Effect(list, None, SessionExpired(answer.error))
  {
    match answer
    case Ok(todos) => Effect(todos, None, false)
    case Err(err) => Effect(list, None, SessionExpired(err))
  }

  /** A token the server cannot verify is answered with 403, so the page does
      not send the user to the login form for it; only a missing token does. */
  lemma InvalidTokenKeepsPage(env: Env, header: Option<string>, list: seq<Todo>)
    requires AuthService.Authenticate(env, header).Refuse?
    ensures var r := AuthService.Authenticate(env, header).response;
            var c := Receive(r);
            && c.Err?
            && Fetched(list, Err(c.error)).toLogin == (AuthService.BearerToken(header).None?)
  {
  }

  /** The key of a filter entry in the query string. */
  function Name(k: Key): string {
    match k
    case Category => "category"
    case Priority => "priority"
    case Completed => "completed"
    case Search => "search"
    case SortBy => "sortBy"
    case SortOrder => "sortOrder"
  }

  const AllKeys: seq<Key> := [Category, Priority, Completed, Search, SortBy, SortOrder]

  /** Position of a key in the filter object's declaration order. */
  function Rank(k: Key): (r: nat)
    ensures r < |AllKeys| && AllKeys[r] == k
  {
    match k
    case Category => 0
    case Priority => 1
    case Completed => 2
    case Search => 3
    case SortBy => 4
    case SortOrder => 5
  }

  /** `keys` lists keys in declaration order, each at most once. */
  predicate InKeyOrder(keys: seq<Key>) {
    forall a, b :: 0 <= a < b < |keys| ==> Rank(keys[a]) < Rank(keys[b])
  }

  /** The keys of `keys` whose filter is non-empty, in the order of `keys`. */
  function Shown(f: Filters, keys: seq<Key>): (ks: seq<Key>)
    ensures forall k :: k in ks <==> k in keys && Get(f, k) != ""
  {
    if keys == [] then []
    else
      var rest := Shown(f, keys[1..]);
      assert forall j :: j in keys <==> j == keys[0] || j in keys[1..];
      if Get(f, keys[0]) != "" then [keys[0]] + rest else rest
  }

  /** Dropping keys keeps the rest in declaration order. */
  lemma {:induction false} ShownInOrder(f: Filters, keys: seq<Key>)
    requires InKeyOrder(keys)
    ensures InKeyOrder(Shown(f, keys))
  {
    if keys != [] {
      var tail := keys[1..];
      forall a, b | 0 <= a < b < |tail| ensures Rank(tail[a]) < Rank(tail[b]) {
        assert tail[a] == keys[a + 1] && tail[b] == keys[b + 1];
      }
      ShownInOrder(f, tail);
      var rest := Shown(f, tail);
      forall j | j in rest ensures Rank(keys[0]) < Rank(j) {
        var b :| 0 < b < |keys| && keys[b] == j;
      }
    }
  }

  /** The query pair of each key in `ks`, in order. */
  function Pairs(f: Filters, ks: seq<Key>): (ps: seq<(string, string)>)
    ensures |ps| == |ks|
    ensures forall i :: 0 <= i < |ps| ==> ps[i] == (Name(ks[i]), Get(f, ks[i]))
  {
    if ks == [] then [] else [(Name(ks[0]), Get(f, ks[0]))] + Pairs(f, ks[1..])
  }

  lemma NameInjective(j: Key, k: Key)
    requires Name(j) == Name(k)
    ensures j == k
  {
  }

  lemma AllKeysInOrder()
    ensures InKeyOrder(AllKeys)
    ensures forall k :: k in AllKeys
  {
    forall a, b | 0 <= a < b < |AllKeys| ensures Rank(AllKeys[a]) < Rank(AllKeys[b]) {
      assert Rank(AllKeys[a]) == a && Rank(AllKeys[b]) == b;
    }
    forall k ensures k in AllKeys {
      assert AllKeys[Rank(k)] == k;
    }
  }

  /** The query string `fetchTodos` builds: one pair per filter with a
      non-empty value, in the key order of the filter object; every pair
      carries the value of the filter it names. */
  function Params(f: Filters): (ps: seq<(string, string)>)
    ensures forall i :: 0 <= i < |ps| ==> ps[i].1 != ""
    ensures forall k :: (Name(k), Get(f, k)) in ps <==> Get(f, k) != ""
    ensures forall i, k :: 0 <= i < |ps| && ps[i].0 == Name(k) ==> ps[i].1 == Get(f, k)
    ensures forall i, j :: 0 <= i < j < |ps| ==> ps[i].0 != ps[j].0
    ensures InKeyOrder(Shown(f, AllKeys)) && |ps| == |Shown(f, AllKeys)|
    ensures forall i :: 0 <= i < |ps| ==> ps[i] == (Name(Shown(f, AllKeys)[i]), Get(f, Shown(f, AllKeys)[i]))
  {
    var ks := Shown(f, AllKeys);
    var ps := Pairs(f, ks);
    AllKeysInOrder();
    ShownInOrder(f, AllKeys);
    PairsOfKeys(f, ks);
    ps
  }

  /** The pairs of keys with non-empty filters: no empty value, one pair for
      every key, and a name always comes with its own filter's value. */
  lemma PairsOfKeys(f: Filters, ks: seq<Key>)
    requires forall k :: k in ks ==> Get(f, k) != ""
    requires InKeyOrder(ks)
    ensures var ps := Pairs(f, ks);
            && (forall i :: 0 <= i < |ps| ==> ps[i].1 != "")
            && (forall i, j :: 0 <= i < j < |ps| ==> ps[i].0 != ps[j].0)
            && (forall k :: k in ks ==> (Name(k), Get(f, k)) in ps)
            && (forall i, k :: 0 <= i < |ps| && ps[i].0 == Name(k) ==> ps[i].1 == Get(f, k))
  {
    var ps := Pairs(f, ks);
    forall i | 0 <= i < |ps| ensures ps[i].1 != "" {
      assert ks[i] in ks;
    }
    forall k | k in ks ensures (Name(k), Get(f, k)) in ps {
      var i :| 0 <= i < |ks| && ks[i] == k;
      assert ps[i] == (Name(k), Get(f, k));
    }
    forall i, k | 0 <= i < |ps| && ps[i].0 == Name(k) ensures ps[i].1 == Get(f, k) {
      NameInjective(ks[i], k);
    }
    forall i, j | 0 <= i < j < |ps| ensures ps[i].0 != ps[j].0 {
      if ps[i].0 == ps[j].0 {
        NameInjective(ks[i], ks[j]);
      }
    }
  }

  /** The value the server reads for a query key (`req.query[name]`). */
  function Lookup(ps: seq<(string, string)>, name: string): (v: Option<string>)
    ensures v.Some? ==> (name, v.value) in ps
    ensures v.None? ==> forall i :: 0 <= i < |ps| ==> ps[i].0 != name
  {
    if ps == [] then None
    else if ps[0].0 == name then Some(ps[0].1)
    else Lookup(ps[1..], name)
  }

  /** The server's parsing of a query string into the list route's parameters. */
  function QueryOf(ps: seq<(string, string)>): Query {
    Query(Lookup(ps, "category"), Lookup(ps, "priority"), Lookup(ps, "completed"),
          Lookup(ps, "search"), Lookup(ps, "sortBy"), Lookup(ps, "sortOrder"))
  }

  /** `Some` of a non-empty value, `None` of the empty string. */
  function Sent(v: string): (o: Option<string>)
    ensures o.None? <==> v == ""
    ensures o.Some? ==> o.value == v
  {
    if v == "" then None else Some(v)
  }

  /** The server reads each filter of the page back under its own name. */
  lemma LookupOfParams(f: Filters, k: Key)
    ensures Lookup(Params(f), Name(k)) == Sent(Get(f, k))
  {
    var ps := Params(f);
    if Get(f, k) != "" {
      assert (Name(k), Get(f, k)) in ps;
    }
  }

  /** The server sees exactly the non-empty filters of the page. */
  lemma ServerSeesFilters(f: Filters)
    ensures QueryOf(Params(f)) ==
      Query(Sent(f.category), Sent(f.priority), Sent(f.completed), Sent(f.search), Sent(f.sortBy), Sent(f.sortOrder))
  {
    LookupOfParams(f, Category);
    LookupOfParams(f, Priority);
    LookupOfParams(f, Completed);
    LookupOfParams(f, Search);
    LookupOfParams(f, SortBy);
    LookupOfParams(f, SortOrder);
  }

  /** A todo the page asks for matches the server's filter exactly when it is
      the caller's and agrees with every non-empty filter of the page. */
  lemma PageFilterMeaning(f: Filters, caller: UserId, t: Todo)
    ensures Matches(t, caller, QueryOf(Params(f))) <==>
      && t.userId == caller
      && (f.category != "" ==> t.category == f.category)
      && (f.priority != "" ==> t.priority == f.priority)
      && (f.completed != "" ==> t.completed == (f.completed == "true"))
      && (f.search != "" ==> SearchHits(t, f.search))
  {
    ServerSeesFilters(f);
  }

  /** Two queries that select the same todos and order them alike list the
      same. */
  lemma SameSelectionSameList(caller: UserId, q: Query, r: Query, s: Store)
    requires OrderOf(q) == OrderOf(r)
    requires forall t :: Matches(t, caller, q) == Matches(t, caller, r)
    ensures List(caller, q, s) == List(caller, r, s)
  {
    forall t ensures Selects(caller, q)(t) == Selects(caller, r)(t) {
      assert Matches(t, caller, q) == Matches(t, caller, r);
    }
    FilterSame(s.todos, Selects(caller, q), Selects(caller, r));
  }

  /** What the server reads from the query string of cleared filters: only
      the default sort. */
  lemma ClearedQuery()
    ensures QueryOf(Params(Cleared())) == Query(None, None, None, None, Some("createdAt"), Some("desc"))
  {
    ServerSeesFilters(Cleared());
  }

  /** The default sort spelled out selects and orders as no query at all. */
  lemma DefaultSortListsEverything(caller: UserId, s: Store)
    ensures List(caller, Query(None, None, None, None, Some("createdAt"), Some("desc")), s) == List(caller, NoQuery, s)
  {
    var q := Query(None, None, None, None, Some("createdAt"), Some("desc"));
    assert OrderOf(q) == OrderOf(NoQuery);
    assert forall t :: Matches(t, caller, q) == Matches(t, caller, NoQuery);
    SameSelectionSameList(caller, q, NoQuery, s);
  }

  /** With the filters cleared, the page receives the same list as a request
      with no query string at all. */
  lemma ClearedFiltersListEverything(caller: UserId, s: Store)
    ensures List(caller, QueryOf(Params(Cleared())), s) == List(caller, NoQuery, s)
  {
    ClearedQuery();
    DefaultSortListsEverything(caller, s);
  }
}
