/** The read-only todo routes of `server/server.js`: the filtered, sorted list
    and the statistics, both restricted to the caller's own todos. */
module TodoQueries {
  import opened Maybe
  import opened Text
  import opened Records
  import opened Api
  import opened Lists
  import opened Sorting
  import opened Ordering

  /** The query string of `GET /api/todos`; `None` is a parameter not sent. */
  datatype Query = Query(
    category: Option<string>,
    priority: Option<string>,
    completed: Option<string>,
    search: Option<string>,
    sortBy: Option<string>,
    sortOrder: Option<string>)

  const NoQuery: Query := Query(None, None, None, None, None, None)

  /** A parameter that is present and not the empty string (JavaScript truthiness). */
  predicate Truthy(v: Option<string>) {
    v.Some? && v.value != ""
  }

  /** The search clause: the search text occurs in the title or in the
      description, ignoring case. The text is used as a regular expression
      by the server; it is modelled as a literal, which is exact when it
      holds no regular-expression metacharacters. */
  predicate SearchHits(t: Todo, text: string) {
    ContainsIgnoringCase(t.title, text) || ContainsIgnoringCase(t.description, text)
  }

  /** The MongoDB filter the handler builds, applied to one document. A
      present `completed` parameter filters even when empty: any value other
      than `"true"` selects the open todos. */
  predicate Matches(t: Todo, caller: UserId, q: Query) {
    && t.userId == caller
    && (Truthy(q.category) ==> t.category == q.category.value)
    && (Truthy(q.priority) ==> t.priority == q.priority.value)
    && (q.completed.Some? ==> t.completed == (q.completed.value == "true"))
    && (Truthy(q.search) ==> SearchHits(t, q.search.value))
  }

  /** The sort specification: `sortBy` defaults to `createdAt`, and the order
      is descending exactly when `sortOrder` is `desc` or absent. */
  function OrderOf(q: Query): Order {
    Order(q.sortBy.GetOr("createdAt"), q.sortOrder.GetOr("desc") == "desc")
  }

  /** The filter as a test on documents. */
  function Selects(caller: UserId, q: Query): Todo -> bool {
    (t: Todo) => Matches(t, caller, q)
  }

  /** `GET /api/todos`, behind the token gate: the matching todos, each as
      often as it is stored, in the requested order. */
  function List(caller: UserId, q: Query, s: Store): (o: Outcome)
    ensures o.store == s && o.response.status == 200 && o.response.reply.TodoArray?
    ensures multiset(o.response.reply.todos) == multiset(Filter(s.todos, Selects(caller, q)))
    ensures Sorted(o.response.reply.todos, BeforeIn(OrderOf(q)))
  {
    BeforeIsTotalPreorder(OrderOf(q));
    Outcome(Response(200, TodoArray(Sort(Filter(s.todos, Selects(caller, q)), BeforeIn(OrderOf(q))))), s)
  }

  /** A todo is listed exactly when it is stored and matches the filter; in
      particular no one else's todo is ever listed. */
  lemma ListSelectsExactly(caller: UserId, q: Query, s: Store, t: Todo)
    ensures t in List(caller, q, s).response.reply.todos <==> t in s.todos && Matches(t, caller, q)
    ensures t in List(caller, q, s).response.reply.todos ==> t.userId == caller
  {
    var r := List(caller, q, s).response.reply.todos;
    FilterMultiset(s.todos, Selects(caller, q));
    assert t in r <==> t in multiset(r);
  }

  /** Every further parameter only narrows the list: a todo listed under `q`
      is also listed without any parameter. */
  lemma ListNarrows(caller: UserId, q: Query, s: Store, t: Todo)
    requires t in List(caller, q, s).response.reply.todos
    ensures t in List(caller, NoQuery, s).response.reply.todos
  {
    ListSelectsExactly(caller, q, s, t);
    ListSelectsExactly(caller, NoQuery, s, t);
  }

  /** The caller's own todos, the documents both statistics pipelines match. */
  function Mine(caller: UserId): Todo -> bool {
    (t: Todo) => t.userId == caller
  }

  /** Without parameters, the list is every todo of the caller, newest first. */
  lemma ListWithoutQuery(caller: UserId, s: Store)
    ensures var r := List(caller, NoQuery, s).response.reply.todos;
            && multiset(r) == multiset(Filter(s.todos, Mine(caller)))
            && Sorted(r, BeforeIn(Order("createdAt", true)))
  {
    FilterSame(s.todos, Selects(caller, NoQuery), Mine(caller));
  }

  lemma {:induction false} FilterSame(s: seq<Todo>, p: Todo -> bool, q: Todo -> bool)
    requires forall t :: p(t) == q(t)
    ensures Filter(s, p) == Filter(s, q)
  {
    if s != [] {
      FilterSame(s[1..], p, q);
    }
  }

  /** The stats route's overdue test: a due date is set, lies strictly before
      the request time, and the todo is not completed. */
  predicate OverdueAt(t: Todo, now: Time) {
    t.dueDate.Some? && t.dueDate.value < now && t.completed == false
  }

  predicate HasCategory(ts: seq<Todo>, c: string) {
    exists k :: 0 <= k < |ts| && ts[k].category == c
  }

  /** The distinct categories of `ts`, in order of first appearance. */
  function Categories(ts: seq<Todo>): (cs: seq<string>)
    ensures forall i, j :: 0 <= i < j < |cs| ==> cs[i] != cs[j]
    ensures forall c :: c in cs <==> HasCategory(ts, c)
  {
    if ts == [] then []
    else
      var init := ts[..|ts| - 1];
      var last := ts[|ts| - 1].category;
      var prior := Categories(init);
      forall c ensures HasCategory(ts, c) <==> HasCategory(init, c) || c == last {
        if HasCategory(init, c) {
          var k :| 0 <= k < |init| && init[k].category == c;
          assert ts[k] == init[k];
        }
      }
      if last in prior then prior else prior + [last]
  }

  function CountIn(ts: seq<Todo>, category: string): nat {
    Count(ts, (t: Todo) => t.category == category)
  }

  function CompletedIn(ts: seq<Todo>, category: string): nat {
    Count(ts, (t: Todo) => t.category == category && t.completed)
  }

  function SumCounts(gs: seq<CategoryCount>): nat {
    if gs == [] then 0 else gs[0].count + SumCounts(gs[1..])
  }

  predicate DistinctCategories(gs: seq<CategoryCount>) {
    forall i, j :: 0 <= i < j < |gs| ==> gs[i].category != gs[j].category
  }

  /** The `$group` by category: one group per category present, counting its
      todos and its completed todos. */
  function Groups(ts: seq<Todo>): (gs: seq<CategoryCount>)
    ensures DistinctCategories(gs)
    ensures forall c :: HasCategory(ts, c) <==> exists i :: 0 <= i < |gs| && gs[i].category == c
    ensures forall i :: 0 <= i < |gs| ==> gs[i].count == CountIn(ts, gs[i].category) > 0
    ensures forall i :: 0 <= i < |gs| ==> gs[i].completed == CompletedIn(ts, gs[i].category) <= gs[i].count
  {
    var cs := Categories(ts);
    var gs := seq(|cs|, i requires 0 <= i < |cs| => CategoryCount(cs[i], CountIn(ts, cs[i]), CompletedIn(ts, cs[i])));
    forall c ensures HasCategory(ts, c) <==> exists i :: 0 <= i < |gs| && gs[i].category == c {
      if c in cs {
        var i :| 0 <= i < |cs| && cs[i] == c;
        assert gs[i].category == c;
      }
    }
    forall i | 0 <= i < |gs| ensures gs[i].count > 0 && gs[i].completed <= gs[i].count {
      assert cs[i] in cs;
      CountOfPresent(ts, cs[i]);
      CompletedAtMostCount(ts, cs[i]);
    }
    gs
  }

  lemma {:induction false} CountOfPresent(ts: seq<Todo>, c: string)
    requires HasCategory(ts, c)
    ensures CountIn(ts, c) > 0
  {
    if ts[0].category != c {
      var k :| 0 <= k < |ts| && ts[k].category == c;
      assert ts[1..][k - 1].category == c;
      CountOfPresent(ts[1..], c);
    }
  }

  lemma {:induction false} CompletedAtMostCount(ts: seq<Todo>, c: string)
    ensures CompletedIn(ts, c) <= CountIn(ts, c)
  {
    if ts != [] {
      CompletedAtMostCount(ts[1..], c);
    }
  }

  /** The category groups partition the todos: their counts add up to the
      number of todos. */
  lemma GroupsPartition(ts: seq<Todo>)
    ensures SumCounts(Groups(ts)) == |ts|
  {
    var gs := Groups(ts);
    var cs := Categories(ts);
    assert forall i :: 0 <= i < |gs| ==> gs[i].category == cs[i];
    SumCountsIsSumOver(gs, cs, ts);
    forall k | 0 <= k < |ts| ensures ts[k].category in cs {
      assert HasCategory(ts, ts[k].category);
    }
    SumOverCovering(cs, ts);
  }

  /** Number of todos of `ts` in each of the categories `cs`, added up. */
  function SumOver(cs: seq<string>, ts: seq<Todo>): nat {
    if cs == [] then 0 else CountIn(ts, cs[0]) + SumOver(cs[1..], ts)
  }

  lemma {:induction false} SumCountsIsSumOver(gs: seq<CategoryCount>, cs: seq<string>, ts: seq<Todo>)
    requires |gs| == |cs|
    requires forall i :: 0 <= i < |gs| ==> gs[i].category == cs[i] && gs[i].count == CountIn(ts, cs[i])
    ensures SumCounts(gs) == SumOver(cs, ts)
  {
    if gs != [] {
      SumCountsIsSumOver(gs[1..], cs[1..], ts);
    }
  }

  /** Occurrences of `c` in `cs`. */
  function Occurrences(cs: seq<string>, c: string): nat {
    if cs == [] then 0 else (if cs[0] == c then 1 else 0) + Occurrences(cs[1..], c)
  }

  lemma {:induction false} OccursOnce(cs: seq<string>, c: string)
    requires forall i, j :: 0 <= i < j < |cs| ==> cs[i] != cs[j]
    requires c in cs
    ensures Occurrences(cs, c) == 1
  {
    if cs[0] == c {
      OccursNot(cs[1..], c);
    } else {
      OccursOnce(cs[1..], c);
    }
  }

  lemma {:induction false} OccursNot(cs: seq<string>, c: string)
    requires c !in cs
    ensures Occurrences(cs, c) == 0
  {
    if cs != [] {
      OccursNot(cs[1..], c);
    }
  }

  /** Moving one todo to the front of the list adds one to the count of
      exactly the categories equal to its own. */
  lemma {:induction false} SumOverCons(cs: seq<string>, t: Todo, ts: seq<Todo>)
    ensures SumOver(cs, [t] + ts) == SumOver(cs, ts) + Occurrences(cs, t.category)
  {
    if cs != [] {
      SumOverCons(cs[1..], t, ts);
      assert ([t] + ts)[1..] == ts;
    }
  }

  lemma {:induction false} SumOverCovering(cs: seq<string>, ts: seq<Todo>)
    requires forall i, j :: 0 <= i < j < |cs| ==> cs[i] != cs[j]
    requires forall k :: 0 <= k < |ts| ==> ts[k].category in cs
    ensures SumOver(cs, ts) == |ts|
  {
    if ts == [] {
      SumOverEmpty(cs);
    } else {
      assert ts == [ts[0]] + ts[1..];
      SumOverCons(cs, ts[0], ts[1..]);
      OccursOnce(cs, ts[0].category);
      forall k | 0 <= k < |ts[1..]| ensures ts[1..][k].category in cs {
        assert ts[1..][k] == ts[k + 1];
      }
      SumOverCovering(cs, ts[1..]);
    }
  }

  lemma {:induction false} SumOverEmpty(cs: seq<string>)
    ensures SumOver(cs, []) == 0
  {
    if cs != [] {
      SumOverEmpty(cs[1..]);
    }
  }

  /** The statistics object: `overall` is all zeros when the caller has no
      todo (the pipeline then yields no document). */
  function OverallOf(mine: seq<Todo>, now: Time): Overall {
    if mine == [] then Overall(0, 0, 0, 0)
    else Overall(|mine|, Count(mine, (t: Todo) => t.completed), Count(mine, (t: Todo) => t.priority == "high"),
                 Count(mine, (t: Todo) => OverdueAt(t, now)))
  }

  /** `GET /api/todos/stats`, behind the token gate. */
  function Stats(caller: UserId, now: Time, s: Store): (o: Outcome)
    ensures o.store == s && o.response.status == 200 && o.response.reply.Statistics?
    ensures var mine := Filter(s.todos, Mine(caller));
            var all := o.response.reply.overall;
            && all.total == |mine|
            && all.completed == Count(mine, (t: Todo) => t.completed)
            && all.highPriority == Count(mine, (t: Todo) => t.priority == "high")
            && all.overdue == Count(mine, (t: Todo) => OverdueAt(t, now))
    ensures var mine := Filter(s.todos, Mine(caller));
            var gs := o.response.reply.byCategory;
            && DistinctCategories(gs)
            && SumCounts(gs) == o.response.reply.overall.total
            && (forall c :: HasCategory(mine, c) <==> exists i :: 0 <= i < |gs| && gs[i].category == c)
            && (forall i :: 0 <= i < |gs| ==>
                 gs[i].count == CountIn(mine, gs[i].category) && gs[i].completed == CompletedIn(mine, gs[i].category))
  {
    var mine := Filter(s.todos, Mine(caller));
    GroupsPartition(mine);
    Outcome(Response(200, Statistics(OverallOf(mine, now), Groups(mine))), s)
  }

  /** The statistics total is the length of the caller's unfiltered list. */
  lemma StatsTotalIsListLength(caller: UserId, now: Time, s: Store)
    ensures Stats(caller, now, s).response.reply.overall.total == |List(caller, NoQuery, s).response.reply.todos|
  {
    ListWithoutQuery(caller, s);
    var r := List(caller, NoQuery, s).response.reply.todos;
    assert |r| == |multiset(r)|;
  }
}
