/** The order MongoDB sorts todo documents in for `.sort({ [field]: ±1 })`:
    values compared by BSON type first (missing/null, then strings, then
    booleans, then dates), then within the type; strings by code point. */
module Ordering {
  import opened Maybe
  import opened Records
  import opened Sorting

  /** The value a document holds under a sort field. */
  datatype Key = Missing | Text(s: string) | Flag(b: bool) | Date(t: Time)

  function Rank(k: Key): nat {
    match k
    case Missing => 0
    case Text(_) => 1
    case Flag(_) => 2
    case Date(_) => 3
  }

  /** Lexicographic order on strings by code point; a prefix comes first. */
  predicate TextLeq(a: string, b: string) {
    if a == [] then true
    else if b == [] then false
    else if a[0] != b[0] then a[0] < b[0]
    else TextLeq(a[1..], b[1..])
  }

  lemma {:induction false} TextLeqTotal(a: string, b: string)
    ensures TextLeq(a, b) || TextLeq(b, a)
  {
    if a != [] && b != [] && a[0] == b[0] {
      TextLeqTotal(a[1..], b[1..]);
    }
  }

  lemma {:induction false} TextLeqTransitive(a: string, b: string, c: string)
    requires TextLeq(a, b) && TextLeq(b, c)
    ensures TextLeq(a, c)
  {
    if a != [] && b != [] && c != [] && a[0] == b[0] && b[0] == c[0] {
      TextLeqTransitive(a[1..], b[1..], c[1..]);
    }
  }

  lemma {:induction false} TextLeqAntisymmetric(a: string, b: string)
    requires TextLeq(a, b) && TextLeq(b, a)
    ensures a == b
  {
    if a != [] && b != [] {
      TextLeqAntisymmetric(a[1..], b[1..]);
      assert a == [a[0]] + a[1..] && b == [b[0]] + b[1..];
    }
  }

  predicate KeyLeq(a: Key, b: Key) {
    if Rank(a) != Rank(b) then Rank(a) < Rank(b)
    else match (a, b)
      case (Text(x), Text(y)) => TextLeq(x, y)
      case (Flag(x), Flag(y)) => !x || y
      case (Date(x), Date(y)) => x <= y
      case _ => true
  }

  lemma KeyLeqTotal(a: Key, b: Key)
    ensures KeyLeq(a, b) || KeyLeq(b, a)
  {
    if a.Text? && b.Text? {
      TextLeqTotal(a.s, b.s);
    }
  }

  lemma KeyLeqTransitive(a: Key, b: Key, c: Key)
    requires KeyLeq(a, b) && KeyLeq(b, c)
    ensures KeyLeq(a, c)
  {
    if a.Text? && b.Text? && c.Text? {
      TextLeqTransitive(a.s, b.s, c.s);
    }
  }

  /** The sort key of `t` under field name `field`. A name that is not a
      field of the schema (or `tags`, whose array ordering is not modelled)
      reads as missing for every document, so it imposes no order. */
  function KeyOf(t: Todo, field: string): Key {
    match field
    case "title" => Text(t.title)
    case "description" => Text(t.description)
    case "category" => Text(t.category)
    case "priority" => Text(t.priority)
    case "userId" => Text(t.userId)
    case "_id" => Text(t.id)
    case "completed" => Flag(t.completed)
    case "dueDate" => if t.dueDate.Some? then Date(t.dueDate.value) else Missing
    case "createdAt" => Date(t.createdAt)
    case "updatedAt" => Date(t.updatedAt)
    case _ => Missing
  }

  /** A sort specification `{ [field]: descending ? -1 : 1 }`. */
  datatype Order = Order(field: string, descending: bool)

  /** `a` may come before `b` in the result of a sort by `o`. */
  predicate Before(a: Todo, b: Todo, o: Order) {
    if o.descending then KeyLeq(KeyOf(b, o.field), KeyOf(a, o.field))
    else KeyLeq(KeyOf(a, o.field), KeyOf(b, o.field))
  }

  lemma BeforeTotal(a: Todo, b: Todo, o: Order)
    ensures Before(a, b, o) || Before(b, a, o)
  {
    KeyLeqTotal(KeyOf(a, o.field), KeyOf(b, o.field));
  }

  lemma BeforeTransitive(a: Todo, b: Todo, c: Todo, o: Order)
    requires Before(a, b, o) && Before(b, c, o)
    ensures Before(a, c, o)
  {
    if o.descending {
      KeyLeqTransitive(KeyOf(c, o.field), KeyOf(b, o.field), KeyOf(a, o.field));
    } else {
      KeyLeqTransitive(KeyOf(a, o.field), KeyOf(b, o.field), KeyOf(c, o.field));
    }
  }

  /** The comparison of a sort by `o`, as a relation. */
  function BeforeIn(o: Order): (Todo, Todo) -> bool {
    (a, b) => Before(a, b, o)
  }

  /** Every sort specification orders documents by a total preorder, so a
      sort by it is well defined up to the order of ties. */
  lemma BeforeIsTotalPreorder(o: Order)
    ensures TotalPreorder(BeforeIn(o))
  {
    forall a, b ensures BeforeIn(o)(a, b) || BeforeIn(o)(b, a) {
      BeforeTotal(a, b, o);
    }
    forall a, b, c | BeforeIn(o)(a, b) && BeforeIn(o)(b, c) ensures BeforeIn(o)(a, c) {
      BeforeTransitive(a, b, c, o);
    }
  }
}
