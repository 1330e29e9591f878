/** The daily aggregator: one day's raw action events become a table with
    one row per user (email) holding that user's create, read, update and
    delete counts for the day. */
module DailyAggregate {

  /** The four action kinds of a raw log row. The set is closed: a row whose
      action is none of these cannot be represented. */
  datatype Action = Create | Read | Update | Delete

  /** One raw log row. The timestamp `dt` is carried but takes part in no
      computation. */
  datatype Event = Event(email: string, action: Action, dt: string)

  /** One row of a daily aggregate or of a window report. The fields are
      bound to actions by name (see `Field`), never by column position. */
  datatype Counts = Counts(create: nat, read: nat, update: nat, delete: nat)

  /** A daily aggregate or a window report: email -> counts. */
  type Table = map<string, Counts>

  const Zero: Counts := Counts(0, 0, 0, 0)

  /** The count that `c` holds for action `a`. */
  function Field(c: Counts, a: Action): nat
  {
    match a
    case Create => c.create
    case Read => c.read
    case Update => c.update
    case Delete => c.delete
  }

  /** Sum of the four counts of a row. */
  function Total(c: Counts): nat
  {
    c.create + c.read + c.update + c.delete
  }

  /** Adds one occurrence of `a` to a row. */
  function Bump(c: Counts, a: Action): Counts
  {
    Counts(c.create + (if a == Create then 1 else 0), c.read + (if a == Read then 1 else 0),
           c.update + (if a == Update then 1 else 0), c.delete + (if a == Delete then 1 else 0))
  }

  /** The row of `email`, all zero when the table has none (`fill_value=0`). */
  function RowOf(t: Table, email: string): Counts
  {
    if email in t then t[email] else Zero
  }

  /** The distinct emails that occur in `events`. */
  function Emails(events: seq<Event>): set<string>
  {
    if events == [] then {} else {events[0].email} + Emails(events[1..])
  }

  /** An email is in `Emails(events)` exactly when some event carries it. */
  lemma {:induction false} EmailsOccur(events: seq<Event>, email: string)
    ensures email in Emails(events) <==> exists i :: 0 <= i < |events| && events[i].email == email
  {
    if events != [] {
      EmailsOccur(events[1..], email);
      if email in Emails(events[1..]) {
        var i :| 0 <= i < |events[1..]| && events[1..][i].email == email;
        assert events[i + 1].email == email;
      }
      if exists i :: 0 <= i < |events| && events[i].email == email {
        var i :| 0 <= i < |events| && events[i].email == email;
        if i > 0 {
          assert events[1..][i - 1].email == email;
        }
      }
    }
  }

  /** Number of events of `email` whose action is `a`. */
  function Occurrences(events: seq<Event>, email: string, a: Action): nat
  {
    if events == [] then 0
    else (if events[0].email == email && events[0].action == a then 1 else 0)
         + Occurrences(events[1..], email, a)
  }

  /** Number of events of `email`, whatever the action. */
  function EventsBy(events: seq<Event>, email: string): nat
  {
    if events == [] then 0
    else (if events[0].email == email then 1 else 0) + EventsBy(events[1..], email)
  }

  /** The pivot of one day's events by email and action, with absent
      actions counted 0. */
  function AggregateData(events: seq<Event>): Table
  {
    if events == [] then map[]
    else
      var rest := AggregateData(events[1..]);
      var e := events[0];
      rest[e.email := Bump(RowOf(rest, e.email), e.action)]
  }

  /** The aggregate has a row for exactly the distinct emails of the input. */
  lemma {:induction false} AggregateKeys(events: seq<Event>)
    ensures AggregateData(events).Keys == Emails(events)
  {
    if events != [] {
      AggregateKeys(events[1..]);
    }
  }

  /** Every count of the aggregate is the number of input events with that
      email and that action; an email or action never seen counts 0. */
  lemma {:induction false} AggregateCounts(events: seq<Event>, email: string, a: Action)
    ensures Field(RowOf(AggregateData(events), email), a) == Occurrences(events, email, a)
  {
    if events != [] {
      AggregateCounts(events[1..], email, a);
    }
  }

  /** A user's events split by action. */
  lemma {:induction false} EventsBySplit(events: seq<Event>, email: string)
    ensures EventsBy(events, email)
         == Occurrences(events, email, Create) + Occurrences(events, email, Read)
          + Occurrences(events, email, Update) + Occurrences(events, email, Delete)
  {
    if events != [] {
      EventsBySplit(events[1..], email);
    }
  }

  /** The four counts of a user's row add up to the number of that user's
      events (0 for an email without a row). */
  lemma AggregateTotals(events: seq<Event>, email: string)
    ensures Total(RowOf(AggregateData(events), email)) == EventsBy(events, email)
  {
    var row := RowOf(AggregateData(events), email);
    AggregateCounts(events, email, Create);
    AggregateCounts(events, email, Read);
    AggregateCounts(events, email, Update);
    AggregateCounts(events, email, Delete);
    EventsBySplit(events, email);
    assert Total(row) == Field(row, Create) + Field(row, Read) + Field(row, Update) + Field(row, Delete);
  }

  /** A non-empty day yields a non-empty aggregate. */
  lemma AggregateNonEmpty(events: seq<Event>)
    requires events != []
    ensures AggregateData(events) != map[]
  {
    assert events[0].email in AggregateData(events);
  }

  // ---------------------------------------------------------------------
  // The aggregation as the source writes it: pivot, then rename columns by
  // position.

  /** The action names in the alphabetical order in which the pivot lays
      out its columns: create, delete, read, update. */
  const PivotOrder: seq<Action> := [Create, Delete, Read, Update]

  /** The names the rename assigns, position by position, after `email`. */
  const CountColumns: seq<string> := ["create_count", "delete_count", "read_count", "update_count"]

  /** Some event of the day performs `a`. */
  predicate Present(events: seq<Event>, a: Action)
  {
    events != [] && (events[0].action == a || Present(events[1..], a))
  }

  /** The pivot's action columns: only the actions that occur, in order. */
  function PivotColumns(order: seq<Action>, events: seq<Event>): (cols: seq<Action>)
    ensures |cols| <= |order|
    ensures forall a :: a in cols <==> a in order && Present(events, a)
  {
    if order == [] then []
    else (if Present(events, order[0]) then [order[0]] else [])
         + PivotColumns(order[1..], events)
  }

  datatype RenameError = LengthMismatch(expected: nat, given: nat)

  datatype Result<T> = Ok(value: T) | Err(error: RenameError)

  /** The pivot followed by the positional rename: the k-th action column
      takes the k-th name of `CountColumns`, and the rename fails when the
      number of columns differs from the number of names. */
  function AggregateAsWritten(events: seq<Event>): Result<Table>
  {
    var cols := PivotColumns(PivotOrder, events);
    if 1 + |cols| != 1 + |CountColumns| then
      Err(LengthMismatch(1 + |cols|, 1 + |CountColumns|))
    else
      Ok(map email | email in Emails(events) ::
           Counts(create := Occurrences(events, email, cols[0]),
                  read := Occurrences(events, email, cols[2]),
                  update := Occurrences(events, email, cols[3]),
                  delete := Occurrences(events, email, cols[1])))
  }

  lemma {:induction false} PivotColumnsAll(order: seq<Action>, events: seq<Event>)
    requires forall a :: Present(events, a)
    ensures PivotColumns(order, events) == order
  {
    if order != [] {
      PivotColumnsAll(order[1..], events);
    }
  }

  lemma {:induction false} PivotColumnsShort(order: seq<Action>, events: seq<Event>, a: Action)
    requires a in order && !Present(events, a)
    ensures |PivotColumns(order, events)| < |order|
  {
    if order[0] != a {
      PivotColumnsShort(order[1..], events, a);
    }
  }

  /** `a` occurs in `order` strictly before some occurrence of `b`. */
  predicate Before(a: Action, b: Action, order: seq<Action>)
  {
    exists p, q :: 0 <= p < q < |order| && a == order[p] && b == order[q]
  }

  /** Of any two entries of `cols`, the earlier one comes strictly earlier
      in `order`. */
  predicate KeepsOrder(cols: seq<Action>, order: seq<Action>)
  {
    forall i, j :: 0 <= i < j < |cols| ==> Before(cols[i], cols[j], order)
  }

  /** An order kept within `tail` is kept within `tail` with a new first
      entry. */
  lemma KeepsOrderSkip(x: Action, cols: seq<Action>, tail: seq<Action>)
    requires KeepsOrder(cols, tail)
    ensures KeepsOrder(cols, [x] + tail)
  {
    var order := [x] + tail;
    forall i, j | 0 <= i < j < |cols|
      ensures Before(cols[i], cols[j], order)
    {
      assert Before(cols[i], cols[j], tail);
      var p, q :| 0 <= p < q < |tail| && cols[i] == tail[p] && cols[j] == tail[q];
      assert cols[i] == order[p + 1] && cols[j] == order[q + 1];
    }
  }

  /** Taking the new first entry of the order as the first column keeps the
      order, when the other columns come from `tail`. */
  lemma KeepsOrderTake(x: Action, cols: seq<Action>, tail: seq<Action>)
    requires KeepsOrder(cols, tail)
    requires forall a :: a in cols ==> a in tail
    ensures KeepsOrder([x] + cols, [x] + tail)
  {
    var order := [x] + tail;
    var all := [x] + cols;
    forall i, j | 0 <= i < j < |all|
      ensures Before(all[i], all[j], order)
    {
      if i == 0 {
        assert all[j] == cols[j - 1] && cols[j - 1] in cols;
        var q :| 0 <= q < |tail| && tail[q] == cols[j - 1];
        assert all[i] == order[0] && all[j] == order[q + 1];
      } else {
        assert all[i] == cols[i - 1] && all[j] == cols[j - 1];
        assert Before(cols[i - 1], cols[j - 1], tail);
        var p, q :| 0 <= p < q < |tail| && cols[i - 1] == tail[p] && cols[j - 1] == tail[q];
        assert all[i] == order[p + 1] && all[j] == order[q + 1];
      }
    }
  }

  /** The pivot's columns keep the relative order of `order`. */
  lemma {:induction false} PivotColumnsKeepOrder(order: seq<Action>, events: seq<Event>)
    ensures KeepsOrder(PivotColumns(order, events), order)
  {
    if order != [] {
      var tail := order[1..];
      var rest := PivotColumns(tail, events);
      PivotColumnsKeepOrder(tail, events);
      assert order == [order[0]] + tail;
      if Present(events, order[0]) {
        KeepsOrderTake(order[0], rest, tail);
        assert PivotColumns(order, events) == [order[0]] + rest;
      } else {
        KeepsOrderSkip(order[0], rest, tail);
        assert PivotColumns(order, events) == rest;
      }
    }
  }

  /** The rename succeeds exactly when the day contains all four actions. */
  lemma AsWrittenSucceedsIffComplete(events: seq<Event>)
    ensures AggregateAsWritten(events).Ok? <==> forall a :: Present(events, a)
  {
    if forall a :: Present(events, a) {
      PivotColumnsAll(PivotOrder, events);
    } else {
      var a :| !Present(events, a);
      assert a == PivotOrder[0] || a == PivotOrder[1] || a == PivotOrder[2] || a == PivotOrder[3];
      PivotColumnsShort(PivotOrder, events, a);
    }
  }

  /** When it succeeds, the positional rename happens to bind every column
      to its own action, so it agrees with `AggregateData`. */
  lemma AsWrittenAgreesWhenComplete(events: seq<Event>)
    requires forall a :: Present(events, a)
    ensures AggregateAsWritten(events) == Ok(AggregateData(events))
  {
    PivotColumnsAll(PivotOrder, events);
    AggregateKeys(events);
    var t := AggregateData(events);
    var named := map email | email in Emails(events) ::
      Counts(Occurrences(events, email, Create), Occurrences(events, email, Read),
             Occurrences(events, email, Update), Occurrences(events, email, Delete));
    assert AggregateAsWritten(events) == Ok(named);
    forall email | email in t ensures t[email] == named[email] {
      AggregateCounts(events, email, Create);
      AggregateCounts(events, email, Read);
      AggregateCounts(events, email, Update);
      AggregateCounts(events, email, Delete);
    }
    assert t == named;
  }

  /** The day of two creates and a read used below. */
  const IncompleteDay: seq<Event> :=
    [Event("a@x", Create, "t1"), Event("a@x", Create, "t2"), Event("b@x", Read, "t3")]

  /** A day of two creates and a read, for any users and timestamps,
      performs exactly the actions create and read. */
  lemma {:induction false} CreatesAndReadPresent(a: string, b: string, t1: string, t2: string, t3: string)
    ensures var day := [Event(a, Create, t1), Event(a, Create, t2), Event(b, Read, t3)];
      Present(day, Create) && Present(day, Read) && !Present(day, Delete) && !Present(day, Update)
  {
    var day := [Event(a, Create, t1), Event(a, Create, t2), Event(b, Read, t3)];
    var mid := [Event(a, Create, t2), Event(b, Read, t3)];
    var last := [Event(b, Read, t3)];
    assert day[1..] == mid && mid[1..] == last && last[1..] == [];
    assert !Present(last, Delete) && !Present(last, Update) && Present(last, Read);
    assert !Present(mid, Delete) && !Present(mid, Update);
  }

  /** Such a day has the pivot columns create and read. */
  lemma {:induction false} CreatesAndReadColumns(a: string, b: string, t1: string, t2: string, t3: string)
    ensures PivotColumns(PivotOrder, [Event(a, Create, t1), Event(a, Create, t2), Event(b, Read, t3)])
         == [Create, Read]
  {
    var day := [Event(a, Create, t1), Event(a, Create, t2), Event(b, Read, t3)];
    CreatesAndReadPresent(a, b, t1, t2, t3);
    assert PivotColumns([Update], day) == [];
    assert PivotColumns([Read, Update], day) == [Read];
    assert PivotColumns([Delete, Read, Update], day) == [Read];
    assert PivotOrder[0] == Create && PivotOrder[1..] == [Delete, Read, Update];
    assert [Create] + [Read] == [Create, Read];
  }

  /** On that day the pivot has two action columns, so the five-name rename
      fails. */
  lemma AsWrittenRejectsIncompleteDay()
    ensures AggregateAsWritten(IncompleteDay) == Err(LengthMismatch(3, 5))
  {
    CreatesAndReadColumns("a@x", "b@x", "t1", "t2", "t3");
  }

  /** The intended aggregate of that day counts the missing actions as 0. */
  lemma IncompleteDayAggregate()
    ensures AggregateData(IncompleteDay) == map["a@x" := Counts(2, 0, 0, 0), "b@x" := Counts(0, 1, 0, 0)]
  {
    assert "a@x" != "b@x" by { assert "a@x"[0] != "b@x"[0]; }
    TwoCreatesAndARead("a@x", "b@x", "t1", "t2", "t3");
  }

  /** The aggregate of a day with one more event in front. */
  lemma AggregateCons(e: Event, rest: seq<Event>)
    ensures AggregateData([e] + rest)
         == AggregateData(rest)[e.email := Bump(RowOf(AggregateData(rest), e.email), e.action)]
  {
    assert ([e] + rest)[1..] == rest;
  }

  lemma OneRead(b: string, t3: string)
    ensures AggregateData([Event(b, Read, t3)]) == map[b := Counts(0, 1, 0, 0)]
  {
    AggregateCons(Event(b, Read, t3), []);
    assert [Event(b, Read, t3)] + [] == [Event(b, Read, t3)];
  }

  lemma CreateThenRead(a: string, b: string, t2: string, t3: string)
    requires a != b
    ensures AggregateData([Event(a, Create, t2), Event(b, Read, t3)])
         == map[a := Counts(1, 0, 0, 0), b := Counts(0, 1, 0, 0)]
  {
    OneRead(b, t3);
    AggregateCons(Event(a, Create, t2), [Event(b, Read, t3)]);
    assert [Event(a, Create, t2)] + [Event(b, Read, t3)] == [Event(a, Create, t2), Event(b, Read, t3)];
  }

  /** For any two distinct users, two creates by the first and a read by the
      second give a row each, the actions they did not perform at 0. */
  lemma TwoCreatesAndARead(a: string, b: string, t1: string, t2: string, t3: string)
    requires a != b
    ensures AggregateData([Event(a, Create, t1), Event(a, Create, t2), Event(b, Read, t3)])
         == map[a := Counts(2, 0, 0, 0), b := Counts(0, 1, 0, 0)]
  {
    CreateThenRead(a, b, t2, t3);
    var tail := [Event(a, Create, t2), Event(b, Read, t3)];
    AggregateCons(Event(a, Create, t1), tail);
    assert [Event(a, Create, t1)] + tail == [Event(a, Create, t1), Event(a, Create, t2), Event(b, Read, t3)];
  }
}
