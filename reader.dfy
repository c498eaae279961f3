/** The constraint reader: `getUserConstraints` turns the three per-user
    query results (foods with their safety flag, problematic sensory
    triggers, confirmed conditions) into the text block that is placed in
    the next prompt. */
module ConstraintReader {
  import opened JsValues
  import opened Text

  /** One joined result row: the catalog name and the flag column of the
      preference table (`is_safe`, `is_problematic` or `has_condition`). */
  datatype Row = Row(name: string, flag: int)

  /** What a query callback receives: an error, or its rows. */
  datatype QueryResult = QueryFailed | Rows(rows: seq<Row>)

  /** The three queries, in the order the callbacks may arrive. */
  datatype Query = FoodQuery | SensoryQuery | ConditionQuery

  const ListLimit: nat := 10
  const AvoidFoodsTitle := "AVOID FOODS"
  const SensoryTitle := "SENSORY TRIGGERS"
  const ConditionsTitle := "CONDITIONS"

  function Min(a: nat, b: nat): nat
  {
    if a <= b then a else b
  }

  /** `items.map(i => i.name)`. */
  function Names(items: seq<Row>): (names: seq<string>)
    ensures |names| == |items|
    ensures forall k :: 0 <= k < |items| ==> names[k] == items[k].name
  {
    seq(|items|, k requires 0 <= k < |items| => items[k].name)
  }

  /** The rows a callback keeps: none when the query failed. */
  function Delivered(q: QueryResult): seq<Row>
  {
    match q
    case QueryFailed => []
    case Rows(rows) => rows
  }

  /** The food rows with `is_safe === 0`, in query order. */
  function UnsafeFoods(rows: seq<Row>): (r: seq<Row>)
    ensures forall x :: x in r <==> x in rows && x.flag == 0
  {
    if rows == [] then []
    else
      var prev := UnsafeFoods(rows[..|rows| - 1]);
      var last := rows[|rows| - 1];
      assert rows == rows[..|rows| - 1] + [last];
      if last.flag == 0 then prev + [last] else prev
  }

  /** The food rows kept in `safeFoods`: every other flag value. */
  function SafeFoods(rows: seq<Row>): (r: seq<Row>)
    ensures forall x :: x in r <==> x in rows && x.flag != 0
  {
    if rows == [] then []
    else
      var prev := SafeFoods(rows[..|rows| - 1]);
      var last := rows[|rows| - 1];
      assert rows == rows[..|rows| - 1] + [last];
      if last.flag != 0 then prev + [last] else prev
  }

  /** The tail of a line that shows only part of its list. */
  function MoreTail(remaining: int): string
  {
    if remaining > 0 then ", and " + NatToString(remaining) + " more" else ""
  }

  /** `formatList(title, items, limit)`: no line for an empty list;
      otherwise the title, the first `limit` names and a count of the rest. */
  function FormatList(title: string, items: seq<Row>, limit: nat): (line: Option<string>)
    ensures line.None? <==> items == []
  {
    if |items| == 0 then None
    else
      var visible := Join(Names(items[..Min(limit, |items|)]), ", ");
      Some(title + ": " + visible + MoreTail(|items| - limit))
  }

  /** The lines of the summary that are present, in order. */
  function Present(line: Option<string>): seq<string>
  {
    if line.Some? then [line.value] else []
  }

  /** The lines formatted from the three lists: the avoid-foods,
      sensory-trigger and condition lines, each only when its list is
      non-empty. */
  function Parts(unsafe: seq<Row>, triggers: seq<Row>, conditions: seq<Row>): seq<string>
  {
    Present(FormatList(AvoidFoodsTitle, unsafe, ListLimit))
    + Present(FormatList(SensoryTitle, triggers, ListLimit))
    + Present(FormatList(ConditionsTitle, conditions, ListLimit))
  }

  /** `contextParts` once all three callbacks have run. */
  function Lines(foods: QueryResult, sensory: QueryResult, conditions: QueryResult): seq<string>
  {
    Parts(UnsafeFoods(Delivered(foods)), Delivered(sensory), Delivered(conditions))
  }

  /** The string `getUserConstraints` resolves with. */
  function Summary(user: Option<UserId>, foods: QueryResult, sensory: QueryResult,
                   conditions: QueryResult): string
  {
    if !HasUser(user) then "" else Join(Lines(foods, sensory, conditions), "\n")
  }

  // ---------------------------------------------------------------------
  // Properties of the summary

  /** A non-empty list gives one line: the title, then the names of the first
      `limit` rows in order, then (exactly when rows are left over) the
      count of the remaining rows, which reads back as that count. */
  lemma FormatListShows(title: string, items: seq<Row>, limit: nat)
    requires items != []
    ensures FormatList(title, items, limit).Some?
    ensures var shown := Names(items)[..Min(limit, |items|)];
      && |shown| <= limit
      && FormatList(title, items, limit).value
         == title + ": " + Join(shown, ", ") + MoreTail(|items| - limit)
    ensures |items| <= limit ==> MoreTail(|items| - limit) == ""
    ensures |items| > limit ==>
      var k := NatToString(|items| - limit);
      && MoreTail(|items| - limit) == ", and " + k + " more"
      && ParseNat(k) + limit == |items|
  {
    assert Names(items)[..Min(limit, |items|)] == Names(items[..Min(limit, |items|)]);
    if |items| > limit {
      NatToStringRoundTrip(|items| - limit);
    }
  }

  lemma {:induction false} JoinAvoids(parts: seq<string>, sep: string, c: char)
    requires c !in sep
    requires forall k :: 0 <= k < |parts| ==> c !in parts[k]
    ensures c !in Join(parts, sep)
  {
    if |parts| > 1 {
      JoinAvoids(parts[1..], sep, c);
    }
  }

  /** No name in the rows contains `c`. */
  predicate NamesAvoid(rows: seq<Row>, c: char)
  {
    forall k :: 0 <= k < |rows| ==> c !in rows[k].name
  }

  lemma FormatListAvoids(title: string, items: seq<Row>, limit: nat, c: char)
    requires FormatList(title, items, limit).Some?
    requires c !in title && c != ':' && c != ' ' && c != ',' && !IsDigit(c)
    requires c !in "andmore"
    requires NamesAvoid(items, c)
    ensures c !in FormatList(title, items, limit).value
  {
    var shown := Names(items[..Min(limit, |items|)]);
    JoinAvoids(shown, ", ", c);
    var n := |items| - limit;
    if n > 0 {
      assert c !in NatToString(n);
      assert MoreTail(n) == ", and " + NatToString(n) + " more";
    }
  }

  lemma UnsafeFoodsAvoid(rows: seq<Row>, c: char)
    requires NamesAvoid(rows, c)
    ensures NamesAvoid(UnsafeFoods(rows), c)
  {
    var unsafe := UnsafeFoods(rows);
    forall k | 0 <= k < |unsafe| ensures c !in unsafe[k].name {
      assert unsafe[k] in unsafe;
      var j :| 0 <= j < |rows| && rows[j] == unsafe[k];
    }
  }

  /** A line of the summary, when present, holds no newline. */
  lemma PresentAvoids(title: string, items: seq<Row>)
    requires title == AvoidFoodsTitle || title == SensoryTitle || title == ConditionsTitle
    requires NamesAvoid(items, '\n')
    ensures forall k :: 0 <= k < |Present(FormatList(title, items, ListLimit))| ==>
      '\n' !in Present(FormatList(title, items, ListLimit))[k]
  {
    if items != [] {
      FormatListAvoids(title, items, ListLimit, '\n');
    }
  }

  lemma ConcatAvoid(a: seq<string>, b: seq<string>, c: char)
    requires forall k :: 0 <= k < |a| ==> c !in a[k]
    requires forall k :: 0 <= k < |b| ==> c !in b[k]
    ensures forall k :: 0 <= k < |a + b| ==> c !in (a + b)[k]
  {
  }

  /** The summary is a newline-separated list of its lines: when no name
      contains a newline, splitting the summary at newlines gives back the
      avoid-foods, sensory and condition lines, in that order. */
  lemma SummaryLines(user: Option<UserId>, foods: QueryResult, sensory: QueryResult,
                     conditions: QueryResult)
    requires HasUser(user)
    requires NamesAvoid(Delivered(foods), '\n')
    requires NamesAvoid(Delivered(sensory), '\n')
    requires NamesAvoid(Delivered(conditions), '\n')
    requires Lines(foods, sensory, conditions) != []
    ensures Split(Summary(user, foods, sensory, conditions), '\n') == Lines(foods, sensory, conditions)
  {
    var unsafe := UnsafeFoods(Delivered(foods));
    UnsafeFoodsAvoid(Delivered(foods), '\n');
    var f := Present(FormatList(AvoidFoodsTitle, unsafe, ListLimit));
    var s := Present(FormatList(SensoryTitle, Delivered(sensory), ListLimit));
    var c := Present(FormatList(ConditionsTitle, Delivered(conditions), ListLimit));
    PresentAvoids(AvoidFoodsTitle, unsafe);
    PresentAvoids(SensoryTitle, Delivered(sensory));
    PresentAvoids(ConditionsTitle, Delivered(conditions));
    ConcatAvoid(f, s, '\n');
    ConcatAvoid(f + s, c, '\n');
    SplitJoin(Lines(foods, sensory, conditions), '\n');
  }

  lemma {:induction false} JoinEmpty(parts: seq<string>, sep: string)
    requires forall k :: 0 <= k < |parts| ==> parts[k] != ""
    ensures Join(parts, sep) == "" <==> parts == []
  {
    if |parts| > 1 {
      JoinEmpty(parts[1..], sep);
    }
  }

  /** The summary is empty exactly when there is no user, or no unsafe food,
      no sensory trigger and no condition was delivered. */
  lemma SummaryEmptyIff(user: Option<UserId>, foods: QueryResult, sensory: QueryResult,
                        conditions: QueryResult)
    ensures Summary(user, foods, sensory, conditions) == "" <==>
      (!HasUser(user) ||
       (UnsafeFoods(Delivered(foods)) == [] && Delivered(sensory) == [] && Delivered(conditions) == []))
  {
    var lines := Lines(foods, sensory, conditions);
    forall k | 0 <= k < |lines| ensures lines[k] != "" {
    }
    JoinEmpty(lines, "\n");
  }

  lemma {:induction false} UnsafeFoodsAppend(a: seq<Row>, b: seq<Row>)
    ensures UnsafeFoods(a + b) == UnsafeFoods(a) + UnsafeFoods(b)
    decreases |b|
  {
    if b == [] {
      assert a + b == a;
    } else {
      var b' := b[..|b| - 1];
      assert (a + b)[..|a + b| - 1] == a + b';
      UnsafeFoodsAppend(a, b');
    }
  }

  /** Safe foods never reach the summary: adding a row whose flag is not 0
      anywhere in the food results leaves the summary unchanged. */
  lemma SafeFoodIgnored(user: Option<UserId>, before: seq<Row>, safe: Row, after: seq<Row>,
                        sensory: QueryResult, conditions: QueryResult)
    requires safe.flag != 0
    ensures Summary(user, Rows(before + [safe] + after), sensory, conditions)
         == Summary(user, Rows(before + after), sensory, conditions)
  {
    UnsafeFoodsAppend(before + [safe], after);
    UnsafeFoodsAppend(before, [safe]);
    UnsafeFoodsAppend(before, after);
    assert UnsafeFoods([safe]) == [] by {
      assert [safe][..0] == [];
    }
  }

  /** A failed query degrades its category to "nothing known" instead of
      failing the read. */
  lemma FailedQueryIsEmpty(user: Option<UserId>, foods: QueryResult, sensory: QueryResult,
                           conditions: QueryResult)
    ensures Summary(user, QueryFailed, sensory, conditions) == Summary(user, Rows([]), sensory, conditions)
    ensures Summary(user, foods, QueryFailed, conditions) == Summary(user, foods, Rows([]), conditions)
    ensures Summary(user, foods, sensory, QueryFailed) == Summary(user, foods, sensory, Rows([]))
  {
  }

  /** One unsafe food and nothing else: the summary is the single line
      `AVOID FOODS: <name>`. */
  lemma OneUnsafeFood(user: Option<UserId>, name: string)
    requires HasUser(user)
    ensures Summary(user, Rows([Row(name, 0)]), Rows([]), Rows([])) == AvoidFoodsTitle + ": " + name
  {
    var rows := [Row(name, 0)];
    assert rows[..0] == [];
    assert UnsafeFoods(rows) == rows;
    assert rows[..Min(ListLimit, 1)] == rows;
    assert Names(rows) == [name];
    assert Join([name], ", ") == name;
    assert MoreTail(1 - ListLimit) == "";
    assert AvoidFoodsTitle + ": " + name + "" == AvoidFoodsTitle + ": " + name;
    assert FormatList(AvoidFoodsTitle, rows, ListLimit) == Some(AvoidFoodsTitle + ": " + name);
    assert Lines(Rows(rows), Rows([]), Rows([])) == [AvoidFoodsTitle + ": " + name];
  }

  /** A user whose only fact is that banana is unsafe gets exactly the line
      `AVOID FOODS: banana`. */
  lemma BananaSummary(user: Option<UserId>)
    requires user == Some("7")
    ensures Summary(user, Rows([Row("banana", 0)]), Rows([]), Rows([])) == "AVOID FOODS: banana"
  {
    OneUnsafeFood(user, "banana");
  }

  // ---------------------------------------------------------------------
  // The fan-in of the three query callbacks

  /** The state shared by the three query callbacks of one
      `getUserConstraints` call: the `pending` countdown, the `constraints`
      lists and `contextParts`. The ghost fields record which callbacks have
      run and what they were given. */
  class Collector {
    var pending: nat
    var unsafeFoods: seq<Row>
    var safeFoods: seq<Row>
    var triggers: seq<Row>
    var conditions: seq<Row>
    var contextParts: seq<string>
    var resolved: Option<string>

    ghost var foodsDone: bool
    ghost var sensoryDone: bool
    ghost var conditionsDone: bool
    ghost var foodResult: QueryResult
    ghost var sensoryResult: QueryResult
    ghost var conditionResult: QueryResult

    ghost function Outstanding(): nat
      reads this
    {
      (if foodsDone then 0 else 1) + (if sensoryDone then 0 else 1) + (if conditionsDone then 0 else 1)
    }

    /** The lists hold exactly what the callbacks that have run delivered. */
    ghost predicate Collected()
      reads this
    {
      && (foodsDone ==> unsafeFoods == UnsafeFoods(Delivered(foodResult))
                        && safeFoods == SafeFoods(Delivered(foodResult)))
      && (!foodsDone ==> unsafeFoods == [] && safeFoods == [])
      && (sensoryDone ==> triggers == Delivered(sensoryResult))
      && (!sensoryDone ==> triggers == [])
      && (conditionsDone ==> conditions == Delivered(conditionResult))
      && (!conditionsDone ==> conditions == [])
    }

    ghost predicate Valid()
      reads this
    {
      && Collected()
      && pending == Outstanding()
      && (pending > 0 ==> contextParts == [] && resolved == None)
      && (pending == 0 ==>
            && contextParts == Lines(foodResult, sensoryResult, conditionResult)
            && resolved == Some(Join(contextParts, "\n")))
    }

    constructor ()
      ensures Valid()
      ensures !foodsDone && !sensoryDone && !conditionsDone
    {
      pending := 3;
      unsafeFoods, safeFoods, triggers, conditions := [], [], [], [];
      contextParts := [];
      resolved := None;
      foodsDone, sensoryDone, conditionsDone := false, false, false;
      foodResult, sensoryResult, conditionResult := QueryFailed, QueryFailed, QueryFailed;
    }

    /** The lines `checkDone` pushes into `contextParts`, from the lists
        collected so far. */
    method FormatParts() returns (parts: seq<string>)
      ensures parts == Parts(unsafeFoods, triggers, conditions)
    {
      parts := [];
      var foodStr := FormatList(AvoidFoodsTitle, unsafeFoods, ListLimit);
      if foodStr.Some? { parts := parts + [foodStr.value]; }
      var triggerStr := FormatList(SensoryTitle, triggers, ListLimit);
      if triggerStr.Some? { parts := parts + [triggerStr.value]; }
      var conditionStr := FormatList(ConditionsTitle, conditions, ListLimit);
      if conditionStr.Some? { parts := parts + [conditionStr.value]; }
    }

    /** `checkDone`: count one callback down; after the last one, format the
        three lists and resolve with their lines joined by newlines. */
    method CheckDone()
      requires Collected() && pending == Outstanding() + 1
      requires contextParts == [] && resolved == None
      modifies this
      ensures Valid()
      ensures pending == old(pending) - 1
      ensures foodsDone == old(foodsDone) && sensoryDone == old(sensoryDone)
      ensures conditionsDone == old(conditionsDone)
      ensures foodResult == old(foodResult) && sensoryResult == old(sensoryResult)
      ensures conditionResult == old(conditionResult)
    {
      pending := pending - 1;
      if pending == 0 {
        var parts := FormatParts();
        contextParts := contextParts + parts;
        resolved := Some(Join(contextParts, "\n"));
      }
    }

    /** The food query's callback: sort every row into `unsafeFoods` or
        `safeFoods` by `is_safe === 0`, unless the query failed. */
    method OnFoods(result: QueryResult)
      requires Valid() && !foodsDone
      modifies this
      ensures Valid()
      ensures foodsDone && foodResult == result
      ensures sensoryDone == old(sensoryDone) && conditionsDone == old(conditionsDone)
      ensures sensoryResult == old(sensoryResult) && conditionResult == old(conditionResult)
    {
      if result.Rows? {
        unsafeFoods, safeFoods := SortFoods(result.rows);
      }
      foodsDone, foodResult := true, result;
      CheckDone();
    }

    /** The sensory query's callback: keep the rows unless the query failed. */
    method OnSensory(result: QueryResult)
      requires Valid() && !sensoryDone
      modifies this
      ensures Valid()
      ensures sensoryDone && sensoryResult == result
      ensures foodsDone == old(foodsDone) && conditionsDone == old(conditionsDone)
      ensures foodResult == old(foodResult) && conditionResult == old(conditionResult)
    {
      if result.Rows? {
        triggers := result.rows;
      }
      sensoryDone, sensoryResult := true, result;
      CheckDone();
    }

    /** The condition query's callback: keep the rows unless the query failed. */
    method OnConditions(result: QueryResult)
      requires Valid() && !conditionsDone
      modifies this
      ensures Valid()
      ensures conditionsDone && conditionResult == result
      ensures foodsDone == old(foodsDone) && sensoryDone == old(sensoryDone)
      ensures foodResult == old(foodResult) && sensoryResult == old(sensoryResult)
    {
      if result.Rows? {
        conditions := result.rows;
      }
      conditionsDone, conditionResult := true, result;
      CheckDone();
    }
  }

  /** The food callback's `rows.forEach`: each row is pushed onto the unsafe
      list when `is_safe === 0` and onto the safe list otherwise. */
  method SortFoods(rows: seq<Row>) returns (unsafe: seq<Row>, safe: seq<Row>)
    ensures unsafe == UnsafeFoods(rows) && safe == SafeFoods(rows)
  {
    unsafe, safe := [], [];
    var i := 0;
    while i < |rows|
      invariant 0 <= i <= |rows|
      invariant unsafe == UnsafeFoods(rows[..i])
      invariant safe == SafeFoods(rows[..i])
    {
      assert rows[..i + 1][..i] == rows[..i];
      if rows[i].flag == 0 {
        unsafe := unsafe + [rows[i]];
      } else {
        safe := safe + [rows[i]];
      }
      i := i + 1;
    }
    assert rows[..|rows|] == rows;
  }

  /** `getUserConstraints`: no identity gives the empty string at once;
      otherwise the three query results are collected and summarised. */
  method GetUserConstraints(user: Option<UserId>, foods: QueryResult, sensory: QueryResult,
                            conditions: QueryResult)
    returns (summary: string)
    ensures summary == Summary(user, foods, sensory, conditions)
  {
    if !HasUser(user) {
      return "";
    }
    var c := new Collector();
    c.OnFoods(foods);
    c.OnSensory(sensory);
    c.OnConditions(conditions);
    summary := c.resolved.value;
  }

  /** Run the callback of query `q` with its result. */
  method Deliver(c: Collector, q: Query, foods: QueryResult, sensory: QueryResult,
                 conditions: QueryResult)
    requires c.Valid()
    requires q == FoodQuery ==> !c.foodsDone
    requires q == SensoryQuery ==> !c.sensoryDone
    requires q == ConditionQuery ==> !c.conditionsDone
    modifies c
    ensures c.Valid()
    ensures c.foodsDone == (old(c.foodsDone) || q == FoodQuery)
    ensures c.sensoryDone == (old(c.sensoryDone) || q == SensoryQuery)
    ensures c.conditionsDone == (old(c.conditionsDone) || q == ConditionQuery)
    ensures c.foodResult == if q == FoodQuery then foods else old(c.foodResult)
    ensures c.sensoryResult == if q == SensoryQuery then sensory else old(c.sensoryResult)
    ensures c.conditionResult == if q == ConditionQuery then conditions else old(c.conditionResult)
  {
    match q {
      case FoodQuery => c.OnFoods(foods);
      case SensoryQuery => c.OnSensory(sensory);
      case ConditionQuery => c.OnConditions(conditions);
    }
  }

  /** The callbacks may settle in any order: whichever order `order` gives,
      the string resolved after the third one is the same summary. */
  method CollectInOrder(user: Option<UserId>, order: seq<Query>, foods: QueryResult,
                        sensory: QueryResult, conditions: QueryResult)
    returns (summary: string)
    requires HasUser(user)
    requires |order| == 3 && FoodQuery in order && SensoryQuery in order && ConditionQuery in order
    ensures summary == Summary(user, foods, sensory, conditions)
  {
    var c := new Collector();
    assert order[0] != order[1] && order[0] != order[2] && order[1] != order[2];
    Deliver(c, order[0], foods, sensory, conditions);
    Deliver(c, order[1], foods, sensory, conditions);
    Deliver(c, order[2], foods, sensory, conditions);
    summary := c.resolved.value;
  }

}
