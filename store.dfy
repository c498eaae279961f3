/** The constraint store and the master-record resolver: three master lists
    of names (foods, sensory attributes, conditions), three per-user
    preference tables keyed by (user, item), the anti-hallucination gate and
    `ensureMasterRecord`. */
module MemoryStore {
  import opened JsValues
  import opened Text

  /** The three master lists, each with its own preference table. */
  datatype Category = Foods | SensoryAttributes | Conditions

  /** A master list: the id of each name, and the rowid the next insert gets. */
  datatype Table = Table(ids: map<string, nat>, nextId: nat)

  const EmptyTable := Table(map[], 1)

  /** Ids are positive and below `nextId`, and no two names share one. */
  ghost predicate TableValid(t: Table)
  {
    && t.nextId >= 1
    && (forall n :: n in t.ids ==> 1 <= t.ids[n] < t.nextId)
    && (forall n, m :: n in t.ids && m in t.ids && n != m ==> t.ids[n] != t.ids[m])
  }

  /** `t2` keeps every row of `t1` with the same id. */
  ghost predicate Extends(t1: Table, t2: Table)
  {
    forall n :: n in t1.ids ==> n in t2.ids && t2.ids[n] == t1.ids[n]
  }

  /** A preference table: the flag stored for each (user, item id); the key
      is the table's composite key that `INSERT OR REPLACE` replaces on. */
  type Prefs = map<(UserId, nat), int>

  /** The whole store: the three master lists and the three preference
      tables (`user_food_preferences`, `user_sensory_triggers`,
      `user_conditions`). */
  datatype Store = Store(
    foods: Table, sensoryAttributes: Table, conditions: Table,
    foodPreferences: Prefs, sensoryTriggers: Prefs, userConditions: Prefs)
  {
    function TableOf(c: Category): Table
    {
      match c
      case Foods => foods
      case SensoryAttributes => sensoryAttributes
      case Conditions => conditions
    }

    function PrefsOf(c: Category): Prefs
    {
      match c
      case Foods => foodPreferences
      case SensoryAttributes => sensoryTriggers
      case Conditions => userConditions
    }

    /** This store with the master list and preference table of `c` replaced. */
    function With(c: Category, t: Table, p: Prefs): (s: Store)
      ensures s.TableOf(c) == t && s.PrefsOf(c) == p
      ensures forall d :: d != c ==> s.TableOf(d) == TableOf(d) && s.PrefsOf(d) == PrefsOf(d)
    {
      match c
      case Foods => this.(foods := t, foodPreferences := p)
      case SensoryAttributes => this.(sensoryAttributes := t, sensoryTriggers := p)
      case Conditions => this.(conditions := t, userConditions := p)
    }

    ghost predicate Valid()
    {
      TableValid(foods) && TableValid(sensoryAttributes) && TableValid(conditions)
    }
  }

  const EmptyStore := Store(EmptyTable, EmptyTable, EmptyTable, map[], map[], map[])

  /** Replacing a category's pair twice keeps only the second. */
  lemma WithTwice(s: Store, c: Category, t1: Table, p1: Prefs, t2: Table, p2: Prefs)
    ensures s.With(c, t1, p1).With(c, t2, p2) == s.With(c, t2, p2)
  {
  }

  /** What storage does with one resolver call: nothing goes wrong, the
      SELECT fails, or the INSERT fails. */
  datatype Fault = NoFault | LookupFails | InsertFails

  /** What `ensureMasterRecord`'s promise settles with: an id, `null` (the
      gate refused the name), or a rejection. */
  datatype Resolution = Resolved(id: nat) | Skipped | Rejected

  /** The anti-hallucination gate: with a (truthy) message, the trimmed,
      lower-cased name must be a substring of the lower-cased message;
      without one, every name passes. */
  predicate Accepts(name: string, message: Option<string>)
  {
    !HasMessage(message) || Includes(ToLower(message.value), ToLower(Trim(name)))
  }

  /** `ensureMasterRecord` on a master list: the gate, then the lookup of the
      name exactly as given, then the insert that takes the next rowid. A
      name that is not a string makes `trim` throw, which rejects. */
  function Resolve(t: Table, name: JsValue, message: Option<string>, fault: Fault): (Resolution, Table)
  {
    match name
    case Str(s) =>
      if !Accepts(s, message) then (Skipped, t)
      else if fault == LookupFails then (Rejected, t)
      else if s in t.ids then (Resolved(t.ids[s]), t)
      else if fault == InsertFails then (Rejected, t)
      else (Resolved(t.nextId), Table(t.ids[s := t.nextId], t.nextId + 1))
    case _ => (Rejected, t)
  }

  // ---------------------------------------------------------------------
  // Properties of the gate

  /** A name whose trimmed form appears literally in the message passes. */
  lemma LiteralMentionAccepted(name: string, message: string, i: nat)
    requires OccursAt(message, Trim(name), i)
    ensures Accepts(name, Some(message))
  {
    var n := Trim(name);
    ToLowerSlice(message, i, i + |n|);
    assert OccursAt(ToLower(message), ToLower(n), i);
  }

  /** The gate ignores ASCII case on both sides. */
  lemma GateIgnoresCase(name1: string, name2: string, message1: string, message2: string)
    requires ToLower(name1) == ToLower(name2)
    requires ToLower(message1) == ToLower(message2)
    ensures Accepts(name1, Some(message1)) == Accepts(name2, Some(message2))
  {
    TrimToLower(name1);
    TrimToLower(name2);
    var n := ToLower(Trim(name1));
    assert n == ToLower(Trim(name2));
    assert |message1| == |ToLower(message1)| == |message2|;
    assert Accepts(name1, Some(message1)) == (message1 == "" || Includes(ToLower(message1), n));
    assert Accepts(name2, Some(message2)) == (message2 == "" || Includes(ToLower(message1), n));
  }

  /** A name holding a letter the message lacks in either case is refused. */
  lemma MissingLetterRefused(name: string, message: string, c: char)
    requires message != ""
    requires 'a' <= c <= 'z'
    requires c in Trim(name)
    requires c !in message && (c as int - 32) as char !in message
    ensures !Accepts(name, Some(message))
  {
    var n := Trim(name);
    var k :| 0 <= k < |n| && n[k] == c;
    assert ToLower(n)[k] == c;
    assert c !in ToLower(message) by {
      forall j | 0 <= j < |message| ensures ToLower(message)[j] != c {
        assert message[j] in message;
      }
    }
    if Includes(ToLower(message), ToLower(n)) {
      IncludesChars(ToLower(message), ToLower(n), c);
      assert false;
    }
  }

  /** The substring test is deliberately lenient: "rice" passes inside
      "price". */
  lemma RiceInsidePrice()
    ensures Accepts("rice", Some("What's the price?"))
  {
    TrimUnchanged("rice");
    assert "What's the price?"[12..16] == "rice";
    LiteralMentionAccepted("rice", "What's the price?", 12);
  }

  /** A name of white space only passes every message: it trims to "",
      which every string includes. */
  lemma BlankNameAccepted(name: string, message: Option<string>)
    requires forall k :: 0 <= k < |name| ==> IsJsSpace(name[k])
    ensures Accepts(name, message)
  {
    if HasMessage(message) {
      assert Trim(name) == [];
      assert OccursAt(ToLower(message.value), [], 0);
    }
  }

  // ---------------------------------------------------------------------
  // Properties of the resolver

  /** A refused name settles with `null` whatever the store holds and
      whatever storage would do, so neither the lookup nor the insert runs
      and the master list is unchanged; conversely `null` means refused. */
  lemma RefusedNameTouchesNothing(t: Table, name: JsValue, message: Option<string>, fault: Fault)
    ensures Resolve(t, name, message, fault).0 == Skipped <==> name.Str? && !Accepts(name.s, message)
    ensures name.Str? && !Accepts(name.s, message) ==>
      forall t', f' :: Resolve(t', name, message, f') == (Skipped, t')
  {
  }

  /** A name already listed resolves to its id and the list is unchanged. */
  lemma ResolveExisting(t: Table, s: string, message: Option<string>, fault: Fault)
    requires Accepts(s, message) && fault != LookupFails && s in t.ids
    ensures Resolve(t, Str(s), message, fault) == (Resolved(t.ids[s]), t)
  {
  }

  /** A new name gets exactly one new row whose id no other row has. */
  lemma ResolveNew(t: Table, s: string, message: Option<string>)
    requires TableValid(t) && Accepts(s, message) && s !in t.ids
    ensures var (r, t') := Resolve(t, Str(s), message, NoFault);
      && r == Resolved(t.nextId)
      && t.nextId !in t.ids.Values
      && t'.ids == t.ids[s := t.nextId]
      && |t'.ids| == |t.ids| + 1
  {
  }

  /** Every outcome keeps the existing rows; a resolved id is the id the
      name now has; the only row ever added is the given name, and only when
      it passed the gate; any other outcome leaves the list as it was. */
  lemma ResolveKeepsRows(t: Table, name: JsValue, message: Option<string>, fault: Fault)
    ensures var (r, t') := Resolve(t, name, message, fault);
      && Extends(t, t')
      && (r.Resolved? ==> name.Str? && name.s in t'.ids && t'.ids[name.s] == r.id)
      && (forall n :: n in t'.ids && n !in t.ids ==> name == Str(n) && Accepts(n, message))
      && (!r.Resolved? ==> t' == t)
  {
  }

  /** Every outcome keeps the list valid, and a resolved id is positive. */
  lemma ResolveKeepsValid(t: Table, name: JsValue, message: Option<string>, fault: Fault)
    requires TableValid(t)
    ensures var (r, t') := Resolve(t, name, message, fault);
      TableValid(t') && (r.Resolved? ==> r.id >= 1)
  {
  }

  /** Two successive calls with the same name give the same id, and the
      second changes nothing. */
  lemma ResolveTwice(t: Table, name: JsValue, message: Option<string>)
    requires Resolve(t, name, message, NoFault).0.Resolved?
    ensures var (r1, t1) := Resolve(t, name, message, NoFault);
      Resolve(t1, name, message, NoFault) == (r1, t1)
  {
  }

  /** The lookup is exact: a name that differs from a listed one only by
      surrounding spaces or by case becomes its own row. */
  lemma VariantsGetOwnRow(t: Table, message: string)
    requires TableValid(t) && "banana" in t.ids
    requires " banana" !in t.ids && "Banana" !in t.ids
    requires Accepts(" banana", Some(message)) && Accepts("Banana", Some(message))
    ensures var (r, _) := Resolve(t, Str(" banana"), Some(message), NoFault);
      r.Resolved? && r.id != t.ids["banana"]
    ensures var (r, _) := Resolve(t, Str("Banana"), Some(message), NoFault);
      r.Resolved? && r.id != t.ids["banana"]
  {
  }

  // ---------------------------------------------------------------------
  // The store as mutable state

  /** The database handle: its six tables, updated in place. */
  class Database {
    var foods: Table
    var sensoryAttributes: Table
    var conditions: Table
    var foodPreferences: Prefs
    var sensoryTriggers: Prefs
    var userConditions: Prefs

    function State(): Store
      reads this
    {
      Store(foods, sensoryAttributes, conditions, foodPreferences, sensoryTriggers, userConditions)
    }

    constructor ()
      ensures State() == EmptyStore
    {
      foods, sensoryAttributes, conditions := EmptyTable, EmptyTable, EmptyTable;
      foodPreferences, sensoryTriggers, userConditions := map[], map[], map[];
    }

    /** `SELECT id FROM <table> WHERE name = ?`: an error, or the row if any. */
    method Get(c: Category, name: string, fault: Fault) returns (err: bool, id: Option<nat>)
      ensures err <==> fault == LookupFails
      ensures !err ==> id == (if name in State().TableOf(c).ids then Some(State().TableOf(c).ids[name]) else None)
    {
      err := fault == LookupFails;
      var t := State().TableOf(c);
      id := if name in t.ids then Some(t.ids[name]) else None;
    }

    /** `INSERT INTO <table> (name) VALUES (?)`: an error, or the new row's id. */
    method Insert(c: Category, name: string, fault: Fault) returns (err: bool, lastId: nat)
      modifies this
      ensures err <==> fault == InsertFails
      ensures var t := old(State()).TableOf(c);
        State() == if err then old(State())
                   else old(State()).With(c, Table(t.ids[name := t.nextId], t.nextId + 1), old(State()).PrefsOf(c))
      ensures !err ==> lastId == old(State()).TableOf(c).nextId
    {
      err, lastId := fault == InsertFails, 0;
      if err { return; }
      var t := State().TableOf(c);
      lastId := t.nextId;
      var t' := Table(t.ids[name := t.nextId], t.nextId + 1);
      match c {
        case Foods => foods := t';
        case SensoryAttributes => sensoryAttributes := t';
        case Conditions => conditions := t';
      }
    }

    /** `INSERT OR REPLACE` of one preference row. */
    method InsertOrReplace(c: Category, user: UserId, id: nat, flag: int)
      modifies this
      ensures State() == old(State()).With(c, old(State()).TableOf(c), old(State()).PrefsOf(c)[(user, id) := flag])
    {
      match c {
        case Foods => foodPreferences := foodPreferences[(user, id) := flag];
        case SensoryAttributes => sensoryTriggers := sensoryTriggers[(user, id) := flag];
        case Conditions => userConditions := userConditions[(user, id) := flag];
      }
    }
  }

  /** `ensureMasterRecord(db, table, name, originalMessage)`: the gate on
      the normalised name, then lookup and insert with the name as given.
      Only the master list of `c` can change. */
  method EnsureMasterRecord(db: Database, c: Category, name: JsValue, message: Option<string>, fault: Fault)
    returns (r: Resolution)
    modifies db
    ensures var (r', t') := Resolve(old(db.State()).TableOf(c), name, message, fault);
      r == r' && db.State() == old(db.State()).With(c, t', old(db.State()).PrefsOf(c))
  {
    if !name.Str? {
      return Rejected;
    }
    var normalizedName := ToLower(Trim(name.s));
    if HasMessage(message) {
      var normalizedMsg := ToLower(message.value);
      if !Includes(normalizedMsg, normalizedName) {
        return Skipped;
      }
    }
    var err, row := db.Get(c, name.s, fault);
    if err {
      return Rejected;
    }
    if row.Some? {
      return Resolved(row.value);
    }
    var insertErr, lastId := db.Insert(c, name.s, fault);
    if insertErr {
      return Rejected;
    }
    return Resolved(lastId);
  }
}
