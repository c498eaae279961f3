/** The update applier: `applyMemoryUpdates` takes the `memory_updates`
    part of the model's answer and, category by category (foods, sensory
    attributes, conditions), resolves at most five entries each through the
    master-record resolver and upserts the user's flag for every id it gets. */
module MemoryUpdates {
  import opened JsValues
  import opened Text
  import opened MemoryStore

  /** One element of an update array: `null`/`undefined`, or an object whose
      `name` and flag (`is_safe`, `is_problematic`, `has_condition`) were
      read; `None` is an `undefined` flag. */
  datatype Entry = NullEntry | Item(name: JsValue, flag: Option<int>)

  /** `updates.foods` and its siblings: absent, falsy or not an array, or an
      array of entries. */
  datatype CategoryInput = NotAList | List(entries: seq<Entry>)

  datatype Updates = Updates(foods: CategoryInput, sensory: CategoryInput, conditions: CategoryInput)
  {
    function InputOf(c: Category): CategoryInput
    {
      match c
      case Foods => foods
      case SensoryAttributes => sensory
      case Conditions => conditions
    }

    function WithInput(c: Category, input: CategoryInput): Updates
    {
      match c
      case Foods => this.(foods := input)
      case SensoryAttributes => this.(sensory := input)
      case Conditions => this.(conditions := input)
    }
  }

  /** What storage does on each resolver call, per category and per position
      in the truncated array; positions past the end see no fault. */
  datatype Faults = Faults(foods: seq<Fault>, sensory: seq<Fault>, conditions: seq<Fault>)
  {
    function Of(c: Category): seq<Fault>
    {
      match c
      case Foods => foods
      case SensoryAttributes => sensory
      case Conditions => conditions
    }
  }

  const NoFaults := Faults([], [], [])

  function FaultAt(faults: seq<Fault>, i: nat): Fault
  {
    if i < |faults| then faults[i] else NoFault
  }

  /** The safety cap of `.slice(0, 5)`. */
  const BatchLimit: nat := 5

  /** `entries.slice(0, 5)`: the entries ever looked at, valid or not. */
  function Batch(entries: seq<Entry>): (batch: seq<Entry>)
    ensures |batch| <= BatchLimit && batch <= entries
    ensures |entries| <= BatchLimit ==> batch == entries
    ensures |entries| > BatchLimit ==> |batch| == BatchLimit
  {
    if |entries| <= BatchLimit then entries else entries[..BatchLimit]
  }

  /** The entry survives `if (!item.name || item.flag === undefined) continue`. */
  predicate Usable(e: Entry)
  {
    e.Item? && Truthy(e.name) && e.flag.Some?
  }

  /** The state of one category's loop: its master list, its preference
      table, and whether an exception escaped to the outer `catch`. */
  datatype Progress = Progress(table: Table, prefs: Prefs, aborted: bool)

  /** One iteration of a category loop. Reading `.name` of a null entry
      throws outside the per-item `try`, which abandons the whole call. An
      unusable entry is skipped; otherwise the resolver runs and, when it
      settles with a truthy id, the flag is upserted. A rejection is caught
      and changes nothing else. */
  function EntryStep(t: Table, p: Prefs, user: UserId, e: Entry, message: Option<string>, fault: Fault): Progress
  {
    if e.NullEntry? then Progress(t, p, true)
    else if !Usable(e) then Progress(t, p, false)
    else
      var (r, t') := Resolve(t, e.name, message, fault);
      if r.Resolved? && r.id != 0 then Progress(t', p[(user, r.id) := e.flag.value], false)
      else Progress(t', p, false)
  }

  /** The loop over `es`, entry `k` seeing fault `FaultAt(faults, k)`. */
  function Steps(t: Table, p: Prefs, user: UserId, es: seq<Entry>, message: Option<string>,
                 faults: seq<Fault>): Progress
    decreases |es|
  {
    if es == [] then Progress(t, p, false)
    else
      var prev := Steps(t, p, user, es[..|es| - 1], message, faults);
      if prev.aborted then prev
      else EntryStep(prev.table, prev.prefs, user, es[|es| - 1], message, FaultAt(faults, |es| - 1))
  }

  /** One category block: ignored unless it is an array, else its first five
      entries are processed. The flag says whether the call was abandoned. */
  function ApplyCategory(s: Store, c: Category, user: UserId, input: CategoryInput,
                         message: Option<string>, faults: seq<Fault>): (Store, bool)
  {
    match input
    case NotAList => (s, false)
    case List(entries) =>
      var pr := Steps(s.TableOf(c), s.PrefsOf(c), user, Batch(entries), message, faults);
      (s.With(c, pr.table, pr.prefs), pr.aborted)
  }

  /** The store after `applyMemoryUpdates(db, userId, updates, originalMessage)`:
      nothing happens without a user or updates; otherwise foods, sensory
      attributes and conditions in turn, until one of them is abandoned. */
  function ApplyUpdates(s: Store, user: Option<UserId>, updates: Option<Updates>,
                        message: Option<string>, faults: Faults): Store
  {
    if !HasUser(user) || updates.None? then s
    else
      var u := updates.value;
      var (s1, a1) := ApplyCategory(s, Foods, user.value, u.foods, message, faults.foods);
      if a1 then s1
      else
        var (s2, a2) := ApplyCategory(s1, SensoryAttributes, user.value, u.sensory, message, faults.sensory);
        if a2 then s2
        else ApplyCategory(s2, Conditions, user.value, u.conditions, message, faults.conditions).0
  }

  // ---------------------------------------------------------------------
  // The applier as it runs against the database

  /** `applyMemoryUpdates`: never fails; an exception that escapes a
      category ends the call, as the outer `catch` does. */
  method ApplyMemoryUpdates(db: Database, user: Option<UserId>, updates: Option<Updates>,
                            message: Option<string>, faults: Faults)
    modifies db
    ensures db.State() == ApplyUpdates(old(db.State()), user, updates, message, faults)
  {
    if !HasUser(user) || updates.None? {
      return;
    }
    var u := updates.value;
    var aborted := ProcessCategory(db, Foods, user.value, u.foods, message, faults.foods);
    if aborted {
      return;
    }
    aborted := ProcessCategory(db, SensoryAttributes, user.value, u.sensory, message, faults.sensory);
    if aborted {
      return;
    }
    aborted := ProcessCategory(db, Conditions, user.value, u.conditions, message, faults.conditions);
  }

  /** One present entry of a batch: resolve its name and, when that gives
      an id, record the flag against it. */
  method ProcessEntry(db: Database, c: Category, user: UserId, item: Entry,
                      message: Option<string>, fault: Fault)
    requires item.Item?
    modifies db
    ensures var st := EntryStep(old(db.State()).TableOf(c), old(db.State()).PrefsOf(c), user, item, message, fault);
      !st.aborted && db.State() == old(db.State()).With(c, st.table, st.prefs)
  {
    if Usable(item) {
      ghost var s0 := db.State();
      var id := EnsureMasterRecord(db, c, item.name, message, fault);
      if id.Resolved? && id.id != 0 {
        ghost var s1 := db.State();
        db.InsertOrReplace(c, user, id.id, item.flag.value);
        WithTwice(s0, c, s1.TableOf(c), s1.PrefsOf(c), s1.TableOf(c), db.State().PrefsOf(c));
      }
    }
  }

  /** `ProcessEntry` on a database whose category `c` holds the run so far
      over the contents `s0` had before the loop. */
  method ProcessEntryFrom(db: Database, c: Category, user: UserId, item: Entry,
                          message: Option<string>, fault: Fault, ghost s0: Store, ghost pr: Progress)
    requires item.Item? && db.State() == s0.With(c, pr.table, pr.prefs)
    modifies db
    ensures var st := EntryStep(pr.table, pr.prefs, user, item, message, fault);
      !st.aborted && db.State() == s0.With(c, st.table, st.prefs)
  {
    ProcessEntry(db, c, user, item, message, fault);
    WithTwice(s0, c, pr.table, pr.prefs, db.State().TableOf(c), db.State().PrefsOf(c));
  }

  /** One category block: the `for` loop over `slice(0, 5)` with its
      per-item `try`. */
  method ProcessCategory(db: Database, c: Category, user: UserId, input: CategoryInput,
                         message: Option<string>, faults: seq<Fault>)
    returns (aborted: bool)
    modifies db
    ensures (db.State(), aborted) == ApplyCategory(old(db.State()), c, user, input, message, faults)
  {
    aborted := false;
    if input.NotAList? {
      return;
    }
    var batch := Batch(input.entries);
    ghost var s0 := db.State();
    ghost var pr := Progress(s0.TableOf(c), s0.PrefsOf(c), false);
    var i := 0;
    while i < |batch|
      invariant 0 <= i <= |batch|
      invariant pr == Steps(s0.TableOf(c), s0.PrefsOf(c), user, batch[..i], message, faults)
      invariant !pr.aborted && db.State() == s0.With(c, pr.table, pr.prefs)
    {
      StepsSnoc(s0.TableOf(c), s0.PrefsOf(c), user, batch, message, faults, i);
      var item := batch[i];
      if item.NullEntry? {
        AbortSticks(s0.TableOf(c), s0.PrefsOf(c), user, batch, message, faults, i + 1);
        aborted := true;
        return;
      }
      ProcessEntryFrom(db, c, user, item, message, FaultAt(faults, i), s0, pr);
      pr := EntryStep(pr.table, pr.prefs, user, item, message, FaultAt(faults, i));
      i := i + 1;
    }
    assert batch[..|batch|] == batch;
  }

  // ---------------------------------------------------------------------
  // Abandonment

  /** A run over one more entry is the run so far followed by that entry's
      step, unless the run so far was abandoned. */
  lemma StepsSnoc(t: Table, p: Prefs, user: UserId, es: seq<Entry>, message: Option<string>,
                  faults: seq<Fault>, i: nat)
    requires i < |es|
    ensures var prev := Steps(t, p, user, es[..i], message, faults);
      Steps(t, p, user, es[..i + 1], message, faults)
      == if prev.aborted then prev else EntryStep(prev.table, prev.prefs, user, es[i], message, FaultAt(faults, i))
  {
    assert es[..i + 1][..i] == es[..i];
  }

  /** Once abandoned, later entries change nothing. */
  lemma {:induction false} AbortSticks(t: Table, p: Prefs, user: UserId, es: seq<Entry>,
                                       message: Option<string>, faults: seq<Fault>, k: nat)
    requires k <= |es| && Steps(t, p, user, es[..k], message, faults).aborted
    ensures Steps(t, p, user, es, message, faults) == Steps(t, p, user, es[..k], message, faults)
    decreases |es|
  {
    if |es| == k {
      assert es[..k] == es;
    } else {
      var es' := es[..|es| - 1];
      assert es'[..k] == es[..k];
      AbortSticks(t, p, user, es', message, faults, k);
    }
  }

  /** A loop is abandoned exactly when its entries hold a null entry. */
  lemma {:induction false} AbortedIffNull(t: Table, p: Prefs, user: UserId, es: seq<Entry>,
                                          message: Option<string>, faults: seq<Fault>)
    ensures Steps(t, p, user, es, message, faults).aborted <==> NullEntry in es
    decreases |es|
  {
    if es != [] {
      var es' := es[..|es| - 1];
      AbortedIffNull(t, p, user, es', message, faults);
      assert es == es' + [es[|es| - 1]];
    }
  }

  /** As written, a null entry among the first five of one category
      abandons everything after it, in that category and in the later ones:
      here neither the banana that follows it nor the sensory entry is
      stored, although the message names banana. */
  lemma NullEntryAbandonsSiblings()
    ensures var u := Updates(List([NullEntry, Item(Str("banana"), Some(0))]),
                             List([Item(Str("banana"), Some(1))]), NotAList);
      ApplyUpdates(EmptyStore, Some("7"), Some(u), Some("banana"), NoFaults) == EmptyStore
  {
    var es := [NullEntry, Item(Str("banana"), Some(0))];
    assert es[..1] == [NullEntry];
    assert [NullEntry][..0] == [];
    AbortSticks(EmptyTable, map[], "7", es, Some("banana"), [], 1);
  }

  // ---------------------------------------------------------------------
  // The five-item cap and the upsert footprint

  /** The store the block of category `c` starts from, or None when an
      earlier block was abandoned and `c` is never reached. */
  function StoreBefore(s: Store, user: UserId, u: Updates, message: Option<string>, faults: Faults,
                       c: Category): Option<Store>
  {
    var (s1, a1) := ApplyCategory(s, Foods, user, u.foods, message, faults.foods);
    var (s2, a2) := ApplyCategory(s1, SensoryAttributes, user, u.sensory, message, faults.sensory);
    match c
    case Foods => Some(s)
    case SensoryAttributes => if a1 then None else Some(s1)
    case Conditions => if a1 || a2 then None else Some(s2)
  }

  /** What a call leaves in category `c`: the contents it had, when `c` is
      not reached, or what the block of `c` makes of them. */
  lemma Reached(s: Store, user: UserId, u: Updates, message: Option<string>, faults: Faults, c: Category)
    requires user != ""
    ensures var r := ApplyUpdates(s, Some(user), Some(u), message, faults);
      match StoreBefore(s, user, u, message, faults, c)
      case None => r.TableOf(c) == s.TableOf(c) && r.PrefsOf(c) == s.PrefsOf(c)
      case Some(b) =>
        && b.TableOf(c) == s.TableOf(c) && b.PrefsOf(c) == s.PrefsOf(c)
        && var r' := ApplyCategory(b, c, user, u.InputOf(c), message, faults.Of(c)).0;
           r.TableOf(c) == r'.TableOf(c) && r.PrefsOf(c) == r'.PrefsOf(c)
  {
    var (s1, a1) := ApplyCategory(s, Foods, user, u.foods, message, faults.foods);
    var (s2, a2) := ApplyCategory(s1, SensoryAttributes, user, u.sensory, message, faults.sensory);
    var (s3, _) := ApplyCategory(s2, Conditions, user, u.conditions, message, faults.conditions);
    assert ApplyUpdates(s, Some(user), Some(u), message, faults) == if a1 then s1 else if a2 then s2 else s3;
  }

  /** The keys whose flag differs between two preference tables, or that
      only the second has. */
  ghost function Changed(p: Prefs, q: Prefs): set<(UserId, nat)>
  {
    set k | k in q && (k !in p || q[k] != p[k])
  }

  lemma ChangedSelf(p: Prefs)
    ensures Changed(p, p) == {}
  {
  }

  lemma SubsetSize<T>(a: set<T>, b: set<T>)
    requires a <= b
    ensures |a| <= |b|
  {
    assert b == a + (b - a);
  }

  /** Each entry upserts at most one key, always one of `user`, and rows are
      never deleted. */
  lemma {:induction false} StepsFootprint(t: Table, p: Prefs, user: UserId, es: seq<Entry>,
                                          message: Option<string>, faults: seq<Fault>)
    ensures var q := Steps(t, p, user, es, message, faults).prefs;
      && p.Keys <= q.Keys
      && |Changed(p, q)| <= |es|
      && forall k :: k in Changed(p, q) ==> k.0 == user
    decreases |es|
  {
    if es != [] {
      var es' := es[..|es| - 1];
      StepsFootprint(t, p, user, es', message, faults);
      var prev := Steps(t, p, user, es', message, faults);
      var e := es[|es| - 1];
      if !prev.aborted && Usable(e) {
        var (r, _) := Resolve(prev.table, e.name, message, FaultAt(faults, |es| - 1));
        if r.Resolved? && r.id != 0 {
          var key := (user, r.id);
          var q := prev.prefs[key := e.flag.value];
          assert Changed(p, q) <= Changed(p, prev.prefs) + {key};
          SubsetSize(Changed(p, q), Changed(p, prev.prefs) + {key});
        }
      }
    }
  }

  /** At most five keys changed or added, all for `user`, none removed. */
  ghost predicate Footprint(p: Prefs, q: Prefs, user: UserId)
  {
    && p.Keys <= q.Keys
    && |Changed(p, q)| <= BatchLimit
    && forall k :: k in Changed(p, q) ==> k.0 == user
  }

  lemma CategoryFootprint(s: Store, c: Category, user: UserId, input: CategoryInput,
                          message: Option<string>, faults: seq<Fault>)
    ensures Footprint(s.PrefsOf(c), ApplyCategory(s, c, user, input, message, faults).0.PrefsOf(c), user)
  {
    if input.List? {
      StepsFootprint(s.TableOf(c), s.PrefsOf(c), user, Batch(input.entries), message, faults);
    } else {
      assert Changed(s.PrefsOf(c), s.PrefsOf(c)) == {};
    }
  }

  /** A call upserts at most five keys per preference table, all of them
      for the calling user; no key is removed. */
  lemma AtMostFivePerCategory(s: Store, user: Option<UserId>, updates: Option<Updates>,
                              message: Option<string>, faults: Faults, c: Category)
    ensures var q := ApplyUpdates(s, user, updates, message, faults).PrefsOf(c);
      && s.PrefsOf(c).Keys <= q.Keys
      && |Changed(s.PrefsOf(c), q)| <= BatchLimit
      && forall k :: k in Changed(s.PrefsOf(c), q) ==> HasUser(user) && k.0 == user.value
  {
    var p := s.PrefsOf(c);
    if !HasUser(user) || updates.None? {
      assert Changed(p, p) == {};
    } else {
      var u, v := updates.value, user.value;
      Reached(s, v, u, message, faults, c);
      match StoreBefore(s, v, u, message, faults, c)
      case None =>
        assert Changed(p, p) == {};
      case Some(b) =>
        CategoryFootprint(b, c, v, u.InputOf(c), message, faults.Of(c));
    }
  }


  /** Preferences of every other user are left exactly as they were. */
  lemma OtherUsersUntouched(s: Store, user: Option<UserId>, updates: Option<Updates>,
                            message: Option<string>, faults: Faults, c: Category, k: (UserId, nat))
    requires !HasUser(user) || k.0 != user.value
    ensures var q := ApplyUpdates(s, user, updates, message, faults).PrefsOf(c);
      (k in q <==> k in s.PrefsOf(c)) && (k in q ==> q[k] == s.PrefsOf(c)[k])
  {
    AtMostFivePerCategory(s, user, updates, message, faults, c);
  }

  /** After a step whose resolver settles with a truthy id, the user's flag
      for that item is the flag just applied and every other key keeps its
      flag. */
  lemma UpsertStoresFlag(t: Table, p: Prefs, user: UserId, e: Entry, message: Option<string>, fault: Fault)
    requires Usable(e)
    requires var r := Resolve(t, e.name, message, fault).0; r.Resolved? && r.id != 0
    ensures var q := EntryStep(t, p, user, e, message, fault).prefs;
      var key := (user, Resolve(t, e.name, message, fault).0.id);
      key in q && q[key] == e.flag.value
      && forall k :: k != key ==> (k in q <==> k in p) && (k in p ==> q[k] == p[k])
  {
  }

  /** Without a user or without updates nothing changes. */
  lemma NothingWithoutUserOrUpdates(s: Store, user: Option<UserId>, updates: Option<Updates>,
                                    message: Option<string>, faults: Faults)
    requires !HasUser(user) || updates.None?
    ensures ApplyUpdates(s, user, updates, message, faults) == s
  {
  }

  /** Only the first five entries are ever looked at, even when some of them
      are then skipped: five unusable entries hide a valid sixth. */
  lemma SliceBeforeSkip(s: Store)
    ensures var junk := Item(Missing, Some(0));
      var u := Updates(List([junk, junk, junk, junk, junk, Item(Str("banana"), Some(0))]), NotAList, NotAList);
      ApplyUpdates(s, Some("7"), Some(u), Some("banana"), NoFaults) == s
  {
    var junk := Item(Missing, Some(0));
    var es := [junk, junk, junk, junk, junk, Item(Str("banana"), Some(0))];
    assert Batch(es) == [junk, junk, junk, junk, junk];
    SkippedEntriesChangeNothing(s.foods, s.foodPreferences, "7", Batch(es), Some("banana"), []);
  }

  /** A run over entries none of which is usable changes nothing. */
  lemma {:induction false} SkippedEntriesChangeNothing(t: Table, p: Prefs, user: UserId, es: seq<Entry>,
                                                       message: Option<string>, faults: seq<Fault>)
    requires forall k :: 0 <= k < |es| ==> es[k].Item? && !Usable(es[k])
    ensures Steps(t, p, user, es, message, faults) == Progress(t, p, false)
    decreases |es|
  {
    if es != [] {
      SkippedEntriesChangeNothing(t, p, user, es[..|es| - 1], message, faults);
    }
  }

  // ---------------------------------------------------------------------
  // Isolation of failures

  /** A failed insert of a name that is not yet listed is caught: the entry
      changes nothing, as if it had been skipped. */
  lemma InsertFailsOnNewName(t: Table, p: Prefs, user: UserId, n: string, f: int, message: Option<string>)
    requires n !in t.ids
    ensures EntryStep(t, p, user, Item(Str(n), Some(f)), message, InsertFails) == Progress(t, p, false)
  {
  }

  /** The entries the per-item `try` turns into a no-op: a name that is not
      a string (`trim` throws and the promise rejects), a name the gate
      refuses (the promise settles with `null`), a failed lookup, or a
      failed insert of a name the list does not hold when the entry is
      reached (a listed name never reaches the insert). */
  predicate Absorbed(t: Table, e: Entry, message: Option<string>, fault: Fault)
  {
    e.Item? &&
    (!e.name.Str? || !Accepts(e.name.s, message) || fault == LookupFails
     || (fault == InsertFails && e.name.s !in t.ids))
  }

  /** A failure inside the per-item `try` is caught: the run is exactly the
      run in which that entry had been skipped, so the entries after it are
      still processed. */
  lemma {:induction false} FailureActsAsSkip(t: Table, p: Prefs, user: UserId, es: seq<Entry>,
                                             message: Option<string>, faults: seq<Fault>, i: nat)
    requires i < |es|
    requires Absorbed(Steps(t, p, user, es[..i], message, faults).table, es[i], message, FaultAt(faults, i))
    ensures Steps(t, p, user, es, message, faults)
         == Steps(t, p, user, es[i := Item(Missing, None)], message, faults)
    decreases |es|
  {
    var es2 := es[i := Item(Missing, None)];
    var n := |es|;
    if i < n - 1 {
      assert es2[..n - 1] == es[..n - 1][i := Item(Missing, None)];
      assert es[..n - 1][..i] == es[..i];
      FailureActsAsSkip(t, p, user, es[..n - 1], message, faults, i);
    } else {
      assert es2[..n - 1] == es[..n - 1] == es[..i];
    }
  }

  /** The two stores agree on every category except `c`. */
  predicate AgreeExcept(s: Store, s': Store, c: Category)
  {
    forall d :: d != c ==> s.TableOf(d) == s'.TableOf(d) && s.PrefsOf(d) == s'.PrefsOf(d)
  }

  /** A category block reads and writes only its own category. */
  lemma CategoryLocal(s: Store, s': Store, c: Category, e: Category, user: UserId, input: CategoryInput,
                      message: Option<string>, faults: seq<Fault>)
    requires AgreeExcept(s, s', c) && e != c
    ensures var (r, a) := ApplyCategory(s, e, user, input, message, faults);
      var (r', a') := ApplyCategory(s', e, user, input, message, faults);
      AgreeExcept(r, r', c) && a == a'
  {
  }

  /** A block whose batch holds no null entry is not abandoned, and it
      changes nothing outside its own category. */
  lemma CategoryCompletes(s: Store, c: Category, user: UserId, input: CategoryInput,
                          message: Option<string>, faults: seq<Fault>)
    requires input.List? ==> NullEntry !in Batch(input.entries)
    ensures var (r, a) := ApplyCategory(s, c, user, input, message, faults);
      AgreeExcept(r, s, c) && !a
  {
    if input.List? {
      AbortedIffNull(s.TableOf(c), s.PrefsOf(c), user, Batch(input.entries), message, faults);
    }
  }

  /** A category whose first five entries hold no null entry has no effect on
      the other categories, whatever fails inside it: they end as they would
      had the category been absent. */
  lemma CategoriesIsolated(s: Store, user: Option<UserId>, u: Updates, message: Option<string>,
                           faults: Faults, c: Category)
    requires u.InputOf(c).List? ==> NullEntry !in Batch(u.InputOf(c).entries)
    ensures AgreeExcept(ApplyUpdates(s, user, Some(u), message, faults),
                        ApplyUpdates(s, user, Some(u.WithInput(c, NotAList)), message, faults), c)
  {
    if HasUser(user) {
      var v := user.value;
      var w := u.WithInput(c, NotAList);
      CategoryCompletes(s, c, v, u.InputOf(c), message, faults.Of(c));
      match c {
        case Foods =>
          var (s1, _) := ApplyCategory(s, Foods, v, u.foods, message, faults.foods);
          CategoryLocal(s1, s, Foods, SensoryAttributes, v, u.sensory, message, faults.sensory);
          var (s2, _) := ApplyCategory(s1, SensoryAttributes, v, u.sensory, message, faults.sensory);
          var (s2', _) := ApplyCategory(s, SensoryAttributes, v, u.sensory, message, faults.sensory);
          CategoryLocal(s2, s2', Foods, Conditions, v, u.conditions, message, faults.conditions);
        case SensoryAttributes =>
          var (s1, _) := ApplyCategory(s, Foods, v, u.foods, message, faults.foods);
          CategoryCompletes(s1, c, v, u.sensory, message, faults.sensory);
          var (s2, _) := ApplyCategory(s1, SensoryAttributes, v, u.sensory, message, faults.sensory);
          CategoryLocal(s2, s1, SensoryAttributes, Conditions, v, u.conditions, message, faults.conditions);
        case Conditions =>
          var (s1, a1) := ApplyCategory(s, Foods, v, u.foods, message, faults.foods);
          if !a1 {
            var (s2, a2) := ApplyCategory(s1, SensoryAttributes, v, u.sensory, message, faults.sensory);
            if !a2 {
              CategoryCompletes(s2, c, v, u.conditions, message, faults.conditions);
            }
          }
      }
    }
  }

  // ---------------------------------------------------------------------
  // Grounding: no master row that the message does not mention

  /** Every name a run adds to the master list passed the gate and is the
      name of one of the entries; existing rows keep their ids. */
  lemma {:induction false} StepsGrounded(t: Table, p: Prefs, user: UserId, es: seq<Entry>,
                                         message: Option<string>, faults: seq<Fault>)
    ensures var t' := Steps(t, p, user, es, message, faults).table;
      && Extends(t, t')
      && forall n :: n in t'.ids && n !in t.ids ==>
           Accepts(n, message) && exists k :: 0 <= k < |es| && es[k].Item? && es[k].name == Str(n)
    decreases |es|
  {
    if es != [] {
      var es' := es[..|es| - 1];
      StepsGrounded(t, p, user, es', message, faults);
      var prev := Steps(t, p, user, es', message, faults);
      var e := es[|es| - 1];
      if !prev.aborted && Usable(e) {
        ResolveKeepsRows(prev.table, e.name, message, FaultAt(faults, |es| - 1));
      }
      var t' := Steps(t, p, user, es, message, faults).table;
      forall n | n in t'.ids && n !in t.ids
        ensures Accepts(n, message) && exists k :: 0 <= k < |es| && es[k].Item? && es[k].name == Str(n)
      {
        if n in prev.table.ids {
          var k :| 0 <= k < |es'| && es'[k].Item? && es'[k].name == Str(n);
          assert es[k] == es'[k];
        } else {
          assert es[|es| - 1].Item? && es[|es| - 1].name == Str(n);
        }
      }
    }
  }

  /** One category block only adds names that passed the gate and are names
      of its first five entries. */
  lemma CategoryGrounded(s: Store, c: Category, user: UserId, input: CategoryInput,
                         message: Option<string>, faults: seq<Fault>, n: string)
    requires n in ApplyCategory(s, c, user, input, message, faults).0.TableOf(c).ids
    requires n !in s.TableOf(c).ids
    ensures Accepts(n, message) && input.List?
    ensures var b := Batch(input.entries);
      exists k :: 0 <= k < |b| && b[k].Item? && b[k].name == Str(n)
  {
    StepsGrounded(s.TableOf(c), s.PrefsOf(c), user, Batch(input.entries), message, faults);
  }

  /** The anti-hallucination invariant: a name that a call adds to a master
      list occurs (trimmed, lower-cased) in the lower-cased message when one
      is given, and is the name of one of the first five entries of that
      category. */
  lemma NoHallucinatedRows(s: Store, user: Option<UserId>, updates: Option<Updates>,
                           message: Option<string>, faults: Faults, c: Category, n: string)
    requires n in ApplyUpdates(s, user, updates, message, faults).TableOf(c).ids
    requires n !in s.TableOf(c).ids
    ensures Accepts(n, message)
    ensures updates.Some? && updates.value.InputOf(c).List?
    ensures var b := Batch(updates.value.InputOf(c).entries);
      exists k :: 0 <= k < |b| && b[k].Item? && b[k].name == Str(n)
  {
    var u, v := updates.value, user.value;
    Reached(s, v, u, message, faults, c);
    var b := StoreBefore(s, v, u, message, faults, c).value;
    CategoryGrounded(b, c, v, u.InputOf(c), message, faults.Of(c), n);
  }


  /** Key `k` is the user's key for the listed id of an entry whose name
      passed the gate. */
  ghost predicate GroundedKey(es: seq<Entry>, message: Option<string>, T: Table, user: UserId,
                              k: (UserId, nat))
  {
    exists j :: 0 <= j < |es| && es[j].Item? && es[j].name.Str? && Accepts(es[j].name.s, message)
                && es[j].name.s in T.ids && k == (user, T.ids[es[j].name.s])
  }

  /** Every preference a run writes belongs to an entry whose name passed
      the gate, keyed by that name's id in the final list. */
  lemma {:induction false} StepsPrefsGrounded(t: Table, p: Prefs, user: UserId, es: seq<Entry>,
                                              message: Option<string>, faults: seq<Fault>, k: (UserId, nat))
    requires k in Changed(p, Steps(t, p, user, es, message, faults).prefs)
    ensures GroundedKey(es, message, Steps(t, p, user, es, message, faults).table, user, k)
    decreases |es|
  {
    var es' := es[..|es| - 1];
    var prev := Steps(t, p, user, es', message, faults);
    var pr := Steps(t, p, user, es, message, faults);
    var e := es[|es| - 1];
    StepsExtend(t, p, user, es, message, faults);
    if k in Changed(p, prev.prefs) {
      StepsPrefsGrounded(t, p, user, es', message, faults, k);
      var j :| 0 <= j < |es'| && es'[j].Item? && es'[j].name.Str? && Accepts(es'[j].name.s, message)
               && es'[j].name.s in prev.table.ids && k == (user, prev.table.ids[es'[j].name.s]);
      assert es[j] == es'[j];
    } else {
      ResolveKeepsRows(prev.table, e.name, message, FaultAt(faults, |es| - 1));
      assert e.Item? && e.name.Str? && Accepts(e.name.s, message);
    }
  }

  /** One block writes only preferences grounded in its first five entries. */
  lemma CategoryPrefsGrounded(s: Store, c: Category, user: UserId, input: CategoryInput,
                              message: Option<string>, faults: seq<Fault>, k: (UserId, nat))
    requires k in Changed(s.PrefsOf(c), ApplyCategory(s, c, user, input, message, faults).0.PrefsOf(c))
    ensures input.List?
    ensures GroundedKey(Batch(input.entries), message,
                        ApplyCategory(s, c, user, input, message, faults).0.TableOf(c), user, k)
  {
    if input.NotAList? {
      ChangedSelf(s.PrefsOf(c));
      assert false;
    } else {
      StepsPrefsGrounded(s.TableOf(c), s.PrefsOf(c), user, Batch(input.entries), message, faults, k);
    }
  }

  /** The anti-hallucination gate also guards the preference tables: every
      preference a call changes or adds is the caller's key for the id of
      one of the first five entries of that category whose name passed the
      gate, so a listed item that the message does not name gets none. */
  lemma NoHallucinatedPrefs(s: Store, user: Option<UserId>, updates: Option<Updates>,
                            message: Option<string>, faults: Faults, c: Category, k: (UserId, nat))
    requires k in Changed(s.PrefsOf(c), ApplyUpdates(s, user, updates, message, faults).PrefsOf(c))
    ensures HasUser(user) && updates.Some? && updates.value.InputOf(c).List?
    ensures GroundedKey(Batch(updates.value.InputOf(c).entries), message,
                        ApplyUpdates(s, user, updates, message, faults).TableOf(c), user.value, k)
  {
    var p := s.PrefsOf(c);
    if !HasUser(user) || updates.None? {
      ChangedSelf(p);
      assert false;
    } else {
      var u, v := updates.value, user.value;
      Reached(s, v, u, message, faults, c);
      match StoreBefore(s, v, u, message, faults, c)
      case None =>
        ChangedSelf(p);
        assert false;
      case Some(b) =>
        CategoryPrefsGrounded(b, c, v, u.InputOf(c), message, faults.Of(c), k);
    }
  }

  /** Every run keeps every master list valid. */
  lemma {:induction false} StepsKeepValid(t: Table, p: Prefs, user: UserId, es: seq<Entry>,
                                          message: Option<string>, faults: seq<Fault>)
    requires TableValid(t)
    ensures TableValid(Steps(t, p, user, es, message, faults).table)
    decreases |es|
  {
    if es != [] {
      var es' := es[..|es| - 1];
      StepsKeepValid(t, p, user, es', message, faults);
      var prev := Steps(t, p, user, es', message, faults);
      if !prev.aborted && Usable(es[|es| - 1]) {
        ResolveKeepsValid(prev.table, es[|es| - 1].name, message, FaultAt(faults, |es| - 1));
      }
    }
  }

  lemma CategoryKeepsValid(s: Store, c: Category, user: UserId, input: CategoryInput,
                           message: Option<string>, faults: seq<Fault>)
    requires s.Valid()
    ensures ApplyCategory(s, c, user, input, message, faults).0.Valid()
  {
    if input.List? {
      StepsKeepValid(s.TableOf(c), s.PrefsOf(c), user, Batch(input.entries), message, faults);
      var r := ApplyCategory(s, c, user, input, message, faults).0;
      assert TableValid(r.TableOf(Foods)) && TableValid(r.TableOf(SensoryAttributes))
        && TableValid(r.TableOf(Conditions)) by {
        assert TableValid(s.TableOf(Foods)) && TableValid(s.TableOf(SensoryAttributes))
          && TableValid(s.TableOf(Conditions));
      }
    }
  }

  /** A call keeps every master list valid: positive, distinct ids below the
      next rowid. */
  lemma ApplyKeepsValid(s: Store, user: Option<UserId>, updates: Option<Updates>,
                        message: Option<string>, faults: Faults)
    requires s.Valid()
    ensures ApplyUpdates(s, user, updates, message, faults).Valid()
  {
    if HasUser(user) && updates.Some? {
      var u, v := updates.value, user.value;
      CategoryKeepsValid(s, Foods, v, u.foods, message, faults.foods);
      var (s1, _) := ApplyCategory(s, Foods, v, u.foods, message, faults.foods);
      CategoryKeepsValid(s1, SensoryAttributes, v, u.sensory, message, faults.sensory);
      var (s2, _) := ApplyCategory(s1, SensoryAttributes, v, u.sensory, message, faults.sensory);
      CategoryKeepsValid(s2, Conditions, v, u.conditions, message, faults.conditions);
    }
  }

  // ---------------------------------------------------------------------
  // Upsert semantics: re-applying an update changes nothing

  /** The entry would reach the resolver and pass its gate. */
  predicate Resolvable(e: Entry, message: Option<string>)
  {
    Usable(e) && e.name.Str? && Accepts(e.name.s, message)
  }

  /** The flags a fault-free run writes, each item's id read from `T`; a
      later write to the same key replaces an earlier one. */
  function Writes(T: Table, user: UserId, es: seq<Entry>, message: Option<string>): Prefs
    decreases |es|
  {
    if es == [] then map[]
    else
      var prev := Writes(T, user, es[..|es| - 1], message);
      var e := es[|es| - 1];
      if NullEntry in es[..|es| - 1] then prev else WriteOf(T, prev, user, e, message)
  }

  /** Every name a run would resolve before any null entry is listed in `T`. */
  ghost predicate Known(T: Table, es: seq<Entry>, message: Option<string>)
  {
    forall k :: 0 <= k < |es| && NullEntry !in es[..k] && Resolvable(es[k], message) ==> es[k].name.s in T.ids
  }

  lemma {:induction false} StepsExtend(t: Table, p: Prefs, user: UserId, es: seq<Entry>,
                                       message: Option<string>, faults: seq<Fault>)
    requires es != []
    ensures Extends(Steps(t, p, user, es[..|es| - 1], message, faults).table,
                    Steps(t, p, user, es, message, faults).table)
  {
    var prev := Steps(t, p, user, es[..|es| - 1], message, faults);
    if !prev.aborted && Usable(es[|es| - 1]) {
      ResolveKeepsRows(prev.table, es[|es| - 1].name, message, FaultAt(faults, |es| - 1));
    }
  }

  /** The write of one fault-free step, its id read from any table that
      extends the table the step ends with. */
  function WriteOf(T: Table, q: Prefs, user: UserId, e: Entry, message: Option<string>): Prefs
  {
    if Resolvable(e, message) && e.name.s in T.ids && T.ids[e.name.s] != 0
    then q[(user, T.ids[e.name.s]) := e.flag.value]
    else q
  }

  lemma EntryStepWrites(t: Table, q: Prefs, user: UserId, e: Entry, message: Option<string>, T: Table)
    requires e != NullEntry
    requires Extends(EntryStep(t, q, user, e, message, NoFault).table, T)
    ensures EntryStep(t, q, user, e, message, NoFault).prefs == WriteOf(T, q, user, e, message)
  {
    if Usable(e) {
      ResolveKeepsRows(t, e.name, message, NoFault);
    }
  }

  lemma UpdateUnion(p: Prefs, w: Prefs, T: Table, user: UserId, e: Entry, message: Option<string>)
    ensures WriteOf(T, p + w, user, e, message) == p + WriteOf(T, w, user, e, message)
  {
  }

  /** A fault-free run writes exactly `Writes` over the old preferences, with
      ids read from any table extending the one it ends with. */
  lemma {:induction false} FirstRunWrites(t: Table, p: Prefs, user: UserId, es: seq<Entry>,
                                          message: Option<string>, T: Table)
    requires Extends(Steps(t, p, user, es, message, []).table, T)
    ensures Steps(t, p, user, es, message, []).prefs == p + Writes(T, user, es, message)
    decreases |es|
  {
    if es != [] {
      var es' := es[..|es| - 1];
      var e := es[|es| - 1];
      StepsExtend(t, p, user, es, message, []);
      FirstRunWrites(t, p, user, es', message, T);
      var prev := Steps(t, p, user, es', message, []);
      AbortedIffNull(t, p, user, es', message, []);
      if !prev.aborted && e != NullEntry {
        EntryStepWrites(prev.table, prev.prefs, user, e, message, T);
        UpdateUnion(p, Writes(T, user, es', message), T, user, e, message);
      }
    }
  }

  /** A fault-free run lists every name it resolves. */
  lemma {:induction false} FirstRunKnows(t: Table, p: Prefs, user: UserId, es: seq<Entry>,
                                         message: Option<string>)
    ensures Known(Steps(t, p, user, es, message, []).table, es, message)
    decreases |es|
  {
    if es != [] {
      var es' := es[..|es| - 1];
      var e := es[|es| - 1];
      FirstRunKnows(t, p, user, es', message);
      StepsExtend(t, p, user, es, message, []);
      AbortedIffNull(t, p, user, es', message, []);
      var prev := Steps(t, p, user, es', message, []);
      if !prev.aborted && Usable(e) {
        ResolveKeepsRows(prev.table, e.name, message, NoFault);
      }
      var T := Steps(t, p, user, es, message, []).table;
      forall k | 0 <= k < |es| && NullEntry !in es[..k] && Resolvable(es[k], message)
        ensures es[k].name.s in T.ids
      {
        if k < |es| - 1 {
          assert es'[..k] == es[..k];
        } else {
          assert es[..k] == es';
        }
      }
    }
  }

  lemma KnownEntryStep(T: Table, q: Prefs, user: UserId, e: Entry, message: Option<string>)
    requires e != NullEntry
    requires Resolvable(e, message) ==> e.name.s in T.ids
    ensures EntryStep(T, q, user, e, message, NoFault) == Progress(T, WriteOf(T, q, user, e, message), false)
  {
  }

  lemma KnownPrefix(T: Table, es: seq<Entry>, message: Option<string>)
    requires es != [] && Known(T, es, message)
    ensures Known(T, es[..|es| - 1], message)
    ensures NullEntry !in es[..|es| - 1] && Resolvable(es[|es| - 1], message) ==> es[|es| - 1].name.s in T.ids
  {
    var es' := es[..|es| - 1];
    forall k | 0 <= k < |es'| && NullEntry !in es'[..k] && Resolvable(es'[k], message)
      ensures es'[k].name.s in T.ids
    {
      assert es'[..k] == es[..k] && es'[k] == es[k];
    }
  }

  /** A fault-free run on a table that already lists every name it resolves
      keeps the table and writes `Writes`. */
  lemma {:induction false} SecondRunWrites(T: Table, q: Prefs, user: UserId, es: seq<Entry>,
                                           message: Option<string>)
    requires Known(T, es, message)
    ensures Steps(T, q, user, es, message, [])
         == Progress(T, q + Writes(T, user, es, message), NullEntry in es)
    decreases |es|
  {
    if es != [] {
      var es' := es[..|es| - 1];
      var e := es[|es| - 1];
      KnownPrefix(T, es, message);
      SecondRunWrites(T, q, user, es', message);
      assert es == es' + [e];
      if NullEntry !in es' && e != NullEntry {
        KnownEntryStep(T, q + Writes(T, user, es', message), user, e, message);
        UpdateUnion(q, Writes(T, user, es', message), T, user, e, message);
      }
    }
  }

  /** Re-running a category's entries on the state a fault-free run left
      changes nothing. */
  lemma StepsIdempotent(t: Table, p: Prefs, user: UserId, es: seq<Entry>, message: Option<string>)
    ensures var pr := Steps(t, p, user, es, message, []);
      Steps(pr.table, pr.prefs, user, es, message, []) == pr
  {
    var pr := Steps(t, p, user, es, message, []);
    var w := Writes(pr.table, user, es, message);
    FirstRunWrites(t, p, user, es, message, pr.table);
    FirstRunKnows(t, p, user, es, message);
    SecondRunWrites(pr.table, pr.prefs, user, es, message);
    AbortedIffNull(t, p, user, es, message, []);
    assert (p + w) + w == p + w;
  }

  lemma CategoryIdempotent(s: Store, s': Store, c: Category, user: UserId, input: CategoryInput,
                           message: Option<string>)
    requires var r := ApplyCategory(s, c, user, input, message, []).0;
      s'.TableOf(c) == r.TableOf(c) && s'.PrefsOf(c) == r.PrefsOf(c)
    ensures ApplyCategory(s', c, user, input, message, [])
         == (s', ApplyCategory(s, c, user, input, message, []).1)
  {
    if input.List? {
      StepsIdempotent(s.TableOf(c), s.PrefsOf(c), user, Batch(input.entries), message);
    }
    assert s'.With(c, s'.TableOf(c), s'.PrefsOf(c)) == s' by {
      match c {
        case Foods =>
        case SensoryAttributes =>
        case Conditions =>
      }
    }
  }

  /** Applying the same updates again, with no storage failure, leaves the
      store as the first application left it: upserts replace, they do not
      accumulate, and no name gets a second row. */
  lemma ReapplyChangesNothing(s: Store, user: Option<UserId>, updates: Option<Updates>,
                              message: Option<string>)
    ensures var s1 := ApplyUpdates(s, user, updates, message, NoFaults);
      ApplyUpdates(s1, user, updates, message, NoFaults) == s1
  {
    if HasUser(user) && updates.Some? {
      var u, v := updates.value, user.value;
      var s1 := ApplyUpdates(s, user, updates, message, NoFaults);
      var (a, fa) := ApplyCategory(s, Foods, v, u.foods, message, []);
      CategoryIdempotent(s, s1, Foods, v, u.foods, message);
      if !fa {
        var (b, fb) := ApplyCategory(a, SensoryAttributes, v, u.sensory, message, []);
        var (a', _) := ApplyCategory(s1, Foods, v, u.foods, message, []);
        CategoryIdempotent(a, a', SensoryAttributes, v, u.sensory, message);
        if !fb {
          var (b', _) := ApplyCategory(a', SensoryAttributes, v, u.sensory, message, []);
          CategoryIdempotent(b, b', Conditions, v, u.conditions, message);
        }
      }
    }
  }

  // ---------------------------------------------------------------------
  // Scenarios

  /** A call that brings only foods. */
  lemma FoodsOnly(s: Store, user: UserId, es: seq<Entry>, message: Option<string>)
    requires user != ""
    ensures var pr := Steps(s.foods, s.foodPreferences, user, Batch(es), message, []);
      ApplyUpdates(s, Some(user), Some(Updates(List(es), NotAList, NotAList)), message, NoFaults)
      == s.(foods := pr.table, foodPreferences := pr.prefs)
  {
  }

  lemma SingleStep(t: Table, p: Prefs, user: UserId, e: Entry, message: Option<string>)
    ensures Steps(t, p, user, [e], message, []) == EntryStep(t, p, user, e, message, NoFault)
  {
    assert [e][..0] == [];
  }

  /** The step of an item whose name the gate refuses. */
  lemma RefusedStep(t: Table, p: Prefs, user: UserId, name: string, flag: int, message: Option<string>)
    requires name != "" && !Accepts(name, message)
    ensures EntryStep(t, p, user, Item(Str(name), Some(flag)), message, NoFault) == Progress(t, p, false)
  {
  }

  /** The step of an accepted item whose name is not yet listed. */
  lemma NewNameStep(t: Table, p: Prefs, user: UserId, name: string, flag: int, message: Option<string>)
    requires name != "" && Accepts(name, message) && name !in t.ids && t.nextId != 0
    ensures EntryStep(t, p, user, Item(Str(name), Some(flag)), message, NoFault)
         == Progress(Table(t.ids[name := t.nextId], t.nextId + 1), p[(user, t.nextId) := flag], false)
  {
  }

  /** The step of an accepted item whose name is already listed. */
  lemma KnownNameStep(t: Table, p: Prefs, user: UserId, name: string, flag: int, message: Option<string>)
    requires name != "" && Accepts(name, message) && name in t.ids && t.ids[name] != 0
    ensures EntryStep(t, p, user, Item(Str(name), Some(flag)), message, NoFault)
         == Progress(t, p[(user, t.ids[name]) := flag], false)
  {
  }

  const BananaMessage := "I can't eat bananas, they're too mushy."

  lemma BananaTrimmed()
    ensures Trim("banana") == "banana"
  {
    TrimUnchanged("banana");
  }

  lemma BananaMessageNamesBanana(m: string)
    requires m == BananaMessage
    ensures m != "" && OccursAt(m, "banana", 12)
  {
    assert m[12] == 'b' && m[13] == 'a' && m[14] == 'n' && m[15] == 'a' && m[16] == 'n' && m[17] == 'a';
  }

  lemma BananaMessageLacksX(m: string)
    requires m == BananaMessage
    ensures m != "" && 'x' !in m && 'X' !in m
  {
  }

  lemma BananaMessageLacksD(m: string)
    requires m == BananaMessage
    ensures m != "" && 'd' !in m && 'D' !in m
  {
  }

  lemma BananaMentioned(m: string, i: nat)
    requires OccursAt(m, "banana", i)
    ensures Accepts("banana", Some(m))
  {
    BananaTrimmed();
    LiteralMentionAccepted("banana", m, i);
  }

  lemma MushyTrimmed()
    ensures Trim("mushy texture") == "mushy texture" && 'x' in Trim("mushy texture")
  {
    TrimUnchanged("mushy texture");
    assert "mushy texture"[8] == 'x';
  }

  lemma MushyNotMentioned(m: string)
    requires m != "" && 'x' !in m && 'X' !in m
    ensures !Accepts("mushy texture", Some(m))
  {
    MushyTrimmed();
    MissingLetterRefused("mushy texture", m, 'x');
  }

  lemma DurianTrimmed()
    ensures Trim("durian") == "durian" && 'd' in Trim("durian")
  {
    TrimUnchanged("durian");
    assert "durian"[0] == 'd';
  }

  lemma DurianNotMentioned(m: string)
    requires m != "" && 'd' !in m && 'D' !in m
    ensures !Accepts("durian", Some(m))
  {
    DurianTrimmed();
    MissingLetterRefused("durian", m, 'd');
  }

  /** The store after the banana scenario. */
  const BananaStore := EmptyStore.(foods := Table(map["banana" := 1], 2), foodPreferences := map[("7", 1) := 0])

  lemma BananaFoods(message: string)
    requires message == BananaMessage
    ensures ApplyCategory(EmptyStore, Foods, "7", List([Item(Str("banana"), Some(0))]), Some(message), [])
         == (BananaStore, false)
  {
    BananaMessageNamesBanana(message);
    BananaMentioned(message, 12);
    NewNameStep(EmptyTable, map[], "7", "banana", 0, Some(message));
    SingleStep(EmptyTable, map[], "7", Item(Str("banana"), Some(0)), Some(message));
  }

  lemma MushySensory(message: string)
    requires message == BananaMessage
    ensures ApplyCategory(BananaStore, SensoryAttributes, "7", List([Item(Str("mushy texture"), Some(1))]),
                          Some(message), [])
         == (BananaStore, false)
  {
    BananaMessageLacksX(message);
    MushyNotMentioned(message);
    RefusedStep(EmptyTable, map[], "7", "mushy texture", 1, Some(message));
    SingleStep(EmptyTable, map[], "7", Item(Str("mushy texture"), Some(1)), Some(message));
  }

  /** A new user says "I can't eat bananas, they're too mushy." and the model
      proposes banana (unsafe) and "mushy texture" (problematic). Banana gets
      row 1 and the flag 0; "mushy texture" is not a substring of the
      message, so it is dropped and no sensory row exists. */
  lemma BananaScenario(message: string)
    requires message == BananaMessage
    ensures var u := Updates(List([Item(Str("banana"), Some(0))]),
                             List([Item(Str("mushy texture"), Some(1))]), NotAList);
      ApplyUpdates(EmptyStore, Some("7"), Some(u), Some(message), NoFaults)
      == EmptyStore.(foods := Table(map["banana" := 1], 2), foodPreferences := map[("7", 1) := 0])
  {
    BananaFoods(message);
    MushySensory(message);
  }

  /** A name the message never mentions creates no row and no preference. */
  lemma DurianRefused(s: Store, message: string)
    requires message == BananaMessage
    ensures var u := Updates(List([Item(Str("durian"), Some(0))]), NotAList, NotAList);
      ApplyUpdates(s, Some("7"), Some(u), Some(message), NoFaults) == s
  {
    var e := Item(Str("durian"), Some(0));
    BananaMessageLacksD(message);
    DurianNotMentioned(message);
    RefusedStep(s.foods, s.foodPreferences, "7", "durian", 0, Some(message));
    SingleStep(s.foods, s.foodPreferences, "7", e, Some(message));
    FoodsOnly(s, "7", [e], Some(message));
  }

  /** A later update of the same item replaces its flag for that user,
      whenever the message mentions it. */
  lemma FlagReplacedWhenMentioned(message: Option<string>)
    requires Accepts("banana", message)
    ensures var before := EmptyStore.(foods := Table(map["banana" := 1], 2),
                                      foodPreferences := map[("7", 1) := 0]);
      var u := Updates(List([Item(Str("banana"), Some(1))]), NotAList, NotAList);
      ApplyUpdates(before, Some("7"), Some(u), message, NoFaults)
      == before.(foodPreferences := map[("7", 1) := 1])
  {
    var before := EmptyStore.(foods := Table(map["banana" := 1], 2), foodPreferences := map[("7", 1) := 0]);
    var e := Item(Str("banana"), Some(1));
    KnownNameStep(before.foods, before.foodPreferences, "7", "banana", 1, message);
    assert map[("7", 1) := 0][("7", 1) := 1] == map[("7", 1) := 1];
    SingleStep(before.foods, before.foodPreferences, "7", e, message);
    FoodsOnly(before, "7", [e], message);
  }

  /** The same, for the banana message. */
  lemma FlagReplaced(message: string)
    requires message == BananaMessage
    ensures var before := EmptyStore.(foods := Table(map["banana" := 1], 2),
                                      foodPreferences := map[("7", 1) := 0]);
      var u := Updates(List([Item(Str("banana"), Some(1))]), NotAList, NotAList);
      ApplyUpdates(before, Some("7"), Some(u), Some(message), NoFaults)
      == before.(foodPreferences := map[("7", 1) := 1])
  {
    BananaMessageNamesBanana(message);
    BananaMentioned(message, 12);
    FlagReplacedWhenMentioned(Some(message));
  }

  lemma SecondMessageNamesBanana(m: string)
    requires m == "I can't eat bananas"
    ensures OccursAt(m, "banana", 12)
  {
    assert m[12] == 'b' && m[13] == 'a' && m[14] == 'n' && m[15] == 'a' && m[16] == 'n' && m[17] == 'a';
  }

  /** Mentioning banana again on a later day resolves to the existing row:
      no second catalog row, and the flag is rewritten with the same value. */
  lemma MentionedAgain(message: Option<string>)
    requires Accepts("banana", message)
    ensures var u := Updates(List([Item(Str("banana"), Some(0))]), NotAList, NotAList);
      ApplyUpdates(BananaStore, Some("7"), Some(u), message, NoFaults) == BananaStore
  {
    var e := Item(Str("banana"), Some(0));
    KnownNameStep(BananaStore.foods, BananaStore.foodPreferences, "7", "banana", 0, message);
    assert map[("7", 1) := 0][("7", 1) := 0] == map[("7", 1) := 0];
    SingleStep(BananaStore.foods, BananaStore.foodPreferences, "7", e, message);
    FoodsOnly(BananaStore, "7", [e], message);
  }

  /** The same, for the later message "I can't eat bananas". */
  lemma BananaAgain(message: string)
    requires message == "I can't eat bananas"
    ensures var u := Updates(List([Item(Str("banana"), Some(0))]), NotAList, NotAList);
      ApplyUpdates(BananaStore, Some("7"), Some(u), Some(message), NoFaults) == BananaStore
  {
    SecondMessageNamesBanana(message);
    BananaMentioned(message, 12);
    MentionedAgain(Some(message));
  }
}
