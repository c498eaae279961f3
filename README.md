# Memory pipeline of the food-constraints assistant, in Dafny

`backend/memoryOps.js` keeps what the assistant has learnt about each user.
It stores foods to avoid, sensory triggers and conditions, reads them back as
a short text block for the language model's prompt, and writes back the
`memory_updates` the model proposes. Before an item is created, an
anti-hallucination gate checks that the user's message actually mentions it.
This project models that file in four modules:

- `JsValues` (`values.dfy`): the JavaScript values the code tests, reduced to
  the distinctions it makes. A value is absent, a string, or some other
  truthy or falsy value. The user id and the message are optional strings,
  and an empty string is falsy.
- `Text` (`text.dfy`): the string built-ins the code relies on.
  - `trim` strips the ECMAScript white-space set.
  - `toLowerCase` is folded on ASCII letters only.
  - `includes` is a plain substring test.
  - `join` is modelled together with its inverse, `split`.
  - A number's decimal rendering in a template literal is modelled with its
    parse back.
- `ConstraintReader` (`reader.dfy`): `getUserConstraints` with its inner
  `formatList` and `checkDone`, in two forms.
  - A pure specification, `Summary`, over the three query results. Each
    result is a sequence of rows, or a failed query.
  - A `Collector` class that holds the callbacks' shared state: `pending`,
    the `constraints` lists, `contextParts` and the resolved string. Its
    callback methods are proved to end in `Summary`, whatever order the
    callbacks run in.
- `MemoryStore` (`store.dfy`): the store and the resolver.
  - The store has three master lists, each a name-to-id map with the next
    rowid, and three preference tables keyed by (user, item id).
  - The gate is `Accepts`, and the resolver specification is `Resolve`.
  - `Database` is a class whose fields are the six tables.
  - `EnsureMasterRecord` is the method that checks the gate, looks the name
    up and inserts it against a `Database`.
- `MemoryUpdates` (`applier.dfy`): `applyMemoryUpdates`.
  - `ApplyUpdates` is the specification over a store value.
  - `ApplyMemoryUpdates` and `ProcessCategory` run the three `for` loops
    against a `Database`. `ProcessCategory` keeps a loop invariant tying the
    database to the specification.

Storage failures are an oracle argument. For each category and each position
in the truncated array, a `Fault` says whether the `SELECT` or the `INSERT`
fails for that entry, so that isolation of failures can be stated.

Edge cases of the code that the model keeps:

- The catalog lookup at line 118 uses the untrimmed name, and is exact
  equality as far as this file shows. `VariantsGetOwnRow` shows that
  " banana" and "Banana" then each get their own row.
- For the message "I can't eat bananas, they're too mushy." the gate
  refuses "mushy texture", which is not a substring of it, so no sensory
  row is created (`BananaScenario`).
- An empty-string message is falsy, so it skips the gate (line 108).
- A `null` entry inside one of the first five array elements makes
  `item.name` throw outside the per-item `try` (line 144). The outer `catch`
  (line 195) then abandons that category and every later category
  (`AbortSticks`, `NullEntryAbandonsSiblings`).

## Model

| member | source | states |
|---|---|---|
| JsValues.Truthy | backend/memoryOps.js:144 | `!item.name` is true exactly for an absent value, `""`, or a falsy other value |
| Text.Trim | backend/memoryOps.js:105 | the result is the slice of the input between its leading and trailing white space, has no white space at either end, and everything stripped is white space |
| Text.TrimIdempotent | backend/memoryOps.js:105 | trimming twice is trimming once |
| Text.TrimUnchanged | backend/memoryOps.js:105 | a string with no white space at either end is its own trim |
| Text.ToLower | backend/memoryOps.js:105-109 | same length; each character is folded to lower case if it is an ASCII capital and kept otherwise |
| Text.TrimToLower | backend/memoryOps.js:105 | lower-casing commutes with trimming, so the order of `trim().toLowerCase()` does not matter |
| Text.Includes | backend/memoryOps.js:112 | true exactly when the needle occurs at some position of the haystack |
| Text.IncludesChars | backend/memoryOps.js:112 | every character of a contained string occurs in the container |
| Text.Join | backend/memoryOps.js:54-71 | `parts.join(sep)`: `""` for no parts, the single part alone, and otherwise the first part, the separator and the join of the rest |
| Text.SplitJoin | backend/memoryOps.js:71 | splitting a newline join at a separator that no part contains gives back the parts |
| Text.NatToString | backend/memoryOps.js:57 | the rendering of a count is all digits and has no leading zero |
| Text.NatToStringRoundTrip | backend/memoryOps.js:57 | the rendered count reads back as the same number |
| ConstraintReader.Names | backend/memoryOps.js:54 | `map(i => i.name)`: same length, each element the row's name |
| ConstraintReader.UnsafeFoods | backend/memoryOps.js:77-80 | a row is kept exactly when it is one of the food rows and its flag is 0 |
| ConstraintReader.SafeFoods | backend/memoryOps.js:77-80 | a row is kept exactly when it is one of the food rows and its flag is not 0 |
| ConstraintReader.Delivered | backend/memoryOps.js:76-91 | the rows a callback keeps: none when the query failed, all of them otherwise |
| ConstraintReader.FormatList | backend/memoryOps.js:52-53 | no line exactly when the list is empty |
| ConstraintReader.Parts | backend/memoryOps.js:62-69 | the AVOID FOODS, SENSORY TRIGGERS and CONDITIONS lines formatted from three lists, in that order, each only when its list gives a line |
| ConstraintReader.Lines | backend/memoryOps.js:62-69 | `contextParts` after the last callback: `Parts` of the unsafe food rows and of the delivered trigger and condition rows |
| ConstraintReader.Summary | backend/memoryOps.js:11-71 | the resolved string: `""` without a user id, otherwise `Lines` joined by newlines |
| ConstraintReader.FormatListShows | backend/memoryOps.js:52-60 | a non-empty list gives `title: ` followed by the first `limit` names joined by `, ` (at most `limit` of them), then `, and N more` exactly when rows are left over, where N reads back as the count of the rest |
| ConstraintReader.FormatListAvoids | backend/memoryOps.js:52-60 | a character found in no name, not in the title and not in the fixed text never appears in the line |
| ConstraintReader.SummaryLines | backend/memoryOps.js:62-71 | when no name holds a newline, splitting the summary at newlines gives the AVOID FOODS, SENSORY TRIGGERS and CONDITIONS lines, each present only when non-empty, in that order |
| ConstraintReader.SummaryEmptyIff | backend/memoryOps.js:11-71 | the summary is `""` exactly when there is no user id, or when no unsafe food, no trigger and no condition was delivered |
| ConstraintReader.SafeFoodIgnored | backend/memoryOps.js:78-79 | a food row whose flag is not 0, inserted anywhere in the food results, leaves the summary unchanged |
| ConstraintReader.FailedQueryIsEmpty | backend/memoryOps.js:76-91 | a failed query gives the same summary as one that returned no rows |
| ConstraintReader.BananaSummary | backend/memoryOps.js:62-71 | user "7", whose only fact is an unsafe banana, gets exactly `AVOID FOODS: banana` |
| ConstraintReader.OneUnsafeFood | backend/memoryOps.js:52-71 | a user whose only fact is one unsafe food gets exactly the line `AVOID FOODS: <name>` |
| ConstraintReader.SortFoods | backend/memoryOps.js:77-80 | the `forEach` loop yields exactly the unsafe and the safe rows, in query order |
| ConstraintReader.Collector.constructor | backend/memoryOps.js:36-46 | three callbacks outstanding, all lists empty, the invariant holds |
| ConstraintReader.Collector.FormatParts | backend/memoryOps.js:62-69 | the pushed lines are the present lines of the three collected lists, in fixed order |
| ConstraintReader.Collector.CheckDone | backend/memoryOps.js:48-73 | counts one callback down and keeps the invariant; after the last callback, `contextParts` are the summary lines and the resolved string is their newline join |
| ConstraintReader.Collector.OnFoods | backend/memoryOps.js:75-83 | records the food result, sorting rows only when the query succeeded, and keeps the invariant |
| ConstraintReader.Collector.OnSensory | backend/memoryOps.js:85-88 | records the sensory result and keeps the invariant |
| ConstraintReader.Collector.OnConditions | backend/memoryOps.js:90-93 | records the condition result and keeps the invariant |
| ConstraintReader.Deliver | backend/memoryOps.js:75-93 | running the callback of one query records its result, marks only that query done and keeps the invariant |
| ConstraintReader.GetUserConstraints | backend/memoryOps.js:9-96 | resolves with `""` without a user id, and otherwise with the summary of the three results |
| ConstraintReader.CollectInOrder | backend/memoryOps.js:39-94 | in whatever order the three callbacks settle, the resolved string is the same summary |
| MemoryStore.Store.With | backend/memoryOps.js:142-193 | replaces one category's list and preference table and leaves the other categories unchanged |
| MemoryStore.Accepts | backend/memoryOps.js:105-116 | the gate: without a truthy message every name passes; otherwise the trimmed, lower-cased name must occur in the lower-cased message |
| MemoryStore.Resolve | backend/memoryOps.js:103-131 | `ensureMasterRecord` on one master list: a non-string name rejects; a refused name gives `null`; a failed lookup rejects; a listed name gives its id; a failed insert rejects; otherwise the name is added with the next rowid, which is returned |
| MemoryStore.LiteralMentionAccepted | backend/memoryOps.js:105-116 | a name whose trimmed form occurs literally in the message passes the gate |
| MemoryStore.GateIgnoresCase | backend/memoryOps.js:105-112 | the gate's verdict does not depend on ASCII case in the name or in the message |
| MemoryStore.MissingLetterRefused | backend/memoryOps.js:105-116 | a name holding a letter that the message has in neither case is refused |
| MemoryStore.RiceInsidePrice | backend/memoryOps.js:110-112 | the test is a bare substring test: "rice" passes inside "price" |
| MemoryStore.BlankNameAccepted | backend/memoryOps.js:105-112 | a name of white space only trims to `""` and passes every message |
| MemoryStore.RefusedNameTouchesNothing | backend/memoryOps.js:108-116 | the resolver settles with `null` exactly when the name is a string the gate refuses; then the result does not depend on the store or on storage faults, and the list is unchanged |
| MemoryStore.ResolveExisting | backend/memoryOps.js:118-121 | an accepted name that is already listed resolves to its id, and the list is unchanged |
| MemoryStore.ResolveNew | backend/memoryOps.js:122-127 | an accepted new name gets exactly one new row, whose fresh id is `lastID` and belongs to no other row |
| MemoryStore.ResolveKeepsRows | backend/memoryOps.js:103-131 | existing rows keep their ids; a resolved id is the name's id afterwards; the only row ever added is the accepted name itself; a rejection or a skip changes nothing |
| MemoryStore.ResolveKeepsValid | backend/memoryOps.js:118-127 | the list stays valid, with positive distinct ids below the next rowid, and a resolved id is positive |
| MemoryStore.ResolveTwice | backend/memoryOps.js:118-128 | two successive calls with the same name give the same id, and the second changes nothing |
| MemoryStore.VariantsGetOwnRow | backend/memoryOps.js:118-123 | the lookup is exact: " banana" and "Banana" do not resolve to banana's row |
| MemoryStore.Database.constructor | backend/memoryOps.js:103-131 | the store starts empty |
| MemoryStore.Database.Get | backend/memoryOps.js:118-121 | fails exactly when the lookup fault is set; otherwise returns the row's id when the name is listed, and no row otherwise |
| MemoryStore.Database.Insert | backend/memoryOps.js:123-126 | fails exactly when the insert fault is set, changing nothing; otherwise adds the name with the next rowid, returns that rowid as `lastID` and leaves everything else unchanged |
| MemoryStore.Database.InsertOrReplace | backend/memoryOps.js:149-186 | sets the (user, item) flag in one preference table and changes nothing else |
| MemoryStore.EnsureMasterRecord | backend/memoryOps.js:103-131 | the outcome and the new database are those of `Resolve` on the category's list, and no preference table changes |
| MemoryUpdates.Usable | backend/memoryOps.js:144 | an entry is processed exactly when its name is truthy and its flag is defined |
| MemoryUpdates.EntryStep | backend/memoryOps.js:144-155 | one entry: `null` abandons the call; an unusable entry is skipped; otherwise the name is resolved and, when that gives a non-zero id, the user's flag for it is set |
| MemoryUpdates.Steps | backend/memoryOps.js:143-156 | the loop over a category's batch: the entries taken in order, each by `EntryStep`, and nothing after an abandoning entry |
| MemoryUpdates.ApplyCategory | backend/memoryOps.js:142-157 | one category block: a non-array leaves the store as it is; otherwise `Steps` over the first five entries, applied to that category, with whether the call was abandoned |
| MemoryUpdates.ApplyUpdates | backend/memoryOps.js:137-198 | the whole call: nothing without a user id or updates; otherwise foods, then sensory attributes, then conditions, stopping after an abandoned block |
| MemoryUpdates.Batch | backend/memoryOps.js:143-179 | `slice(0, 5)`: a prefix of at most five entries; all entries when there are at most five |
| MemoryUpdates.ApplyMemoryUpdates | backend/memoryOps.js:137-198 | the database ends as `ApplyUpdates` of its old state: foods, then sensory attributes, then conditions, and nothing after an abandoned category |
| MemoryUpdates.ProcessCategory | backend/memoryOps.js:142-157 | one category block: a non-array is ignored; otherwise the loop over the first five entries ends in the `Steps` state of that category, and reports whether the call was abandoned |
| MemoryUpdates.ProcessEntry | backend/memoryOps.js:146-155 | one present entry: the database ends as `EntryStep` of its category, resolving the name and recording the flag when an id comes back, and the loop goes on |
| MemoryUpdates.ProcessEntryFrom | backend/memoryOps.js:143-156 | one loop iteration on a present entry: when the category holds the run so far, it afterwards holds that run followed by the entry's `EntryStep`, and the loop goes on |
| MemoryUpdates.NothingWithoutUserOrUpdates | backend/memoryOps.js:138 | a missing or empty user id, or missing updates, leaves the store unchanged |
| MemoryUpdates.AbortSticks | backend/memoryOps.js:140-197 | once an exception has reached the outer `catch`, later entries change nothing |
| MemoryUpdates.AbortedIffNull | backend/memoryOps.js:144-195 | a category loop is abandoned exactly when one of its first five entries is `null` |
| MemoryUpdates.NullEntryAbandonsSiblings | backend/memoryOps.js:144-197 | a `null` food entry loses the banana after it and the sensory entry, even though the message names banana |
| MemoryUpdates.Reached | backend/memoryOps.js:140-197 | a category ends as it was when an earlier block was abandoned, and otherwise as its own block leaves it, starting from its contents before the call |
| MemoryUpdates.StepsFootprint | backend/memoryOps.js:143-156 | each entry upserts at most one key, always the calling user's, and no key is removed |
| MemoryUpdates.CategoryFootprint | backend/memoryOps.js:142-157 | one block changes or adds at most five keys of its preference table, all of the caller's, and removes none |
| MemoryUpdates.AtMostFivePerCategory | backend/memoryOps.js:142-193 | per call and per preference table, at most five keys change or appear, all of the caller's, and none is removed |
| MemoryUpdates.OtherUsersUntouched | backend/memoryOps.js:149-186 | every other user's preferences are exactly as before |
| MemoryUpdates.UpsertStoresFlag | backend/memoryOps.js:147-150 | after an upsert, the user's flag for the resolved item is the flag just applied, and every other key keeps its flag |
| MemoryUpdates.SkippedEntriesChangeNothing | backend/memoryOps.js:144 | entries with a falsy name or an undefined flag change nothing |
| MemoryUpdates.SliceBeforeSkip | backend/memoryOps.js:143-144 | five unusable entries hide a valid sixth: the slice is taken before skipping |
| MemoryUpdates.InsertFailsOnNewName | backend/memoryOps.js:122-127 | a failed insert of a name not yet listed changes neither the list nor the preferences, and the loop goes on |
| MemoryUpdates.FailureActsAsSkip | backend/memoryOps.js:105-155 | an entry whose processing the per-item `try` absorbs gives exactly the run in which that entry was skipped, so later entries are still processed. Such an entry has a name that is not a string, a name the gate refuses, a failed lookup, or a failed insert of a name not listed when the entry is reached |
| MemoryUpdates.CategoryCompletes | backend/memoryOps.js:142-157 | a block whose batch has no `null` entry is not abandoned and changes no other category |
| MemoryUpdates.CategoryLocal | backend/memoryOps.js:142-193 | a block reads and writes only its own category: stores that agree outside another category are still in agreement after it, and are abandoned alike |
| MemoryUpdates.CategoriesIsolated | backend/memoryOps.js:140-193 | a category whose batch has no `null` entry, whatever fails inside it, leaves the other categories as if it had been absent |
| MemoryUpdates.StepsGrounded | backend/memoryOps.js:105-147 | a run only adds names that passed the gate and are names of its entries, and keeps existing rows |
| MemoryUpdates.CategoryGrounded | backend/memoryOps.js:142-157 | a name one block adds passed the gate and is the name of one of its first five entries |
| MemoryUpdates.NoHallucinatedRows | backend/memoryOps.js:100-193 | every name a call adds to a master list passed the gate against the message and is the name of one of the first five entries of that category |
| MemoryUpdates.StepsPrefsGrounded | backend/memoryOps.js:108-150 | every preference a run changes or adds is the user's key for the final id of one of its entries whose name passed the gate |
| MemoryUpdates.CategoryPrefsGrounded | backend/memoryOps.js:142-157 | every preference one block changes or adds belongs to one of its first five entries whose name passed the gate |
| MemoryUpdates.NoHallucinatedPrefs | backend/memoryOps.js:100-193 | every preference a call changes or adds is the caller's key for the listed id of one of the first five entries of that category whose name passed the gate, so a listed item that the message does not name gets no preference |
| MemoryUpdates.StepsKeepValid | backend/memoryOps.js:118-156 | a run keeps its master list valid |
| MemoryUpdates.CategoryKeepsValid | backend/memoryOps.js:142-157 | one block keeps all three master lists valid |
| MemoryUpdates.ApplyKeepsValid | backend/memoryOps.js:137-198 | a call keeps all three master lists valid |
| MemoryUpdates.FirstRunWrites | backend/memoryOps.js:143-156 | a fault-free run writes exactly the last-write-wins fold `Writes` over the old preferences |
| MemoryUpdates.FirstRunKnows | backend/memoryOps.js:118-147 | after a fault-free run, every name it resolved is listed |
| MemoryUpdates.SecondRunWrites | backend/memoryOps.js:118-150 | on a list that already holds every name, a run keeps the list and writes `Writes` again |
| MemoryUpdates.StepsIdempotent | backend/memoryOps.js:143-156 | re-running a category's entries on the state a fault-free run left changes nothing |
| MemoryUpdates.CategoryIdempotent | backend/memoryOps.js:142-157 | the same, at the level of one category block of the store |
| MemoryUpdates.ReapplyChangesNothing | backend/memoryOps.js:137-198 | applying the same updates twice, without storage failures, equals applying them once: upserts replace and no name gets a second row |
| MemoryUpdates.BananaScenario | backend/memoryOps.js:105-175 | "I can't eat bananas, they're too mushy." with banana unsafe and "mushy texture" problematic: banana gets row 1 with flag 0, and "mushy texture" is dropped |
| MemoryUpdates.DurianRefused | backend/memoryOps.js:108-116 | a food the message never mentions creates no row and no preference |
| MemoryUpdates.FlagReplacedWhenMentioned | backend/memoryOps.js:147-150 | for any message that mentions banana, a later flag for banana replaces the earlier one and adds no row |
| MemoryUpdates.FlagReplaced | backend/memoryOps.js:149-150 | a later flag for the same item replaces the earlier one |
| MemoryUpdates.MentionedAgain | backend/memoryOps.js:118-150 | for any message that mentions banana, a repeated banana update resolves to the existing row and leaves the store as it was |
| MemoryUpdates.BananaAgain | backend/memoryOps.js:118-150 | mentioning banana again resolves to its existing row and leaves the store as it was |

## Left out

- SQL text, joins, `db.serialize` and the sqlite3 driver are replaced by the
  in-memory store. The row order of a query and its filters are not modelled:
  the sensory and condition queries keep flag 1, and the join picks only the
  user's rows. Each query result is an input sequence of (name, flag) rows.
  A null `rows` with no error counts as a failed query.
- Promise and callback concurrency and the `await` ordering are left out.
  The three query results are inputs. The `pending` countdown is modelled
  sequentially, in every callback order (`CollectInOrder`).
- `console.log` and `console.error` are left out; they have no effect on
  state.
- `toLowerCase` folds ASCII A–Z only. Full Unicode case mapping is left out.
- The `INSERT OR REPLACE` upserts are not awaited and are given no
  callback, so their failures never reach the function's `try`/`catch`.
  They are modelled as always succeeding.
- A collation declared on the catalog `name` columns is not modelled; the
  schema is not part of this model. Lookup is plain equality, so
  `VariantsGetOwnRow` describes SQLite's default binary collation. Under a
  case-insensitive collation, "Banana" would find banana's row.
- Storage faults come from an oracle argument per entry. The database that
  would produce them is not modelled.
- A message that is truthy but not a string, where `toLowerCase` would
  throw, is not modelled. The message is an optional string.
- Flags are integers. A JSON boolean flag is bound by the driver as 1 or 0
  before it reaches the table. A `null` flag is not distinguished from a
  number.
- An array element that is neither `null` nor an object is modelled as an
  entry without a name, which is what reading `.name` on it gives.
- `getUserConstraints` issues no queries without a user id. Queries are
  inputs here, so the model states only the result, `""`, for that case.
- `frontend/server.js` and `backend/server.js` are HTTP, session and
  rendering plumbing, and are not part of this model.
