# Account history indexer — a Dafny model

This project models the core of the account-history plugin of a Steem node
(`libraries/plugins/account_history/account_history_plugin.cpp`). For every
operation the chain applies, the plugin decides which of the impacted accounts
it tracks, creates one shared operation record, and appends that record to
each tracked account's bounded history list. The model covers:

- **AccountNames** (`names.dfy`): account names as character sequences with
  lexicographic order, and the order lemmas the range proofs need.
- **AccountRanges** (`ranges.dfy`): the tracked-range map as a key-sorted
  sequence of `(from, to)` pairs, its `lower_bound`, the conditional step back
  and the inclusive containment test, exactly as written in `on_operation`.
- **OperationFilter** (`opfilter.dfy`): the whitelist/blacklist decision on an
  operation's type name.
- **Chain** (`chain.dfy`): notifications, operation records and the
  `Database` class (`ops`, `nextId`, `hist`, `headTime`) with record creation.
- **Sequences** (`sequences.dfy`): order-preserving sub-sequences.
- **AccountHistory** (`history.dfy`): the history list operations and the
  insert-with-pruning rule (at most 30 entries, nothing older than 30 days
  among the kept ones), with its properties.
- **PluginConfig** (`config.dfy`): option-value splitting, the prefixed
  operation list, whitelist precedence and the pruning flag.
- **AccountHistoryPlugin** (`plugin.dfy`): the visitor, the filtering
  visitor, the dispatcher class `AccountHistoryPluginImpl` with its
  `on_operation` loop, and the dispatcher's properties: at most one record per
  notification, every processed account ends with that record, and every
  other account's history is untouched.

`on_operation` and plugin initialisation are imperative methods of the plugin
object; the visitor and the filtering visitor are methods that update the
`Database` object they are given, and record creation is a method of that
object. Each is proved against a pure
specification (`Dispatch`, `VisitResult`, `HistoryAfterInsert`,
`ConfiguredFilter`, `ConfiguredPrune`), and the lemmas prove what the source
promises about those specifications.

The history object's `store_operation`, `truncate_operation_list` and
`remove_outdated_operations` are declared in a header that is not part of this
model. Their contracts are assumptions: append at the end, keep the last `n`
entries (as the comment at lines 125-126 implies), and remove exactly the
entries the predicate selects, keeping the order of the rest.

Behaviours of the code worth noting:

- Whitelist and blacklist options given together are not a startup error. The
  `else if` at line 293 makes the whitelist win (`WhitelistTakesPrecedence`).
- An outdated entry does not persist until the count limit is reached. On a
  pruning insert into an existing history, outdated entries are removed from
  the kept window every time (`PruningKeepsRecentWindow`). Entries beyond the
  last 29 are dropped on every such insert, whatever their age.
- An inverted range (`from > to`): nothing in lines 244-251 rejects it. A
  lookup that lands on it never matches (`InvertedRangeNeverMatches`), and it
  also hides names the range before it holds: with `["a","m"]` and
  `["c","b"]`, the name `"d"` steps back to the inverted range and is not
  tracked, though `["a","m"]` holds it (`InvertedRangeShadowsEarlier`). The
  equivalence with "some range holds the name" therefore needs each range to
  end before the next one starts, not merely ranges that share no name.
- The comment at line 125 says histories are cleaned up to the last 30 days or
  30 items, "whichever is more". The code at lines 126-130 keeps the fewer: at
  most 30 entries, and none older than 30 days. The model follows the code.
  With 30 entries all within 30 days, a pruning insert drops the oldest
  (`FullRecentHistoryDropsOldest`).

## Model

| member | source | states |
|---|---|---|
| `AccountNames.Less` | libraries/plugins/account_history/account_history_plugin.cpp:175-202 | the account-name order the range map is sorted by and the containment test compares with; lemmas prove it a strict total order (`LessIrreflexive`, `LessTransitive`, `LessTotal`) |
| `AccountRanges.LowerBound` | libraries/plugins/account_history/account_history_plugin.cpp:175 | the lower bound is the first position whose range start is not below the name; every earlier start is below it |
| `AccountRanges.CheckedIndex` | libraries/plugins/account_history/account_history_plugin.cpp:196-200 | after the conditional step back, the position still names an entry of a non-empty map |
| `AccountRanges.LowerBoundAt` | libraries/plugins/account_history/account_history_plugin.cpp:175 | in a sorted map the lower bound is the unique position separating the starts below the name from the rest |
| `AccountRanges.IsTracked` | libraries/plugins/account_history/account_history_plugin.cpp:196-202 | the tracking test as written: an empty map tracks everyone; otherwise the entry the step back selects must hold the name, both ends included; `TrackedIffSomeRangeHolds` ties it to `SomeRangeHolds` |
| `AccountRanges.EmptyTracksEveryone` | libraries/plugins/account_history/account_history_plugin.cpp:202 | an empty range map tracks every name |
| `AccountRanges.TrackedIsContained` | libraries/plugins/account_history/account_history_plugin.cpp:202 | with ranges configured, a tracked name lies in some range, both ends included |
| `AccountRanges.ContainedIsTracked` | libraries/plugins/account_history/account_history_plugin.cpp:175-202 | for sorted ranges, each ending before the next one starts, a name inside any range is found by the lower-bound-and-step-back test |
| `AccountRanges.TrackedIffSomeRangeHolds` | libraries/plugins/account_history/account_history_plugin.cpp:175-202 | for sorted ranges, each ending before the next one starts, tracked exactly when no range is configured or some range holds the name |
| `AccountRanges.ExactStartNotDecremented` | libraries/plugins/account_history/account_history_plugin.cpp:189-200 | a lookup landing exactly on a range start checks that range, not the one before |
| `AccountRanges.PastTheLastStart` | libraries/plugins/account_history/account_history_plugin.cpp:192-202 | a name above every range start is checked against the last range |
| `AccountRanges.PastTheEndNotTracked` | libraries/plugins/account_history/account_history_plugin.cpp:192-202 | a name past the end of the last range is not tracked |
| `AccountRanges.BeforeTheFirstStartNotTracked` | libraries/plugins/account_history/account_history_plugin.cpp:194-202 | a name below the first range start is not tracked: no step back happens at the beginning |
| `AccountRanges.InvertedRangeHoldsNothing` | libraries/plugins/account_history/account_history_plugin.cpp:202 | no name satisfies `from <= name <= to` when `from > to` |
| `AccountRanges.InvertedRangeNeverMatches` | libraries/plugins/account_history/account_history_plugin.cpp:202 | a lookup that lands on an inverted range reports "not tracked" |
| `AccountRanges.InvertedRangeShadowsEarlier` | libraries/plugins/account_history/account_history_plugin.cpp:175-202 | an inverted range after `["a","m"]` hides `"d"`: the step back lands on it, so `"d"` is not tracked although a range holds it |
| `OperationFilter.Admits` | libraries/plugins/account_history/account_history_plugin.cpp:154-163 | in whitelist mode an operation passes iff its type is listed; in blacklist mode iff it is not |
| `OperationFilter.ShouldRecord` | libraries/plugins/account_history/account_history_plugin.cpp:208-211 | with filtering off every operation is recorded |
| `OperationFilter.WhitelistBlacklistComplementary` | libraries/plugins/account_history/account_history_plugin.cpp:154-163 | white- and blacklist over the same list decide every type oppositely |
| `OperationFilter.SingletonLists` | libraries/plugins/account_history/account_history_plugin.cpp:154-163 | whitelist `{a}` records only `a`; blacklist `{a}` records everything but `a` |
| `Chain.RecordOf` | libraries/plugins/account_history/account_history_plugin.cpp:80-83 | a new record copies the notification's transaction id, block and index and is stamped with the head block time |
| `Chain.Database.CreateOperation` | libraries/plugins/account_history/account_history_plugin.cpp:78-89 | creation adds exactly one record under a fresh id and changes nothing else |
| `AccountHistory.IsOutdated` | libraries/plugins/account_history/account_history_plugin.cpp:99-105 | the outdated filter: the record's age at the head block time exceeds 30 days, strictly; `FreshRecordNotOutdated` and `ThirtyDayOldEntryKept` pin its boundary |
| `AccountHistory.StoreOperation` | libraries/plugins/account_history/account_history_plugin.cpp:129-134 | storing appends the id after the unchanged list (assumed contract) |
| `AccountHistory.TruncateOperationList` | libraries/plugins/account_history/account_history_plugin.cpp:125-126 | truncation keeps the last `n` entries, or all when there are fewer (assumed contract) |
| `AccountHistory.RemoveOutdatedOperations` | libraries/plugins/account_history/account_history_plugin.cpp:127-128 | removal keeps exactly the entries the predicate does not select, in their order (assumed contract) |
| `AccountHistory.HistoryAfterInsert` | libraries/plugins/account_history/account_history_plugin.cpp:107-137 | the history after recording one id: a created list holds the record unless it is pruned at once; an existing list is truncated, cleaned and appended with pruning, only appended without; its properties are the lemmas below |
| `AccountHistory.PruningDisabledAppends` | libraries/plugins/account_history/account_history_plugin.cpp:113-134 | without pruning the record is appended and no entry removed, whether or not a history existed |
| `AccountHistory.PruningBoundsLength` | libraries/plugins/account_history/account_history_plugin.cpp:123-130 | with pruning a history never exceeds 30 entries after an insert |
| `AccountHistory.PruningLeavesNothingOutdated` | libraries/plugins/account_history/account_history_plugin.cpp:99-130 | with pruning no entry left after an insert is more than 30 days old |
| `AccountHistory.RecordStoredLast` | libraries/plugins/account_history/account_history_plugin.cpp:113-130 | a record that is not outdated is always stored, as the last entry |
| `AccountHistory.InsertKeepsOrder` | libraries/plugins/account_history/account_history_plugin.cpp:107-137 | the new list is an order-preserving sub-sequence of the old list followed by the record |
| `AccountHistory.InsertAddsOnlyTheRecord` | libraries/plugins/account_history/account_history_plugin.cpp:107-137 | the only id an insert can introduce is the record's |
| `AccountHistory.InsertKeepsRefs` | libraries/plugins/account_history/account_history_plugin.cpp:99-103 | every id of a history names an existing record, so the lookup asserted at line 102 succeeds |
| `AccountHistory.PruningKeepsRecentWindow` | libraries/plugins/account_history/account_history_plugin.cpp:125-128 | with pruning an old entry survives iff it is among the last 29 and not outdated |
| `AccountHistory.FreshRecordNotOutdated` | libraries/plugins/account_history/account_history_plugin.cpp:97-104 | a record stamped with the current head block time is never outdated |
| `AccountHistory.NewHistoryHoldsTheRecord` | libraries/plugins/account_history/account_history_plugin.cpp:107-116 | a newly created history holds exactly the fresh record |
| `AccountHistory.ThirtyDayOldEntryKept` | libraries/plugins/account_history/account_history_plugin.cpp:104 | the age test is strict: an entry exactly 30 days old in the kept window survives |
| `AccountHistory.RemoveNothing` | libraries/plugins/account_history/account_history_plugin.cpp:128 | removing with nothing outdated leaves the list unchanged |
| `AccountHistory.RemoveEverything` | libraries/plugins/account_history/account_history_plugin.cpp:128 | removing with everything outdated leaves the list empty |
| `AccountHistory.FullRecentHistoryDropsOldest` | libraries/plugins/account_history/account_history_plugin.cpp:123-130 | a fresh insert into a full history of 30 recent entries drops the oldest, appends the new one and keeps 30 |
| `AccountHistory.OutdatedHistoryLeavesOnlyNew` | libraries/plugins/account_history/account_history_plugin.cpp:123-130 | a fresh insert into a history whose entries are all outdated leaves only the new record |
| `PluginConfig.Separators` | libraries/plugins/account_history/account_history_plugin.cpp:264 | the separators of a value are spaces, tabs and commas |
| `PluginConfig.Split` | libraries/plugins/account_history/account_history_plugin.cpp:264 | `n` separators give `n + 1` tokens, none holding a separator |
| `PluginConfig.SplitJoinRoundTrip` | libraries/plugins/account_history/account_history_plugin.cpp:264 | the tokens joined with the original separators give back the value |
| `PluginConfig.PrefixedTokensMembers` | libraries/plugins/account_history/account_history_plugin.cpp:261-270 | a name is added iff it is the namespace prefix followed by a non-empty token of some value |
| `PluginConfig.PrefixedTokensWellFormed` | libraries/plugins/account_history/account_history_plugin.cpp:264-269 | every added name is the prefix followed by a non-empty, separator-free token |
| `PluginConfig.InsertTokens` | libraries/plugins/account_history/account_history_plugin.cpp:266-270 | the inner loop adds exactly the prefixed non-empty tokens of one split value |
| `PluginConfig.CollectOps` | libraries/plugins/account_history/account_history_plugin.cpp:261-270 | the nested loops add exactly the prefixed non-empty tokens of all values to the list |
| `PluginConfig.ConfiguredFilter` | libraries/plugins/account_history/account_history_plugin.cpp:254-331 | the filter fields after initialisation: whitelist mode over both whitelist options when either is given, else blacklist mode over both blacklist options when either is given, else no filtering; `WhitelistTakesPrecedence` and the token lemmas state its effect |
| `PluginConfig.ConfiguredPrune` | libraries/plugins/account_history/account_history_plugin.cpp:333-336 | `_prune` is the negation of history-disable-pruning and true when it is absent |
| `PluginConfig.WhitelistTakesPrecedence` | libraries/plugins/account_history/account_history_plugin.cpp:254-293 | when any whitelist option is present the whitelist alone decides, even with blacklist options given |
| `PluginConfig.WhitelistedTokenRecorded` | libraries/plugins/account_history/account_history_plugin.cpp:254-289 | a token of either whitelist spelling admits the type named by the prefix and that token |
| `PluginConfig.BlacklistedTokenIgnored` | libraries/plugins/account_history/account_history_plugin.cpp:293-328 | with no whitelist, a token of either blacklist spelling keeps the type named by the prefix and that token out |
| `AccountHistoryPlugin.HistoryOf` | libraries/plugins/account_history/account_history_plugin.cpp:95 | the lookup finds the account's list exactly when it has one |
| `AccountHistoryPlugin.VisitResult` | libraries/plugins/account_history/account_history_plugin.cpp:76-138 | the slot is filled with a fresh record only when empty, and only the visited account's history changes |
| `AccountHistoryPlugin.VisitOperation` | libraries/plugins/account_history/account_history_plugin.cpp:72-139 | the visitor creates or reuses the shared record and updates the account's list as the insert rule says |
| `AccountHistoryPlugin.VisitFiltered` | libraries/plugins/account_history/account_history_plugin.cpp:151-164 | the filtering visitor runs the visitor for admitted types and otherwise changes nothing |
| `AccountHistoryPlugin.Dispatch` | libraries/plugins/account_history/account_history_plugin.cpp:174-214 | the dispatcher's effect, name by name with the shared-record slot threaded through; the `Dispatch` lemmas below state its properties and `OnOperation` is proved equal to it |
| `AccountHistoryPlugin.DispatchCreatesAtMostOneRecord` | libraries/plugins/account_history/account_history_plugin.cpp:167-215 | one notification creates one record with the next fresh id exactly when some impacted name qualifies, and otherwise changes nothing |
| `AccountHistoryPlugin.DispatchFilteredOut` | libraries/plugins/account_history/account_history_plugin.cpp:208-211 | an operation the filter rejects creates no record and changes no history |
| `AccountHistoryPlugin.DispatchIgnoresUnknownNames` | libraries/plugins/account_history/account_history_plugin.cpp:202-206 | names that are untracked or have no account change nothing |
| `AccountHistoryPlugin.DispatchFrame` | libraries/plugins/account_history/account_history_plugin.cpp:174-214 | histories of accounts no qualifying name maps to are untouched |
| `AccountHistoryPlugin.DispatchSharedRecordLast` | libraries/plugins/account_history/account_history_plugin.cpp:171 | every processed account's history ends with the one record of the notification |
| `AccountHistoryPlugin.DispatchSameLastRecord` | libraries/plugins/account_history/account_history_plugin.cpp:76-90 | two processed accounts of one notification end with the same shared record |
| `AccountHistoryPlugin.DispatchProcessedHistory` | libraries/plugins/account_history/account_history_plugin.cpp:95-137 | for duplicate-free impacted names and an injective account lookup, each processed account's new history is the insert rule applied to its old history with the notification's one record |
| `AccountHistoryPlugin.DispatchPruningRetention` | libraries/plugins/account_history/account_history_plugin.cpp:123-130 | with pruning on, each processed account ends the notification with at most 30 entries, none of them outdated at the head block time |
| `AccountHistoryPlugin.AccountHistoryPluginImpl.constructor` | libraries/plugins/account_history/account_history_plugin.cpp:238-337 | initialisation sets the filter and pruning fields to what the options configure, and keeps the range map with its sorted keys |
| `AccountHistoryPlugin.AccountHistoryPluginImpl.OnOperation` | libraries/plugins/account_history/account_history_plugin.cpp:167-215 | the dispatcher's new database state is `Dispatch` of the old one: at most one fresh record, shared by every processed account, each processed history the insert rule applied to its old one (for distinct names and accounts), other histories untouched |

## Left out

- Serialization of the operation payload into the record (lines 84-88): a foreign codec. The record holds no payload.
- Loading the tracked ranges from JSON option values (lines 244-251): the macro is not part of this model. The constructor takes the range map already loaded.
- Plugin wiring: the database signal connection and disconnection, the option declarations, startup and shutdown (lines 42-43, 222-236, 242, 339-344). These are framework plumbing.
- The `tracked_accounts()` accessor (lines 346-349): a plain getter of the range field.
- Impacted-account extraction (line 172) and account lookup (line 204): external collaborators. They are parameters of `OnOperation`: the impacted names in iteration order, and a map from name to account.
- `OnOperation` accepts any sequence of names. The source iterates a sorted, duplicate-free set. No property here depends on that order. The per-account history property assumes no duplicates (`Distinct`) and that different names give different accounts (`Injective`), as the set and the name lookup guarantee.
- The storage engine's indexes and its undo of `create`/`modify` on rollback. The database is plain in-memory maps.
- Logging (`wlog`/`ilog`) and type-name reflection. The operation carries its type name as a string tag.
- Account-name comparison is modelled as lexicographic order on characters. The fixed-width string type of account names is not part of this model.
- Integer widths: record ids, block numbers and seconds are unbounded. The source's 32-bit second timestamps and their difference are represented exactly, because the age test only subtracts two timestamps.
- IsOutdated: a missing record counts as not outdated. The source asserts that the record exists (line 102); `Database.Valid` guarantees it here (`InsertKeepsRefs`).
