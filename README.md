# Daily index rotation for estools, in Dafny

`estools rotate` keeps a family of time-partitioned Elasticsearch indices up to
date. Each family is named by a prefix such as `logs`. For each prefix it:

- makes sure the index of the day exists (`logs-2013.08.28`);
- points the family's stable alias (`logs-current`) at that index.

The rotator that the test suite exercises can also sweep the family's older
indices. There are three passes:

- it force-merges them down to one segment (optimize);
- it turns stored-field compression on (compress);
- it deletes them (delete).

Each pass has its own switch and maximum age. The passes act on the indices
that are strictly older than `now - maxAge`, in sorted name order.

The project models this in nine modules:

- `Calendar`: proleptic Gregorian dates and their ordinals. An `Instant` is a date plus the microseconds since its midnight, and stands for the UTC clock reading.
- `DateFormat`: the `strftime`/`strptime` subset that index names use. This is `%Y`, `%m`, `%d` and `%%`, zero-padded and fixed-width. Parsing a formatted date gives back that date for any format that names year, month and day once each and holds no other directive. Formatting a parsed string gives back that string under the default format `%Y.%m.%d`.
- `Names`: the settings defaults, with Python's `x or default` semantics. It also builds the alias name and the daily index name, and reads a date back out of an index name. Under the default format `%Y.%m.%d`, sorting index names sorts them by date.
- `Store`: the index store the rotator talks to.
  - `IndexStore` is a class holding the index names, the alias map, the compressed set, the force-merge targets and a log of every request received.
  - Each request's effect is also given as a pure transition on a `StoreState` value.
- `Rotate`: `estools/command/rotate.py` as written.
  - `Rotator` has its defaulted settings and a `Rotate(prefix, now)` method that sends `create_index_if_missing` and then `set_alias`.
  - The `rotate` command applies one rotator to each prefix in order. Each rotation reads the clock afresh, so each prefix has its own instant.
- `Order`: Python's string order (code point by code point, a proper prefix first), and `sorted()` of a set of names.
- `Retention`: the later `Rotator` that `tests/command/test_rotate.py` drives.
  - It is built on a given store client.
  - It takes `delete_old`, `compress_old` and `optimize_old` switches, each with a maximum age defaulting to 31, 1 and 1 days.
  - `ForOldIndices` is its sweep.
  - `Rotate` runs the day's rotation and then the optimize, compress and delete passes, each only when switched on.
  - The pure `Rotation` function describes what a rotation does to a store and which requests it sends. The properties of a rotation are proved against this function.
- `Scenarios`: the fixtures of `tests/command/test_rotate.py`, replayed against the model at midnight on 2013-08-28. Each lemma states the exact request list the test expects.
- `Wrappers`: `Option`.

`rotate.py` has no retention passes, so that behaviour comes from the test file.
`Retention` takes it from there and keeps it apart from `Rotate`, which models
`rotate.py` alone. What `Rotate` leaves out of `rotate.py` is listed under
"Left out".

## Model

| member | source | states |
|---|---|---|
| Names.OrDefault | estools/command/rotate.py:20-22 | A setting that is None or the empty string becomes the default. Any other value is kept unchanged. A non-empty default never yields an empty setting. |
| Names.AliasName | estools/command/rotate.py:28 | The alias is the prefix, then the separator, then the current-alias name, each at its own place in the result. |
| Names.IndexName | estools/command/rotate.py:26-29 | The daily index name starts with prefix and separator, and the rest is the date formatted under the date format. |
| Names.ParseIndexDate | tests/command/test_rotate.py:58-69 | A name carries a date exactly when it starts with `prefix + separator` and the rest parses under the date format. That date is a valid calendar date. |
| Names.AliasNameInjective | estools/command/rotate.py:28 | Equal alias names imply equal prefixes, so rotating one family never repoints another family's alias. |
| Names.IndexNameRoundTrip | estools/command/rotate.py:26-29 | For any format naming year, month and day once each and holding no other directive, reading the date back from a daily index name gives the date it was built from. |
| Names.DefaultFormatShape | estools/command/rotate.py:11 | The default format writes ten characters `DDDD.DD.DD`. The three digit groups have the values year, month and day. |
| Names.DefaultParseShape | estools/command/rotate.py:11 | Under the model's two-digit parser, only ten-character `DDDD.DD.DD` strings of digits and dots parse under the default format. |
| Names.DefaultFormatOfParse | estools/command/rotate.py:11 | Under the default format and the model's two-digit parser, formatting a parsed date gives back the parsed text, so each date has exactly one name whose month and day have two digits. |
| Names.DatedNameIsIndexName | estools/command/rotate.py:29 | Under the default format, every name whose month and day have two digits and that carries a date is the daily index name of that date. |
| Names.AliasIsNotDated | tests/command/test_rotate.py:60-69 | Under the default format, an alias whose current-alias name holds a character other than a digit or `.` never reads as a dated index of its family. |
| Names.DefaultNamesExample | tests/command/test_rotate.py:35-43 | With the defaults, family `logs` on 2013-08-28 gets the alias `logs-current` and the index `logs-2013.08.28`. |
| Names.DefaultParseExample | tests/command/test_rotate.py:60-67 | `logs-current` carries no date. `logs-2013.08.28` carries 2013-08-28. |
| Names.NamesInDateOrder | tests/command/test_rotate.py:122-131 | Under the default format, one daily index name sorts before another exactly when its date is earlier. |
| Names.DatedNamesInDateOrder | tests/command/test_rotate.py:122-131 | Under the default format, of two names of a family whose month and day have two digits and that carry dates, the first sorts before the second exactly when its date is earlier. |
| DateFormat.Strftime | estools/command/rotate.py:26 | Formats a date: `%Y` as four digits, `%m` and `%d` as two zero-padded digits, `%%` as `%`, and any other character as itself. |
| DateFormat.StrftimeCharacters | estools/command/rotate.py:26 | A formatted date holds digits and characters of the format, and nothing else. |
| DateFormat.Strptime | tests/command/test_rotate.py:58-69 | Reads a date from a string under the format, or nothing. A date it reads is always a valid calendar date. |
| DateFormat.StrayPercentIsIncomplete | estools/command/rotate.py:26 | A format ending in a stray `%`, such as `%Y.%m.%d%`, ends in an unsupported directive, so it is not a complete format and no round-trip lemma covers it. |
| DateFormat.RoundTrip | estools/command/rotate.py:26 | For a format naming year, month and day once each and holding no other directive, `strptime` returns the date that `strftime` formatted. |
| DateFormat.StrftimeInjective | estools/command/rotate.py:26 | For a format naming year, month and day once each and holding no other directive, distinct dates format to distinct strings. |
| Calendar.Ordinal | tests/command/test_rotate.py:71-82 | `date.toordinal()`: 0001-01-01 is day 1, and every valid date has an ordinal of at least 1. |
| Calendar.TimestampOrder | tests/command/test_rotate.py:71-82 | Instants compare by date first and then by time of day. This is the order in which an index's midnight is compared with `now - maxAge`. |
| Store.Created | estools/command/rotate.py:32 | `create_index_if_missing` adds the index and leaves an existing one as it is. It changes nothing else and keeps the store consistent. |
| Store.Aliased | estools/command/rotate.py:35 | `set_alias` makes the alias name that index, replacing any earlier target. Every other alias and every index is unchanged. |
| Store.Settled | tests/command/test_rotate.py:92-95 | The settings update turns compression on or off for that index only. |
| Store.Merged | tests/command/test_rotate.py:105-108 | `optimize` sets the segment target of exactly the named indices. |
| Store.Deleted | tests/command/test_rotate.py:79-82 | `delete_index` removes the index, the aliases pointing at it and its settings, and nothing else. |
| Store.IndexStore.constructor | tests/command/test_rotate.py:15-21 | A store holding exactly the given indices, with no alias, no settings and an empty log. |
| Store.IndexStore.GetIndices | tests/command/test_rotate.py:19 | Returns the names of the store's indices. |
| Store.IndexStore.CreateIndexIfMissing | estools/command/rotate.py:32 | The new state is `Created` of the old one, and the request is appended to the log. |
| Store.IndexStore.SetAlias | estools/command/rotate.py:35 | The new state is `Aliased` of the old one, and the request is appended to the log. |
| Store.IndexStore.UpdateSettings | tests/command/test_rotate.py:92-95 | The new state is `Settled` of the old one, and the request is appended to the log. |
| Store.IndexStore.Optimize | tests/command/test_rotate.py:105-108 | The new state is `Merged` of the old one, and the request is appended to the log. |
| Store.IndexStore.DeleteIndex | tests/command/test_rotate.py:79-82 | The new state is `Deleted` of the old one, and the request is appended to the log. |
| Rotate.Rotated | estools/command/rotate.py:32-35 | After one rotation, today's index exists and the alias points at it. Every other index and alias and all settings are unchanged, and consistency is kept. |
| Rotate.RotateIdempotent | estools/command/rotate.py:32-35 | Rotating again with the same date leaves the store as the first rotation left it. |
| Rotate.Rotator.constructor | estools/command/rotate.py:18-22 | Each setting is the given one, or the module default when it is unset or empty. |
| Rotate.Rotator.Rotate | estools/command/rotate.py:24-35 | The store becomes `Rotated` of its old state, and exactly one create request followed by one alias request is logged. |
| Rotate.RotateCommand | estools/command/rotate.py:61-64 | One rotator from the defaulted settings is applied to each prefix in order, and each rotation takes its own clock reading. The final store and the full request log are those of rotating the prefixes one after another, each at its own reading. |
| Rotate.RotatedAll | estools/command/rotate.py:63-64 | The store after rotating each prefix in turn, each at its own clock reading. |
| Rotate.RotatedAllCalls | estools/command/rotate.py:63-64 | The create and alias requests of each prefix's rotation, prefix after prefix. |
| Rotate.EveryAliasPointsAtItsIndex | estools/command/rotate.py:63-64 | After the command, every prefix's alias points at the index made by that prefix's last rotation, at that rotation's own clock reading, though other prefixes were rotated after it. |
| Rotate.EveryAliasPointsAtToday | estools/command/rotate.py:63-64 | When every clock reading falls on the same day, every prefix's alias points at that prefix's index of that day. |
| Rotate.RotatedAllFrame | estools/command/rotate.py:63-64 | The command adds exactly the prefixes' daily indices, each at the reading of its own rotation, and touches only the prefixes' own aliases. It changes no setting and keeps the store consistent. |
| Rotate.RotatedAllCallsInOrder | estools/command/rotate.py:63-64 | The command sends 2·n requests: for the i-th prefix, a create request at position 2i and an alias request at 2i+1, both naming that prefix's index at its own reading. |
| Rotate.DefaultRotationExample | tests/command/test_rotate.py:26-43 | Rotating `logs` at any reading on 2013-08-28 with defaults sends `create_index_if_missing('logs-2013.08.28')` then `set_alias('logs-current', 'logs-2013.08.28')`. |
| Order.Below | tests/command/test_rotate.py:122-131 | Python's `<` on `str`: the first differing code point decides, and a proper prefix sorts first. |
| Order.BelowIrreflexive | tests/command/test_rotate.py:122-131 | No name sorts before itself. |
| Order.BelowTransitive | tests/command/test_rotate.py:122-131 | The name order is transitive. |
| Order.BelowTotal | tests/command/test_rotate.py:122-131 | Of two distinct names, one sorts before the other. |
| Order.SortedNames | tests/command/test_rotate.py:122-131 | The sorted list of a set of names is strictly ascending and holds each name once. |
| Order.SortedUnique | tests/command/test_rotate.py:122-131 | Two strictly ascending lists of the same names are equal, so the sorted list of a set is unique. |
| Order.Sort | tests/command/test_rotate.py:122-131 | Insertion into a sorted list builds the sorted list of the set. |
| Retention.IsEligible | tests/command/test_rotate.py:71-82 | An index is old when the midnight that starts its date is strictly before `now` minus `maxAge` days. |
| Retention.EligibleInDays | tests/command/test_rotate.py:71-82 | An index is old when its date is more than `maxAge` days before today, or exactly `maxAge` days before once today's midnight has passed. |
| Retention.TodayIsNotOld | tests/command/test_rotate.py:71-82 | With a maximum age of at least one day, today's index is never old. |
| Retention.EligibleMonotone | tests/command/test_rotate.py:110-132 | An index older than an old one is old, and an old index stays old under a shorter maximum age. |
| Retention.OldIndices | tests/command/test_rotate.py:58-69 | The filtered names are exactly the names carrying a date of the family that is old, and there are no more of them than names. |
| Retention.OldIndicesSorted | tests/command/test_rotate.py:122-131 | Filtering a sorted list keeps it sorted. |
| Retention.PassTargets | tests/command/test_rotate.py:58-69 | A pass acts on exactly the store's old indices of the family, in strictly ascending name order. |
| Retention.PassTargetsOldestFirst | tests/command/test_rotate.py:122-131 | Under the default format, a pass over names whose month and day have two digits visits its indices oldest first. |
| Retention.ActionCallsAt | tests/command/test_rotate.py:118-131 | The i-th request of a pass is its action on the i-th target. |
| Retention.DeleteAllEffect | tests/command/test_rotate.py:71-82 | The delete pass removes exactly its targets, the aliases pointing at them and their settings. |
| Retention.CompressAllEffect | tests/command/test_rotate.py:84-95 | The compress pass turns compression on for exactly its targets and changes nothing else. |
| Retention.OptimizeAllEffect | tests/command/test_rotate.py:97-108 | The optimize pass merges exactly its targets to one segment and changes nothing else. |
| Retention.DeletePassKeepsYoung | tests/command/test_rotate.py:71-82 | After the delete pass, an index remains exactly when it was present and is not an old index of the family. |
| Retention.Sweep | tests/command/test_rotate.py:110-132 | A switched-on pass applies its action to each old index of the family in the state the earlier steps left, and appends those requests. A switched-off pass changes nothing. |
| Retention.Rotation | tests/command/test_rotate.py:110-132 | The day's rotation, then the optimize, compress and delete passes in that order, each working on the state the step before it left. |
| Retention.SweepAppends | tests/command/test_rotate.py:110-132 | A pass keeps the earlier requests. It appends only requests of its own kind, and none when it is switched off. |
| Retention.SweepKeepsPassOrder | tests/command/test_rotate.py:110-132 | A pass appended after requests of earlier kinds keeps the request log in pass order. |
| Retention.KeepingSweep | tests/command/test_rotate.py:110-132 | A pass that does not delete keeps the index list and appends its action on each target. |
| Retention.RotationInPassOrder | tests/command/test_rotate.py:110-132 | A rotation sends the create request, then the alias request, then all optimize requests, then all compress requests, then all delete requests. |
| Retention.SwitchedOffPassesAreSilent | tests/command/test_rotate.py:45-56 | A rotation sends no optimize, settings-update or delete request unless that pass is switched on. |
| Retention.CurrentIndexSurvives | tests/command/test_rotate.py:71-82 | When the format names year, month and day once each and holds no other directive, and the delete age is at least one day, today's index survives the rotation with the alias on it. |
| Retention.RotationPlan | tests/command/test_rotate.py:110-132 | The requests of a rotation are the create and alias requests, then each switched-on pass's action on the store's old indices once today's index exists. |
| Retention.OptimizeAgain | tests/command/test_rotate.py:97-108 | Optimizing indices already merged to one segment changes nothing. |
| Retention.CompressAgain | tests/command/test_rotate.py:84-95 | Compressing indices already compressed changes nothing. |
| Retention.RotationLeaves | tests/command/test_rotate.py:110-132 | When the format names year, month and day once each and holds no other directive, and the delete age is at least one day when deleting is on: after a rotation, today's index exists with the alias on it. Every remaining old index is merged or compressed when that pass is on. No index is left that the delete pass would remove. |
| Retention.RotationIdempotent | tests/command/test_rotate.py:110-132 | When the format names year, month and day once each and holds no other directive, and the delete age is at least one day when deleting is on, a second rotation at the same instant leaves the store as the first left it. |
| Retention.ConfigOf | estools/command/rotate.py:18-22 | A name left unset or empty takes its default, so no name is empty. The switches are kept. Unset maximum ages become 31 days for delete and 1 day for compress and optimize. |
| Retention.Rotator.constructor | tests/command/test_rotate.py:114 | The rotator keeps the given store client, and its settings are `ConfigOf` of the arguments. |
| Retention.Rotator.Apply | tests/command/test_rotate.py:118-131 | Sends one request for one index: a merge to one segment, the compression settings, or a delete. |
| Retention.Rotator.ForOldIndices | tests/command/test_rotate.py:58-69 | Walking the sorted index names acts on exactly `PassTargets` of the store, in order. The store and the log become those of that sweep. |
| Retention.Rotator.Rotate | tests/command/test_rotate.py:110-132 | The store and the appended requests are those of `Rotation`: today's index and alias, then optimize, compress and delete, each when switched on. |
| Scenarios.Built | tests/command/test_rotate.py:75-114 | A rotator built with only the switches gets the format `%Y.%m.%d`, the separator `-`, the alias name `current` and maximum ages of 31, 1 and 1 days. |
| Scenarios.StoreOf | tests/command/test_rotate.py:15-21 | The fixture store holds exactly the listed indices and is consistent. |
| Scenarios.FixtureEligibility | tests/command/test_rotate.py:58-132 | At midnight on 2013-08-28, a 31-day cutoff takes 07-27 and 07-01 but not 07-28 or 08-27. A one-day cutoff takes 08-26 but not 08-27. |
| Scenarios.OldIndicesScenario | tests/command/test_rotate.py:58-69 | Over `logs-current`, `logs-2013.08.27` and `logs-2013.07.01`, a 31-day pass acts on `logs-2013.07.01` alone. |
| Scenarios.RotateScenario | tests/command/test_rotate.py:26-43 | On an empty store, `rotate('logs')` sends exactly the create and alias requests for `logs-2013.08.28` and `logs-current`. |
| Scenarios.NoOptsScenario | tests/command/test_rotate.py:45-56 | With the passes off, old indices get no delete, settings or optimize request. |
| Scenarios.DeleteScenario | tests/command/test_rotate.py:71-82 | `delete_old` deletes `logs-2013.07.27` only. |
| Scenarios.CompressScenario | tests/command/test_rotate.py:84-95 | `compress_old` sends the compression settings to `logs-2013.08.26` only. |
| Scenarios.OptimizeScenario | tests/command/test_rotate.py:97-108 | `optimize_old` merges `['logs-2013.08.26']` to one segment. |
| Scenarios.AllOptsScenario | tests/command/test_rotate.py:110-132 | With every pass on, the requests are two optimizes (07-27, 07-28), two settings updates (07-27, 07-28) and one delete (07-27), in that order. |

## Left out

- The pyes client, its host list (`rotate.py:19`), transport, errors and retries are not modelled. The store is an abstract class that accepts every request, except that an alias change, a settings change and an optimize must name existing indices.
- The clock (`datetime.utcnow()`) is not read. Each rotation's instant is a parameter, and the command takes one per prefix. Within the rotator the test file drives, one instant serves a rotation and all of its passes; the tests freeze the clock, so they cannot tell the difference.
- Logging and argument parsing are not modelled: the `argh` decorators, `dispatch_command` and `main`.
- `estools/command/river.py`, `estools/command/template.py`, `estools/command/__init__.py` and `setup.py` are not part of this model.
- The later `Rotator` that the tests exercise is not part of this model's sources. Its behaviour is taken from the test file: the switches, `for_old_indices`, the pass order and the payloads.
  - The defaults of 31 days for delete and 1 day for compress and optimize are not shown in any source. They agree with every outcome the test file expects.
  - The maximum ages are whole days (`nat`), not `timedelta` values.
- Retention.Rotator.ForOldIndices: `fn` is one of the three actions the rotator uses (optimize, compress, delete), not an arbitrary callback. The test's mock callback is not modelled.
- Retention.Rotator.Rotate: failing requests are not modelled. The model's store accepts every request whose indices exist, so no pass is cut short by an error.
- DateFormat.Strptime: Python's `strptime` also accepts a one-digit month or day and a day padded with a space (` 8`). The model's parser needs exactly two digits, so it skips such names where Python would act on them. Every name the rotator builds has two digits and parses. Python raises `ValueError` on a format ending in a stray `%`; the model reads that `%` as an unsupported directive and returns None.
- Names.DefaultParseShape: holds for the model's two-digit parser only. Python also parses `2013.8.28` and `2013.08. 8` under `%Y.%m.%d`, which are not ten-character `DDDD.DD.DD` strings.
- Names.DefaultFormatOfParse: holds for names whose month and day have two digits only. In Python, `2013.8.28` parses to 2013-08-28, which formats back to `2013.08.28`, so a date can have more than one name that carries it.
- Names.AliasIsNotDated: the premise allows a current-alias name made only of digits, dots and spaces, such as `2013.08. 8`. Python's `%d` reads a space-padded day, so Python dates `logs-2013.08. 8` where the model does not. For a current-alias name holding a character other than a digit, a dot or a space, such as the default `current`, the lemma holds in Python too.
- Names.DatedNameIsIndexName: holds for names whose month and day have two digits only. In Python, `logs-2013.8.28` carries 2013-08-28 but is not that date's index name `logs-2013.08.28`.
- Names.DatedNamesInDateOrder: holds for names whose month and day have two digits only. In Python, `logs-2013.8.28` carries a date but sorts after the later `logs-2013.10.01`.
- Retention.PassTargetsOldestFirst: holds for names whose month and day have two digits only. In Python, a pass over `logs-2013.8.28` and `logs-2013.10.01` visits 10-01 first, because passes follow name order.
- Directives other than `%Y`, `%m`, `%d` and `%%` are not modelled. Formatting writes them verbatim and parsing refuses them. Names built with such formats are not claimed to match Python's output.
- DateFormat.Strftime: the source runs on Python 2 (the tests use the builtin `reduce` and a `print` statement), whose `strftime` raises `ValueError` for years before 1900. The model formats years 1 to 1899, zero-padded to four digits. Years outside 1..9999 are rejected as invalid dates. Python also raises `ValueError` on a format ending in a stray `%`, so the rotation creates nothing; the model reads that `%` as an unsupported directive, writes it as `%%`, and leaves such formats out of every round-trip lemma.
- Elasticsearch's refusal to create an index whose name collides with an alias is not modelled.
- Name comparison follows Python's code-point order on `str`. Locale collation is not modelled.
