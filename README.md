# RankPoint core, modelled in Dafny

RankPoint is a Bukkit plugin. It keeps a point balance for every player and
turns that balance into a rank. This project models three parts of it and
proves properties about each.

- **The player point cache**, `PlayerDataManager` (module `Data`).
  - It holds `playerDataMap` (uuid → `PlayerData`) and `loadingTask`
    (uuid → the callers waiting for that player's load).
  - A uuid that is cached or already loading starts no new load, so at most
    one load per uuid is outstanding.
  - A caller who arrives during a load is queued. When the load's callback
    runs (`CompleteLoad`, a separate later event, as the scheduler hop
    makes it), one record is cached and every waiter runs on it in the
    order it queued.
  - A save sends exactly the cached records whose `isChanged` is set, mapped
    to their points.
  - `PlayerData`'s `setPoint`, `addPoint` and `removePoint` guard the
    balance, set `isChanged` and re-run `update()`. `update()` recomputes
    the rank fields and fires the rank hook.
- **The rank table**, built by `Rankpoint.setupConfig` (module `Rankpoint`).
  - The keys of the `groups` section are parsed as `int`s and sorted
    ascending. Each key's sub-section is then looked up again by its
    printed number.
  - A group that the permission backend does not list is dropped.
  - Each accepted group's `point` cost is added to a running `int` total.
    The totals after each group are the thresholds (`pointConditions`).
    They sit beside the lower-cased names (`groupNames`) and a map from each
    lower-cased name to the name as written.
- **The `/rankpoint` command**, `RPCommandExecutor` (module `Commands`).
  - `checkPlayerName` is the regular expression `[a-zA-Z0-9_]{3,16}`.
  - `isIntegerAndPositive` is `Integer.parseInt` followed by `> 0`.
  - `onCommand` decides what work a command line asks for.
  - Each sub-command's lambda applies a point rule. The one to note is
    `take`: it floors at zero by calling `setPoint(0)` instead of the
    rejecting `removePoint`.

Java's 32-bit `int` is modelled explicitly in module `JavaInt`: wrap-around
of `+` and `-`, `Math.addExact`, `Integer.parseInt` and `Integer.toString`.
Module `Wrappers` holds `Option`. The collaborators whose code is not part
of this model become parameters or ghost logs:

- **`GroupConfig`, `Message` and `Bukkit.getPlayer`** become the `RankEnv`
  functions passed to the mutators.
- **`GroupConfig.updatePlayerRank`** becomes the ghost log
  `PlayerData.rankUpdates`.
- **`DatabaseManager`** becomes the ghost log `dbCalls`, which records its
  `loadPoint`, `savePoint` and `closeDatabase` calls in order. The ghost set
  `inFlight` holds the loads not yet answered.
- **`consumer.accept`** becomes the ghost log `accepted`.
- **`perms.getGroups()`** becomes the parameter `allGroups`.

Behaviour worth noting:

- **`addPoint`.** An overflowing `addPoint` neither clamps nor wraps. The
  code catches `Math.addExact`'s `ArithmeticException`, keeps the old
  balance and still sets `isChanged` (`PlayerDataManager.java:159-163`). So the round trip "add v, then
  remove v" restores the balance only when the addition does not overflow
  (`AddThenRemove`). `AddThenRemoveAfterOverflow` shows that it does not
  restore it otherwise.
- **`removePoint`.** Its guard `this.point - point < 0` is wrapping `int`
  subtraction, and the model keeps it (`RemovePointChange`). For a
  non-negative balance and amount, it rejects exactly when the amount
  exceeds the balance.
- **Thresholds.** The running total `latest[0] += section.getInt("point")`
  (`Rankpoint.java:179`) is an `int` and wraps. So the thresholds can fall
  even when every cost is non-negative: costs 2147483647 and 1 give the
  thresholds 2147483647 and -2147483648 (`ThresholdsCanFall`). They ascend
  when the total of the costs fits an `int` (`ThresholdsAscend`).

## Model

| member | source | states |
|---|---|---|
| JavaInt.Wrap | src/main/java/net/utory/rankpoint/data/PlayerDataManager.java:167-171 | the `int` result of an exact value: an `int` congruent to it modulo 2^32, and the value itself when it fits |
| JavaInt.WrapUnique | src/main/java/net/utory/rankpoint/data/PlayerDataManager.java:167-171 | that `int` is the only one congruent to the exact value |
| JavaInt.WrapAdd | src/main/java/net/utory/rankpoint/Rankpoint.java:179 | accumulating in a wrapping `int` gives the wrap of the exact total |
| JavaInt.AddExact | src/main/java/net/utory/rankpoint/data/PlayerDataManager.java:160 | `Math.addExact`: the exact sum when it fits an `int`, otherwise the overflow exception (None) |
| JavaInt.NatToString | src/main/java/net/utory/rankpoint/Rankpoint.java:173 | decimal digits, at least one, with no leading zero above 9 |
| JavaInt.ToString | src/main/java/net/utory/rankpoint/Rankpoint.java:173 | `String.valueOf(int)` is an optional minus sign followed by digits |
| JavaInt.ParseInt | src/main/java/net/utory/rankpoint/Rankpoint.java:172 | `Integer.parseInt` succeeds only on an optional `+` or `-` followed by at least one digit |
| JavaInt.ParseIntExactly | src/main/java/net/utory/rankpoint/Rankpoint.java:172 | `Integer.parseInt` succeeds exactly on an optional `+` or `-` followed by at least one digit whose signed value fits an `int`, and then returns that value |
| JavaInt.LeadingZeroValue | src/main/java/net/utory/rankpoint/Rankpoint.java:172 | a leading `0` does not change the value of a digit string |
| JavaInt.ParseIntIgnoresPlusAndZero | src/main/java/net/utory/rankpoint/Rankpoint.java:172 | a `+` sign or a leading `0` before digits parses to the same result as the digits alone |
| JavaInt.DigitsValueOfNatToString | src/main/java/net/utory/rankpoint/Rankpoint.java:172-173 | reading the printed digits of n gives n back |
| JavaInt.ParseIntOfToString | src/main/java/net/utory/rankpoint/Rankpoint.java:172-173 | parsing the printed form of n gives n exactly when n fits an `int`, and fails otherwise |
| JavaInt.ToStringInjective | src/main/java/net/utory/rankpoint/Rankpoint.java:173 | distinct numbers print differently |
| Data.SetPointChange | src/main/java/net/utory/rankpoint/data/PlayerDataManager.java:144-152 | `setPoint` throws exactly for a negative value, and otherwise stores that value |
| Data.AddPointChange | src/main/java/net/utory/rankpoint/data/PlayerDataManager.java:154-164 | `addPoint` throws exactly for a negative amount. It stores the sum when the sum fits, keeps the old balance on overflow, and never makes a non-negative balance negative |
| Data.RemovePointChange | src/main/java/net/utory/rankpoint/data/PlayerDataManager.java:166-174 | `removePoint` succeeds exactly when the wrapped difference `point - v` is not negative, and then stores that wrapped difference, so it never stores a negative balance. For a non-negative balance and amount it succeeds exactly when the amount is at most the balance, and then subtracts |
| Data.AddThenRemove | src/main/java/net/utory/rankpoint/data/PlayerDataManager.java:154-174 | adding then removing v restores the balance when the addition does not overflow |
| Data.AddThenRemoveAfterOverflow | src/main/java/net/utory/rankpoint/data/PlayerDataManager.java:159-174 | from 2147483647, adding 1 leaves the balance unchanged and removing 1 then lowers it: the round trip fails on overflow |
| Data.Label | src/main/java/net/utory/rankpoint/data/PlayerDataManager.java:185-188 | the label is the maximum-rank text for -1, and otherwise a numeral that `Integer.parseInt` reads back as the number when it fits an `int` |
| Data.LabelIsMaxExactly | src/main/java/net/utory/rankpoint/data/PlayerDataManager.java:185-188 | `totalPoint`/`needPoint` are the maximum-rank text exactly when `GroupConfig` answered -1, provided that text is not a numeral |
| Data.LabelDeterminesValue | src/main/java/net/utory/rankpoint/data/PlayerDataManager.java:185-188 | two numeric labels are equal only for equal numbers |
| Data.RankHook | src/main/java/net/utory/rankpoint/data/PlayerDataManager.java:190-195 | the rank hook fires exactly when the new group is not -1, differs from the old one and the player is online, and it announces the new group |
| Data.PlayerData.constructor | src/main/java/net/utory/rankpoint/data/PlayerDataManager.java:127-138 | a new record holds its uuid and the loaded point, is not changed, has its rank fields derived, and is announced when it starts in a real group (its group starts at -1) |
| Data.PlayerData.Update | src/main/java/net/utory/rankpoint/data/PlayerDataManager.java:176-196 | `update()` keeps point and `isChanged`, re-derives group, display name, pretty point and the two labels, and logs the rank hook for the group change |
| Data.PlayerData.Commit | src/main/java/net/utory/rankpoint/data/PlayerDataManager.java:149-151 | the shared tail of the mutators: store, mark changed, `update()` |
| Data.PlayerData.SetPoint | src/main/java/net/utory/rankpoint/data/PlayerDataManager.java:144-152 | throws and changes no field exactly when `SetPointChange` rejects. Otherwise it stores that point, sets `isChanged`, re-derives and fires the hook |
| Data.PlayerData.AddPoint | src/main/java/net/utory/rankpoint/data/PlayerDataManager.java:154-164 | the same, following `AddPointChange` |
| Data.PlayerData.RemovePoint | src/main/java/net/utory/rankpoint/data/PlayerDataManager.java:166-174 | the same, following `RemovePointChange` |
| Data.Deliveries | src/main/java/net/utory/rankpoint/data/PlayerDataManager.java:42-44 | one call per waiter, in queue order, each with the same record |
| Data.FreshLoadsExactly | src/main/java/net/utory/rankpoint/data/PlayerDataManager.java:95-99 | a warm-up starts a load for exactly the listed uuids that were neither cached nor loading |
| Data.FreshLoadsDistinct | src/main/java/net/utory/rankpoint/data/PlayerDataManager.java:95-99 | a warm-up never starts two loads for one uuid, even when the list repeats it |
| Data.EmptyQueues | src/main/java/net/utory/rankpoint/data/PlayerDataManager.java:37 | an empty waiter list for each given uuid and no other |
| Data.WarmUpTasksExactly | src/main/java/net/utory/rankpoint/data/PlayerDataManager.java:95-99 | the waiter lists left by a warm-up are the old ones plus an empty list per fresh load |
| Data.FreshLoadCallsStep | src/main/java/net/utory/rankpoint/data/PlayerDataManager.java:95-99 | the `loadPoint` calls of a warm-up are one call for the first player unless it is known, then those for the rest |
| Data.PlayerDataManager.constructor | src/main/java/net/utory/rankpoint/data/PlayerDataManager.java:20-28 | a new manager is empty and has issued nothing |
| Data.PlayerDataManager.LoadPlayerData | src/main/java/net/utory/rankpoint/data/PlayerDataManager.java:30-38 | a cached or loading uuid changes nothing. Otherwise an empty waiter list is registered and one `loadPoint` call is logged, and a load is requested only for a uuid with none in flight |
| Data.PlayerDataManager.CompleteLoad | src/main/java/net/utory/rankpoint/data/PlayerDataManager.java:38-45 | one fresh record with the loaded point is cached for the uuid and announced when it starts in a real group, its pending entry and in-flight load are removed, and every waiter is run once, in queue order, on that record |
| Data.PlayerDataManager.Drain | src/main/java/net/utory/rankpoint/data/PlayerDataManager.java:42-44 | the loop runs the waiters, in order, on the record |
| Data.PlayerDataManager.UsePlayerData | src/main/java/net/utory/rankpoint/data/PlayerDataManager.java:48-65 | a cached uuid runs the consumer at once. A loading uuid gets the consumer appended to its list. Otherwise one load starts with the consumer as its only waiter. The cache itself never changes, and the `RuntimeException` branch is unreachable |
| Data.PlayerDataManager.GetPlayerDataOrNull | src/main/java/net/utory/rankpoint/data/PlayerDataManager.java:67-69 | the cached record, or null exactly when the uuid is not cached |
| Data.PlayerDataManager.CollectDirty | src/main/java/net/utory/rankpoint/data/PlayerDataManager.java:75-81 | the batch loop yields exactly the cached records with `isChanged`, each mapped to its point |
| Data.PlayerDataManager.SaveAllData | src/main/java/net/utory/rankpoint/data/PlayerDataManager.java:71-87 | one `savePoint` call with the dirty batch, or none when the cache or the batch is empty. No map and no record changes |
| Data.PlayerDataManager.UnloadAllData | src/main/java/net/utory/rankpoint/data/PlayerDataManager.java:101-119 | the dirty batch is taken before the cache is emptied and saved only if non-empty. The loading lists are untouched |
| Data.PlayerDataManager.Close | src/main/java/net/utory/rankpoint/data/PlayerDataManager.java:89-93 | the cache is emptied, and the database sees the `savePoint` of the dirty batch (if it is non-empty) and only after it `closeDatabase` |
| Data.PlayerDataManager.AllPlayerDataLoad | src/main/java/net/utory/rankpoint/data/PlayerDataManager.java:95-99 | the `loadPoint` calls made and the waiter lists registered are exactly the warm-up's fresh loads, in first-seen order |
| Data.PlayerDataManager.WarmUpStep | src/main/java/net/utory/rankpoint/data/PlayerDataManager.java:96-98 | one turn of the loop moves the first remaining player's load and waiter list from the warm-up still to come to the state already reached |
| Rankpoint.ParseKeys | src/main/java/net/utory/rankpoint/Rankpoint.java:172 | every key parsed in order, or failure exactly when some key does not parse |
| Rankpoint.Insert | src/main/java/net/utory/rankpoint/Rankpoint.java:172 | inserting into an ascending list keeps it ascending and adds exactly that element |
| Rankpoint.SortAscending | src/main/java/net/utory/rankpoint/Rankpoint.java:172 | `sorted()` yields an ascending permutation of the keys |
| Rankpoint.Lookup | src/main/java/net/utory/rankpoint/Rankpoint.java:173 | a found section is stored under exactly that key, and a missing key finds none |
| Rankpoint.SectionsAt | src/main/java/net/utory/rankpoint/Rankpoint.java:173 | at most one section is visited per sorted key |
| Rankpoint.VisitedSections | src/main/java/net/utory/rankpoint/Rankpoint.java:172-173 | the stream throws `NumberFormatException` exactly when some key does not parse, and otherwise visits at most one section per key |
| Rankpoint.LookupFinds | src/main/java/net/utory/rankpoint/Rankpoint.java:173 | with distinct keys, looking up a key that holds a section finds that section |
| Rankpoint.FoundKeysLookup | src/main/java/net/utory/rankpoint/Rankpoint.java:172-173 | the k-th visited section is the one stored under the k-th found key |
| Rankpoint.FoundUnderCons | src/main/java/net/utory/rankpoint/Rankpoint.java:172-173 | putting one more found key and its section in front keeps every key paired with the section found under it |
| Rankpoint.FoundKeysBounded | src/main/java/net/utory/rankpoint/Rankpoint.java:172-173 | a lower bound on the sorted keys bounds every found key |
| Rankpoint.FoundKeysAscending | src/main/java/net/utory/rankpoint/Rankpoint.java:172-173 | sections are visited in ascending numeric order of their keys |
| Rankpoint.VisitedInAscendingOrder | src/main/java/net/utory/rankpoint/Rankpoint.java:172-173 | the stream's visited sections come from a sorted permutation of the parsed keys. The k-th of them is the section found under the k-th found key, and the found keys ascend |
| Rankpoint.CanonicalKeyVisited | src/main/java/net/utory/rankpoint/Rankpoint.java:172-173 | a section stored under the printed form of its own number is visited |
| Rankpoint.NonCanonicalKey | src/main/java/net/utory/rankpoint/Rankpoint.java:172-173 | a key such as "01" or "+1" is not the printed form of any number, so it is never looked up under its own name |
| Rankpoint.Lower | src/main/java/net/utory/rankpoint/Rankpoint.java:175 | `toLowerCase` maps each character in place |
| Rankpoint.LowerIsLower | src/main/java/net/utory/rankpoint/Rankpoint.java:175 | a lower-cased name has no upper-case letter |
| Rankpoint.Accepted | src/main/java/net/utory/rankpoint/Rankpoint.java:176 | the accepted sections are at most the visited ones |
| Rankpoint.IsAccepted | src/main/java/net/utory/rankpoint/Rankpoint.java:175-176 | `allGroups.contains(groupName)` for the lower-cased `group` of a section that has one |
| Rankpoint.AcceptedAreAccepted | src/main/java/net/utory/rankpoint/Rankpoint.java:176 | every accepted section names a group whose lower-cased name the permission backend lists |
| Rankpoint.AcceptedStep | src/main/java/net/utory/rankpoint/Rankpoint.java:174-184 | visiting one more section appends it to the accepted list or leaves the list alone |
| Rankpoint.UnknownGroupIgnored | src/main/java/net/utory/rankpoint/Rankpoint.java:176-183 | a group the backend does not list adds no name, no display entry and no cost |
| Rankpoint.TableStep | src/main/java/net/utory/rankpoint/Rankpoint.java:177-180 | accepting a section appends its lower-cased name and its running total, and maps the name to the name as written |
| Rankpoint.AcceptSection | src/main/java/net/utory/rankpoint/Rankpoint.java:177-180 | the accepting branch extends the names, thresholds, display map and running total exactly as accepting one more section extends the table |
| Rankpoint.BuildGroupTable | src/main/java/net/utory/rankpoint/Rankpoint.java:174-184 | the `forEach` throws exactly when some visited section has no `group`. Otherwise it builds the names, thresholds and display map of the accepted sections |
| Rankpoint.SetupConfig | src/main/java/net/utory/rankpoint/Rankpoint.java:161-189 | false without a `groups` section. A key that does not parse throws `NumberFormatException`, and a visited section without `group` throws `NullPointerException`. Otherwise the result is true exactly when a group was accepted, and then the table is the one built from the accepted sections, and false exactly when none was |
| Rankpoint.LengthsAgree | src/main/java/net/utory/rankpoint/Rankpoint.java:177-180 | `groupNames` and `pointConditions` both have one entry per accepted group |
| Rankpoint.ThresholdIsPrefixSum | src/main/java/net/utory/rankpoint/Rankpoint.java:171-180 | `pointConditions[k]` is the `int` total of the first k+1 accepted costs |
| Rankpoint.SumMonotone | src/main/java/net/utory/rankpoint/Rankpoint.java:179 | with non-negative costs a longer prefix never totals less |
| Rankpoint.ThresholdsAscend | src/main/java/net/utory/rankpoint/Rankpoint.java:171-180 | with non-negative costs whose total fits an `int`, the thresholds are the exact running totals and never decrease |
| Rankpoint.ThresholdsCanFall | src/main/java/net/utory/rankpoint/Rankpoint.java:179-180 | costs 2147483647 and 1 give the thresholds 2147483647 and -2147483648: without the fit the running total wraps and a threshold falls |
| Rankpoint.DisplayNamesAuthored | src/main/java/net/utory/rankpoint/Rankpoint.java:175-178 | stored names are lower-case. The display map's keys are exactly the stored names, and each maps to a name as written that lower-cases to it |
| Rankpoint.DisplayNameIsLastWritten | src/main/java/net/utory/rankpoint/Rankpoint.java:178 | a name maps to the spelling of the last accepted section with that lower-cased name |
| Commands.MatchesFrom | src/main/java/net/teamuni/rankpoint/RPCommandExecutor.java:20 | `Matcher.matches()` for a pattern of the shape of `USERNAME_PATTERN`, a character class repeated between a minimum and a maximum number of times; what it accepts is stated by `MatchesFromExactly` |
| Commands.MatchesFromExactly | src/main/java/net/teamuni/rankpoint/RPCommandExecutor.java:20 | a repeated character class matches exactly the strings within its length bounds made of characters in the class |
| Commands.CheckPlayerName | src/main/java/net/teamuni/rankpoint/RPCommandExecutor.java:176-178 | a whole-name match of `USERNAME_PATTERN` (`[a-zA-Z0-9_]{3,16}`, line 20); what it accepts is stated by `CheckPlayerNameExactly` |
| Commands.CheckPlayerNameExactly | src/main/java/net/teamuni/rankpoint/RPCommandExecutor.java:176-178 | `checkPlayerName` is true exactly for 3 to 16 ASCII letters, digits and underscores |
| Commands.IsIntegerAndPositive | src/main/java/net/teamuni/rankpoint/RPCommandExecutor.java:180-189 | true exactly for a string that parses as an `int` greater than 0; an unparseable string gives false |
| Commands.PositiveNumeralsAccepted | src/main/java/net/teamuni/rankpoint/RPCommandExecutor.java:180-189 | the printed form of n passes exactly when 0 < n <= 2147483647, so zero, negatives and out-of-range numbers fail |
| Commands.AcceptedHasDigits | src/main/java/net/teamuni/rankpoint/RPCommandExecutor.java:180-189 | an accepted string is non-empty and every character after the first is a digit, the last included |
| Commands.OnCommand | src/main/java/net/teamuni/rankpoint/RPCommandExecutor.java:29-168 | always returns true. Each mutating action happens exactly when the sender has `rankpoint.admin`, the argument count is right, the name is valid and the amount is a positive `int`, and it carries that name and the parsed amount. No sender without the permission changes a balance |
| Commands.TakeChange | src/main/java/net/teamuni/rankpoint/RPCommandExecutor.java:91-95 | `take` never stores a negative balance |
| Commands.ActionChange | src/main/java/net/teamuni/rankpoint/RPCommandExecutor.java:54-136 | each lambda's point rule (`addPoint` for give and giveall, take's rule, `setPoint` for set and `setPoint(0)` for reset) never makes a non-negative balance negative |
| Commands.TakeClamps | src/main/java/net/teamuni/rankpoint/RPCommandExecutor.java:91-95 | from a non-negative balance, `take n` never throws and leaves max(p - n, 0) |
| Commands.CommandChangesSucceed | src/main/java/net/teamuni/rankpoint/RPCommandExecutor.java:50-136 | every change `onCommand` orders succeeds on a non-negative balance and keeps it non-negative. `set` overwrites with the amount, `reset` with 0, `take` floors at 0, and `give`/`giveall` add unless the sum overflows |
| Commands.ApplyToData | src/main/java/net/teamuni/rankpoint/RPCommandExecutor.java:54-136 | running a give, take, set or reset lambda on the target's record either throws and changes nothing, or changes the point as `ActionChange` says, sets `isChanged`, re-derives the rank fields and fires `updatePlayerRank` as `RankHook` says |
| Commands.GiveAllOnline | src/main/java/net/teamuni/rankpoint/RPCommandExecutor.java:71-79 | `giveall` runs `addPoint` with the same amount on every online player's record, once each. Each record gets the new point and `isChanged`, re-derives its rank fields and announces a promotion as `RankHook` says |

## Left out

- The Bukkit scheduler and threads are not modelled: `runTask`, `runTaskTimer` and `CompletableFuture.supplyAsync`. A load's callback is the separate call `CompleteLoad`. The periodic save is a caller of `SaveAllData`.
- `DatabaseManager` and its SQL backends (`Mysql`, `Sqlite`, `MigrateManager`) are not part of this model. Loads, saves and closing appear only as entries of the ghost log `dbCalls`. A load has no failure path, because the callback the code registers has none.
- `GroupConfig` and `Message` are not part of this model. Their lookups are the uninterpreted `RankEnv` functions, and `updatePlayerRank` is the ghost log `rankUpdates`.
- Message texts, `sendMessage` and `broadcastMessage` are not modelled. `onCommand`'s own replies are kept as message keys. The per-player messages sent inside the lambdas are left out.
- Consumers are opaque ids. What a consumer does when run is the caller's code; the model only records that it ran, with which record and in which order.
- `RPCommandExecutor.loadAndRun` (both overloads) is not modelled. It calls `isLoaded`, `getPlayerData`, `unloadPlayerData` and a public `loadPlayerData`, which `PlayerDataManager` does not have. It also resolves names through `Bukkit.getPlayerExact` and `getOfflinePlayer`. `ApplyToData` and `GiveAllOnline` take the target records directly.
- The `PlayerData` that `RPCommandExecutor` imports (`net.teamuni.rankpoint.data`) is not part of this model. Its mutators are taken to be those of `net.utory.rankpoint.data.PlayerDataManager.PlayerData`.
- `me` and `look` only read a balance for a message. They are decided by `OnCommand` but have no effect to model. `reload` does nothing in the code, and `onTabComplete` returns null.
- The plugin lifecycle is not modelled: `onEnable`, `onDisable`, `configReload`, `migrate`, `setupDatabase`, `setupPermission` and `setupPlaceholders`. The same goes for the first lines of `setupConfig` (`saveDefaultConfig`, `reloadConfig`, `message.yml`) and its log messages. They are I/O.
- `PlayerListener.onJoin` is only a call of `loadPlayerData`, which is modelled. The getters of `PlayerData` are plain field reads.
- Rankpoint.GroupSection: `section.getInt("point")` reads as 0 when `point` is missing or not an integer. The model takes the cost as given. Likewise `getString("group")` is taken as a string or absent.
- Rankpoint.Lookup: `getConfigurationSection` can fall back to the defaults of `config.yml`. The model looks only at the loaded section.
- Rankpoint.Lower: `String.toLowerCase()` is locale-dependent and maps non-ASCII letters too. The model lower-cases ASCII `A`-`Z` only.
- JavaInt.ParseInt: `Integer.parseInt` also accepts non-ASCII Unicode decimal digits. The model accepts ASCII digits only.
- Rankpoint.SectionsAt: its own contract only bounds the length. What it visits is stated by `FoundKeysLookup`, `FoundKeysAscending` and `CanonicalKeyVisited`.
- Rankpoint.Accepted: its own contract only bounds the length. Its members are characterised by `AcceptedAreAccepted`, `AcceptedStep` and `UnknownGroupIgnored`.
