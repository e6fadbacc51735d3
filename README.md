# task-tracker store, modelled in Dafny

This project models the core of the `task-cli` command-line tracker:

- the status enumeration and its lookup tables (`statusToLabel`, `statusToKey`, `keyToStatus`);
- the five-field `Task` record with its setters and its `toJSON` writer;
- the `TaskManager`: a `std::map<int, Task>` with `addTask` (emplace), `removeTask`, `findTaskById` and `getTasks`. It has a hand-rolled text format: `saveTasksToStore` writes it, and `loadTasksFromStore` scans it for `{...}` records, splits them on `,`, splits key and value on the first `:`, trims spaces and strips quotes;
- the store effects of the `add`, `update`, `delete`, `mark-*` and `list` commands.

Files, in dependency order:

- `Wrappers.dfy`: `Option` and `Result`.
- `TaskStatus.dfy`: the enumeration, the two tables as entry lists, and the three lookups.
- `Text.dfy`: the standard library pieces the format relies on. These are `find`, the space trimming, `getline` line joining, `std::format` of integers, and `std::stoi`/`std::stoll`, parsed as `strtol` does and then range-checked against 32 and 64 bits.
- `Tasks.dfy`: the `Task` datatype. A setter is a function returning the record with one field replaced, because the map holds tasks by value. The datatype constructor is the C++ constructor: it stores the five values as given and checks none of them.
- `StoreFormat.dfy`: the format as functions.
  - `SaveText(m)` is the text `saveTasksToStore` writes.
  - `Load(m, json)` is what `loadTasksFromStore` does to the map with the text it read. It returns `Loaded(tasks, ok)`, where `ok` is false when a record throws.
  - `SortedKeys` and `OrderedTasks` give the iteration order of `std::map`.
- `RoundTrip.dfy`: the properties of the format.
  - Main theorem: a store whose keys are their tasks' ids, whose descriptions hold no `,`, `}` or newline, and whose numbers fit their C++ types, loads back exactly from its saved text.
  - The converse also holds: when the store does not meet that condition, the round trip fails.
  - It also proves the behaviours of the loader: duplicates are ignored, swapping two neighbouring fields with different keys does not change the task read, unknown keys are skipped, and an unclosed `{` stops the scan. With a repeated key the order does matter: the last assignment wins.
- `Store.dfy`: `class TaskManager` with the map as a field. Its methods run the source's loops: the `first`-flag save loop, the outer scan-and-erase loop and the inner token loop of the loader. Each loop is proved to compute the functions of `StoreFormat`.
- `Commands.dfy`: the command handlers as methods that modify the manager. They take `argc`, the id already converted from `argv[2]`, the description, and one parameter for each `std::time(nullptr)` call. Each handler that changes the store returns its exit code and the text it saves. `List` saves nothing: it returns its exit code and the tasks it prints.

Where the code and its doc comments disagree, the model follows the code:

- `addTask` uses `emplace` (src/core/TaskManager.cpp:104), so it never overwrites an existing id. The comment at line 101 and the header say it does.
- `loadTasksFromStore` does not clear the map before emplacing (src/core/TaskManager.cpp:82). The comment at line 38 says loading overwrites the existing tasks.
- `list` accepts `deleted` as a filter, because `keyToStatus` knows four keys (src/cli/Commands.cpp:137). Its comment lists only `done`, `todo` and `in_progress`, and its message spells `in-progress`, which is refused.
- Ids are reused: delete the greatest id and the next `add` assigns it again (src/cli/Commands.cpp:25).

## Model

| member | source | states |
|---|---|---|
| TaskStatus.Find | src/core/TaskStatus.cpp:43-44 | the lookup by status finds a string exactly when the table has an entry for the status, and the string is that entry's |
| TaskStatus.Search | src/core/TaskStatus.cpp:69-74 | the range-for of keyToStatus finds a status exactly when some entry has the key, and the status is that entry's |
| TaskStatus.StatusToLabel | src/core/TaskStatus.cpp:42-47 | DONE, TODO, IN_PROGRESS and DELETED map to "Done", "Todo", "In progress" and "Deleted"; UNKNOWN, absent from the table, to "Unknown" |
| TaskStatus.StatusToKey | src/core/TaskStatus.cpp:55-60 | DONE, TODO, IN_PROGRESS and DELETED map to "done", "todo", "in_progress" and "deleted"; UNKNOWN to "unknown" |
| TaskStatus.KeyToStatus | src/core/TaskStatus.cpp:66-75 | keyToStatus is the range-for over the key table; KeyToStatusUnknown states that it gives UNKNOWN exactly for strings outside the four keys, and StatusRoundTrip and KeyRoundTrip that it inverts statusToKey |
| TaskStatus.SearchInvertsFind | src/core/TaskStatus.cpp:68-75 | in a table whose statuses and strings are pairwise distinct, searching for the string found for a status gives that status back |
| TaskStatus.KeyRoundTrip | src/core/TaskStatus.cpp:55-75 | keyToStatus(statusToKey(s)) == s for all five statuses, UNKNOWN included, since "unknown" is not a key of the table |
| TaskStatus.StatusRoundTrip | src/core/TaskStatus.cpp:68-75 | statusToKey(keyToStatus(k)) == k for each of the four keys of the table |
| TaskStatus.KeyToStatusUnknown | src/core/TaskStatus.cpp:66-74 | keyToStatus gives UNKNOWN exactly for strings outside the four keys; the comparison is exact, so "DONE" and "in-progress" are refused |
| TaskStatus.StatusToKeyInjective | src/core/TaskStatus.cpp:25-30 | two statuses have the same key exactly when they are equal |
| TaskStatus.StatusToLabelInjective | src/core/TaskStatus.cpp:11-16 | two statuses have the same label exactly when they are equal |
| Tasks.Task.StatusLabel | src/core/Task.cpp:24 | getStatusLabel is statusToLabel of the status, and is "Unknown" exactly for UNKNOWN |
| Tasks.Task.StatusKey | src/core/Task.cpp:31 | getStatusKey is statusToKey of the status, and keyToStatus recovers the status from it |
| Tasks.Task.SetId | src/core/Task.cpp:11 | setId replaces the id and leaves the other four fields as they were |
| Tasks.Task.SetDescription | src/core/Task.cpp:15 | setDescription replaces the description and leaves the other four fields, updatedAt included, as they were |
| Tasks.Task.SetStatus | src/core/Task.cpp:33 | setStatus replaces the status and leaves the other four fields, updatedAt included, as they were |
| Tasks.Task.SetCreatedAt | src/core/Task.cpp:37 | setCreatedAt replaces createdAt only |
| Tasks.Task.SetUpdatedAt | src/core/Task.cpp:43 | setUpdatedAt replaces updatedAt only |
| Tasks.Task.ToJSON | src/core/Task.cpp:76-78 | the record opens with `{` and closes with `}`; ToJSONText states its whole text |
| Tasks.Task.Members | src/core/Task.cpp:76-78 | the five `"key":value` members toJSON writes, in its order; MembersAvoid and ToJSONText state what they hold |
| RoundTrip.ToJSONText | src/core/Task.cpp:76-78 | for every task, toJSON writes exactly `{"id":` id `,"description":"` description `","status":"` key `","createdAt":` createdAt `,"updatedAt":` updatedAt `}`, with the numbers as std::format writes them and the description not escaped |
| RoundTrip.ToJSONUnspaced | src/core/Task.cpp:76-78 | toJSON writes no space of its own: a record holds a space only if the description does |
| RoundTrip.MembersAvoid | src/core/Task.cpp:76-78 | none of the five members toJSON writes holds a `,`, `{`, `}`, newline or space, except through the description |
| RoundTrip.BodyAvoids | src/core/Task.cpp:76-78 | the text between the braces holds no `{`, `}`, newline or space unless the description does; the description is not escaped |
| Text.IntToString | src/core/Task.cpp:77-78 | std::format writes an integer as a minus sign exactly when it is negative, then decimal digits: every character after the first is a digit, and the first is a digit for a non-negative number; the digits carry no leading zero; no delimiter, quote, colon or space appears |
| Text.NatToString | src/core/Task.cpp:77-78 | the decimal digits std::format writes for a non-negative number: at least one, all digits, and no leading zero; NatToStringValue gives their value |
| Text.SkipSpace | src/core/TaskManager.cpp:76-80 | the whitespace strtol skips: every character dropped is whitespace, and the rest, a suffix of the text, does not start with whitespace |
| Text.DigitRun | src/core/TaskManager.cpp:76-80 | the digits strtol reads: the longest prefix made of digits, so the character after it, if any, is not a digit |
| Text.FindChar | src/core/TaskManager.cpp:57-58 | find(c, from) returns the first index at or after from that holds c, or npos (None) when there is none |
| Text.FindCharFirst | src/core/TaskManager.cpp:70 | find returns k when index k holds c and no earlier index from `from` on does |
| Text.TrimLeft | src/core/TaskManager.cpp:73 | the leading spaces are removed and nothing else: the result is a suffix, everything before it is a space, and it does not start with a space |
| Text.TrimRight | src/core/TaskManager.cpp:74 | the trailing spaces are removed and nothing else: the result is a prefix, everything after it is a space, and it does not end with a space |
| Text.Trim | src/core/TaskManager.cpp:73-74 | the two erase calls in their order: the leading spaces go (TrimLeft), then the trailing ones (TrimRight); TrimUnpadded states that unpadded text is kept |
| Text.TrimUnpadded | src/core/TaskManager.cpp:73-74 | the two erase calls leave text that neither starts nor ends with a space unchanged |
| Text.JoinLines | src/core/TaskManager.cpp:51-53 | joining the lines read removes every newline, leaves text without newlines as it is, and never lengthens it; JoinLinesSplit states that everything else is kept in order |
| Text.JoinLinesSplit | src/core/TaskManager.cpp:51-53 | a line break only separates two lines: the text before it and the text after it are kept, in order |
| Text.Join | src/core/TaskManager.cpp:24-29 | the parts with the separator between each two; JoinPrefix states that the first-flag loop builds it one part at a time |
| Text.JoinPrefix | src/core/TaskManager.cpp:24-29 | the join of the first i + 1 records is the join of the first i, then ", " when i > 0, then record i |
| Text.ParseInteger | src/core/TaskManager.cpp:76-80 | strtol followed by the range check: a result, when there is one, lies in [lo, hi] |
| Text.Stoi | src/core/TaskManager.cpp:76 | std::stoi gives only numbers in the 32-bit int range; None is its exception |
| Text.Stoll | src/core/TaskManager.cpp:79-80 | std::stoll gives only numbers in the 64-bit range; None is its exception |
| Text.ParseFormatted | src/core/TaskManager.cpp:76-80 | stoi/stoll read back any number std::format wrote, for every number in the target's range, negative ones included |
| Text.NatToStringValue | src/core/TaskManager.cpp:76-80 | the decimal digits written for n have the value n |
| StoreFormat.SortedKeys | src/core/TaskManager.cpp:25 | the keys of the map in iteration order: each key once, and strictly ascending |
| StoreFormat.OrderedTasks | src/core/TaskManager.cpp:25 | the range-for visits one task per entry, the i-th being the one under the i-th smallest key |
| StoreFormat.OrderedTasksSpec | src/core/TaskManager.cpp:25 | in a map keyed by ids, the visit lists exactly the stored tasks, by strictly ascending id |
| StoreFormat.ToJSONs | src/core/TaskManager.cpp:27 | the i-th record written is toJSON of the i-th task visited |
| StoreFormat.SaveText | src/core/TaskManager.cpp:23-30 | the text saveTasksToStore writes; SaveTextShape gives its brackets, SaveSingle a one-task store, and SaveLoadRoundTrip and RoundTripExactly state that it loads back exactly when the store is storable |
| StoreFormat.SaveTextShape | src/core/TaskManager.cpp:23-30 | an empty store is saved as "[]"; every saved text opens with `[` and closes with `]` |
| StoreFormat.TaskTexts | src/core/TaskManager.cpp:56-61 | the records the outer loop finds; TaskTextsStep, TaskTextsNone, UnclosedRecordStops and TaskTextsOfBraced state the scan |
| StoreFormat.Tokens | src/core/TaskManager.cpp:69 | getline on ',' yields tokens that hold no comma |
| StoreFormat.SplitToken | src/core/TaskManager.cpp:70-74 | splitting a token throws (None) exactly when the token is empty, since substr(1) is then out of range |
| StoreFormat.Unquote | src/core/TaskManager.cpp:77-78 | substr(1, size - 2) throws exactly on an empty value, and strips the first and last characters of a value of two or more |
| StoreFormat.Convert | src/core/TaskManager.cpp:76-80 | the if-chain's test of the key and conversion of the value; ConvertUnknown states that any other key converts nothing, and ApplyId to ApplyUpdatedAt what each of the five keys sets |
| StoreFormat.Assign | src/core/TaskManager.cpp:76-80 | the assignment to the one local the setting names; AssignCommutes states that assignments to different locals commute |
| StoreFormat.ApplyField | src/core/TaskManager.cpp:76-80 | one branch of the if-chain applied to the locals; AssignField is the loop body proved equal to it |
| StoreFormat.ApplyToken | src/core/TaskManager.cpp:69-81 | one pass of the inner loop: split, then apply; ApplySplit and UnknownKeyIgnored state its effect |
| StoreFormat.ApplyTokens | src/core/TaskManager.cpp:69-81 | the inner loop, stopping at the first exception; ApplyTokensFail, SwapTokens and ApplyTokensInRange state its behaviour |
| StoreFormat.ParseTask | src/core/TaskManager.cpp:63-82 | one record read into a Task; ParseBody states that a storable task's body reads back as that task, and ParseStorable what any record reads as |
| StoreFormat.Emplace | src/core/TaskManager.cpp:82 | emplace adds the key; an existing entry keeps its task, and a new key gets the given task |
| StoreFormat.LoadTexts | src/core/TaskManager.cpp:56-83 | the records emplaced in order, stopping at an exception; LoadTextsCons states one step of it |
| StoreFormat.Load | src/core/TaskManager.cpp:56-83 | what loadTasksFromStore does to the map with the text read; SaveLoadRoundTrip, RoundTripExactly, LoadKeepsExisting and LoadOkExactly state what it gives |
| StoreFormat.ReadStore | src/core/TaskManager.cpp:42-53 | the text the loader parses, the seed when the file is missing; SeedLoads states what a missing file loads into |
| RoundTrip.TaskTextsStep | src/core/TaskManager.cpp:57-61 | the scan takes the text between the first `{` and the next `}`, then goes on after that `}` |
| RoundTrip.TaskTextsNone | src/core/TaskManager.cpp:57 | text without `{` holds no record |
| RoundTrip.UnclosedRecordStops | src/core/TaskManager.cpp:58-59 | a `{` with no `}` after it ends the scan, and nothing from it on is read |
| RoundTrip.TaskTextsOfBraced | src/core/TaskManager.cpp:56-61 | scanning records joined by ", " and closed by "]" gives their bodies, in order |
| RoundTrip.TokensStep | src/core/TaskManager.cpp:69 | getline on ',' reads up to the first comma, then goes on after it |
| RoundTrip.TokensOfJoin | src/core/TaskManager.cpp:69 | comma-free parts joined by commas are split back into those parts when the last one is not empty |
| RoundTrip.SplitWritten | src/core/TaskManager.cpp:70-74 | a token written as `"key":value` splits into the key and the trimmed value |
| RoundTrip.SplitKeyed | src/core/TaskManager.cpp:70-74 | with a value that neither starts nor ends with a space, the split gives back the key and the value itself |
| RoundTrip.ApplySplit | src/core/TaskManager.cpp:70-81 | what a token does to the locals is decided by its key and its trimmed value |
| RoundTrip.NumberValue | src/core/TaskManager.cpp:76-80 | a number toJSON writes has no surrounding spaces, and stoi/stoll read it back when it is in their range |
| RoundTrip.ApplyId | src/core/TaskManager.cpp:76 | the id member toJSON writes sets the local id to the number |
| RoundTrip.ApplyDescription | src/core/TaskManager.cpp:77 | the description member toJSON writes sets the local description to the text between the quotes |
| RoundTrip.ApplyStatus | src/core/TaskManager.cpp:78 | the status member toJSON writes sets the local status text to its key |
| RoundTrip.ApplyCreatedAt | src/core/TaskManager.cpp:79 | the createdAt member toJSON writes sets the local createdAt to the number |
| RoundTrip.ApplyUpdatedAt | src/core/TaskManager.cpp:80 | the updatedAt member toJSON writes sets the local updatedAt to the number |
| RoundTrip.ApplyMembers | src/core/TaskManager.cpp:69-81 | the inner loop over the five members of a storable task sets every local from its member |
| RoundTrip.ParseBody | src/core/TaskManager.cpp:67-82 | the text between the braces of a storable task's record parses back to that task |
| RoundTrip.SavedRecords | src/core/TaskManager.cpp:51-61 | joining the lines of a saved store changes nothing, and the scan finds the body of every task, in ascending key order |
| RoundTrip.LoadSaved | src/core/TaskManager.cpp:82 | emplacing the bodies of tasks under keys that are still absent adds exactly those entries, with no exception |
| RoundTrip.LoadOrdered | src/core/TaskManager.cpp:82 | emplacing the bodies of a storable store, in visit order, into an empty map rebuilds the store |
| RoundTrip.SaveLoadRoundTrip | src/core/TaskManager.cpp:17-83 | loading, into an empty map, the text saved from a storable store gives back exactly that store, with no exception |
| RoundTrip.RoundTripExactly | src/core/TaskManager.cpp:17-83 | the saved text loads back to the store exactly when the store is storable, so a description with a `,`, `}` or newline never survives |
| RoundTrip.LoadKeepsExisting | src/core/TaskManager.cpp:82 | loading never removes or replaces an entry already in the map |
| RoundTrip.DuplicateIgnored | src/core/TaskManager.cpp:82 | a record whose id is already stored has no effect at all |
| RoundTrip.LoadKeepsKeysMatchIds | src/core/TaskManager.cpp:82 | loading keeps every task stored under its own id |
| RoundTrip.LoadOkExactly | src/core/TaskManager.cpp:56-83 | the loader finishes without an exception exactly when every record it finds parses |
| RoundTrip.ParseStorable | src/core/TaskManager.cpp:67-82 | a record with no `}` and no newline parses, if at all, to a task the format can carry |
| RoundTrip.LoadKeepsStorable | src/core/TaskManager.cpp:41-83 | whatever the file holds, loading into a storable store leaves it storable |
| RoundTrip.ApplyTokensInRange | src/core/TaskManager.cpp:76-80 | over a record, the numeric locals stay within the ranges of stoi and stoll |
| RoundTrip.UnknownKeyIgnored | src/core/TaskManager.cpp:76-80 | a token whose key is none of the five leaves the locals unchanged, whatever its value |
| RoundTrip.ConvertUnknown | src/core/TaskManager.cpp:76-80 | the if-chain falls through, converting nothing, for any other key |
| RoundTrip.ApplyTokensFail | src/core/TaskManager.cpp:69-81 | a token that throws ends the record with an exception |
| RoundTrip.ApplyCommutes | src/core/TaskManager.cpp:69-81 | two tokens with different keys give the same locals in either order, or throw in either order |
| RoundTrip.SwapTokens | src/core/TaskManager.cpp:69-81 | swapping two neighbouring tokens with different keys does not change what the record sets |
| RoundTrip.FieldOrderIrrelevant | src/core/TaskManager.cpp:67-82 | two records whose tokens differ by such a swap parse to the same task |
| RoundTrip.SaveSingle | src/core/TaskManager.cpp:23-30 | a store of one task is saved as that task's record in brackets |
| RoundTrip.SeedIsSaved | src/core/TaskManager.cpp:45 | the text written to a new store file is what saveTasksToStore writes for the single task {1, "Created Store", TODO, 0, 0} |
| RoundTrip.SeedStorable | src/core/TaskManager.cpp:45 | the seed task can be carried by the format |
| RoundTrip.SeedLoads | src/core/TaskManager.cpp:41-83 | with the store file missing, loading into an empty map gives exactly 1 ↦ {1, "Created Store", TODO, 0, 0} |
| Store.TaskManager.constructor | src/core/TaskManager.cpp:6-10 | a new manager has the given store name, "tasks.json" by default, and no task |
| Store.TaskManager.SaveTasksToStore | src/core/TaskManager.cpp:17-32 | when the file opens, the text written is SaveText of the map; otherwise the runtime_error naming the store file |
| Store.TaskManager.LoadTasksFromStore | src/core/TaskManager.cpp:41-83 | the map and the flag become Load of the old map and the text read; the seed is written when the file is missing; tasks stay keyed by id |
| Store.TaskManager.FindTaskById | src/core/TaskManager.cpp:91-96 | a task is found exactly when id is a key, and it is what is stored under it |
| Store.TaskManager.AddTask | src/core/TaskManager.cpp:103-105 | an absent id gains exactly the entry id ↦ t; a present id leaves the map unchanged; tasks stay keyed by id |
| Store.TaskManager.RemoveTask | src/core/TaskManager.cpp:112-114 | the entry under id is gone and every other entry stays; an absent id changes nothing |
| Store.TaskManager.GetTasks | src/core/TaskManager.cpp:120-122 | getTasks is the stored map itself |
| Store.WriteRecords | src/core/TaskManager.cpp:23-30 | the first-flag loop writes "[", the records with ", " before all but the first, then "]" |
| Store.LoadRecords | src/core/TaskManager.cpp:56-83 | the scan-and-erase loop, parsing and emplacing each record, computes Load of the map and the text |
| Store.NextRecord | src/core/TaskManager.cpp:57-61 | one pass of the outer loop: no record is left when either find fails; otherwise the text between the braces is the next record, and the shorter text after `}` holds the others |
| Store.TaskTextsUnfold | src/core/TaskManager.cpp:57-61 | the records of the text are the one between the first `{` and the next `}`, then those after it |
| Store.LoadTextsCons | src/core/TaskManager.cpp:82 | loading records is: parse the first, stop at an exception, else emplace it and load the rest |
| Store.ParseRecord | src/core/TaskManager.cpp:63-82 | the token loop and the Task built from the locals compute ParseTask of the record |
| Store.AssignField | src/core/TaskManager.cpp:76-80 | the if-chain on one key computes ApplyField: the local the key names, set from the converted value |
| Commands.NextId | src/cli/Commands.cpp:25 | the id add assigns is absent and greater than every key; it is 1 for an empty store and otherwise one past an existing key |
| Commands.LastKeyIsGreatest | src/cli/Commands.cpp:25 | the last key in map order, rbegin()->first, is the greatest key |
| Commands.NextIdOfRange | src/cli/Commands.cpp:25 | with keys 1, ..., n the next id is n + 1 |
| Commands.DeleteLastReusesId | src/cli/Commands.cpp:25 | with keys 1, ..., n, deleting task n makes the next id n again: ids are reused |
| Commands.Add | src/cli/Commands.cpp:19-32 | fewer than 3 arguments give 1 and no change; otherwise the store gains exactly NextId ↦ {NextId, description, TODO, t1, t2}, where t1 and t2 are the two clock readings, is saved, and the code is 0 |
| Commands.Update | src/cli/Commands.cpp:43-63 | fewer than 4 arguments or an unknown id give 1 and no change; otherwise only that task changes: its description is set and updatedAt := now; then the store is saved and the code is 0 |
| Commands.DeleteTask | src/cli/Commands.cpp:73-90 | fewer than 3 arguments or an unknown id give 1 and no change; otherwise exactly that entry is removed, the store is saved, and the code is 0 |
| Commands.ChangeStatus | src/cli/Commands.cpp:102-123 | fewer than 3 arguments or an unknown id give 1 and no change; otherwise only that task changes: status := newStatus and updatedAt := now; then the store is saved and the code is 0 |
| Commands.List | src/cli/Commands.cpp:134-149 | code 1, printing nothing, exactly when a filter is given that is not one of the four keys; otherwise 0 and the tasks in map order that pass the filter |
| Commands.FilterLoop | src/cli/Commands.cpp:144-147 | the filtering loop with continue prints exactly Shown of the tasks visited |
| Commands.Shown | src/cli/Commands.cpp:144-147 | the filter prints no more tasks than it visits |
| Commands.ShownMembers | src/cli/Commands.cpp:144-147 | a task is printed exactly when it is visited and passes the filter |
| Commands.ShownAscending | src/cli/Commands.cpp:144-147 | skipping tasks keeps their order |
| Commands.ListedExactly | src/cli/Commands.cpp:134-149 | from a store keyed by ids, list prints each stored task that passes the filter, once, by strictly ascending id, and nothing else |

## Left out

- File I/O is not modelled. Opening, writing and closing the store file are represented by the text saved (the result of `SaveTasksToStore`) and the text read (the argument of `LoadTasksFromStore`, None when the file is missing).
- Writing the seed file is not checked for failure. The text written is the `created` result.
- `getline` line joining is modelled as removing every newline (`JoinLines`). A file that does not end a line the C++ way is treated the same.
- `formatTime`, `toString`, `getCreatedAtFormatted` and `getUpdatedAtFormatted` are left out. They depend on `localtime`, `put_time` and the time zone, and only feed console output.
- `std::time(nullptr)` is not modelled: each call is a parameter of the command. `Add` takes two, because it calls the clock twice and the two readings can differ by a second.
- Console output (`std::cout`, `std::cerr`) is left out, except that `list` returns the tasks it prints, in order.
- `std::stoi` on `argv[2]` is not modelled: the commands take the id as an integer, so its exceptions are not modelled.
- Commands.Add: assumes the store file opens for writing; the `runtime_error` of `saveTasksToStore` is modelled only in `SaveTasksToStore` itself. The same holds for Update, DeleteTask and ChangeStatus.
- Commands.NextId: uses unbounded integers, so `rbegin()->first + 1` overflowing at INT_MAX is not modelled.
- The getters of `Task` are the datatype's field selectors. A setter returns the updated record instead of changing an object in place. The commands write the record back into the map, which models the `Task&` reference from `findTaskById`; aliasing beyond that single write is not modelled.
- A record missing `id`, `createdAt` or `updatedAt` is modelled as a failed load (`ok` false). The C++ code reads an uninitialised local there.
- The verb dispatcher in src/main.cpp is not part of this model. It is a string-to-handler switch with no state.
- The prototype at the root (main.cpp), with its own conflicting definitions, is not part of this model.
- The headers are not modelled separately. They declare the enumeration, the fields and the map, which appear here as `Status`, `Task` and the `tasks` field.
