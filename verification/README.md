# task-tracker, modelled in Dafny

task-tracker.js is a single-user command-line to-do list. Each run gets a command and its tokens. Most
commands load the task array from `tasks.json`; those that change it write it back. This project
models the logic of that script. The file, the console and the clock are left outside.

- **`Text`** (`text.dfy`): the JavaScript string operations the script relies on, over `seq<char>`.
  These are `startsWith`, `split`, `join(' ')`, `toLowerCase` and a decimal `parseInt` that returns
  `None` for NaN.
- **`TaskModel`** (`tasks.dfy`): the stored task record and the rule `loadTasks` applies to what it
  reads. It also defines the invariants the commands keep: well-formed fields and unique ids.
- **`Args`** (`args.dfy`): `parseArgs`.
  - It is a `for` loop (`Args.ParseArgs`), proved equal to a specification function `Args.Parse`.
    `Parse` is described by lemmas: the last occurrence of each flag wins, and every other token
    becomes a description word, in order.
  - The module also holds the first-match `--sort=` lookup that `list` makes for itself.
- **`Commands`** (`commands.dfy`): the `add`, `done`, `edit`, `remove` and `clear` cases of the
  command `switch`.
  - Each is a function from the loaded collection and the command's tokens to a `Step`: the outcome
    the command reports and the collection it leaves behind.
  - `Saves` says which outcomes are followed by `saveTasks`.
  - The clock reading `Date.now()` is the parameter `now`.
- **`Listing`** (`listing.dfy`): the `list` command.
  - The in-place stable sort by priority is an array method (`Listing.SortByPriority`). It is proved
    to produce `Listing.PrioritySorted`, and lemmas show that result is ordered, a permutation and
    stable.
  - The due-date label is `Listing.Classify`.
  - `Listing.ListTasks` is the whole pipeline. The current date is the parameter `today`. The
    `new Date(dueDate + 'T00:00:00')` conversion is the parameter `parse`, where `None` stands for
    an Invalid Date.

### Facts about the code worth knowing

- The script has only the commands `add`, `list`, `done`, `remove`, `clear` and `edit`. There is no
  search or statistics command, and `list` takes no filter option. Any other command reaches the
  usage message.
- `parseArgs` keeps the last occurrence of each flag. `list` does not use `parseArgs` for its sort
  option: it takes the first `--sort=` token. With two `--sort=` tokens the two lookups disagree
  (`Args.SortLookupsDiffer`).
- Ids come from the clock and can collide, so `Commands.AddKeepsUniqueIds` needs an unused `now`.
  With duplicate ids, `done` and `edit` change only the first match, while `remove` deletes every
  match.

## Model

| member | source | states |
|---|---|---|
| TaskModel.Load | task-tracker.js:15-25 | A stored array is the collection. A document that is not an array, or a failed read, gives the empty collection. |
| Args.ParseArgs | task-tracker.js:35-58 | The token loop computes exactly `Parse(args)`: description words joined by spaces, the lowercased `--priority=` value, the `--due=` value and the `--sort=` value. |
| Args.LastValuePresent | task-tracker.js:40-49 | An option is set exactly when some token starts with its prefix. |
| Args.LastValueIsLast | task-tracker.js:40-49 | When an option is set, its value comes from a token carrying the flag with no later token carrying it, so the last occurrence wins. |
| Args.FlagsDisjoint | task-tracker.js:41-49 | No token starts with two of the three prefixes, so the order of the `else if` branches cannot matter. |
| Args.FlagValueAfterPrefix | task-tracker.js:43 | `split('=')[1]` of a flag token is the text after the prefix up to the next `=`. |
| Args.WordsMembers | task-tracker.js:50-53 | A token is a description word exactly when it occurs in the arguments and is not a flag. |
| Args.WordsCount | task-tracker.js:50-53 | Every non-flag token is kept as often as it occurs, and no flag is kept. |
| Args.WordsAppend | task-tracker.js:40-54 | Description words keep their relative order: the words of a concatenation are the concatenated words. |
| Args.WordsAll | task-tracker.js:50-53 | When no token is a flag, every token is a description word, in order. |
| Args.NoFlagNoValue | task-tracker.js:41-46 | When no token is a flag, the priority and due-date options stay unset. |
| Args.DescriptionSplitsIntoWords | task-tracker.js:57 | With at least one description word and no token holding a space, splitting the description at spaces gives back exactly the description words. |
| Text.SplitJoin | task-tracker.js:57 | `split(' ')` inverts `join(' ')` on a non-empty list of words without spaces. |
| Text.JoinEmpty | task-tracker.js:232 | A joined description is empty exactly when there are no words or one empty word. |
| Text.ToLower | task-tracker.js:43 | Lowercasing keeps the length, maps each character by itself, and leaves no ASCII capital. |
| Text.ParseInt | task-tracker.js:161 | `parseInt` gives a number exactly when the text starts with a digit, or with a sign followed by a digit. Otherwise it gives NaN. |
| Text.ParseIntShowInt | task-tracker.js:188 | `parseInt` reads back any integer id written in decimal, including when text not starting with a digit follows it. |
| Commands.Add | task-tracker.js:67-94 | An empty description reports an error and leaves the collection unchanged. Otherwise exactly one task is appended, with id `now`, the description and not done. Its priority is the (lowercased, last) `--priority=` value, or "medium" when that is absent or empty. Its due date is the (last) `--due=` value, or null when that is absent or empty. |
| Commands.AddDefaults | task-tracker.js:82-88 | Without any flag token and with a non-empty description, `add` appends the joined words with priority "medium", not done and no due date. |
| Commands.FindFirst | task-tracker.js:171 | `find` returns the first position whose id matches, and nothing exactly when no task has the id. |
| Commands.FindFirstByIds | task-tracker.js:171 | `find` depends only on the ids. |
| Commands.MarkDone | task-tracker.js:159-184 | A non-numeric id is rejected. An unknown id is reported. Otherwise the first task with the id, and nothing else, has `done` set, and its text is reported. |
| Commands.MarkDoneIdempotent | task-tracker.js:179-181 | Marking the same id done twice leaves the same collection as once, and the second run reports success again. |
| Commands.Edit | task-tracker.js:221-252 | The checks run in source order: a non-numeric id, then an empty new description, then an unknown id. Otherwise the first task with the id, and nothing else, gets the tokens after the id joined by spaces as its text. |
| Commands.EditLastWins | task-tracker.js:248 | Two successful edits of the same id leave what the second edit alone would leave. |
| Commands.UpdatesKeepIds | task-tracker.js:180 | `done` and `edit` keep the length, every id and the order. `done` never clears a done flag. `edit` changes no field other than the text. |
| Commands.Remove | task-tracker.js:186-212 | A non-numeric id is rejected. Otherwise the collection becomes the filter result. The outcome is "removed" (which is saved) when some task had the id, and "not found" (which is not saved) otherwise. |
| Commands.WithoutCount | task-tracker.js:201 | The filter drops every task with the id and keeps every other task as often as it occurred. |
| Commands.WithoutAppend | task-tracker.js:201 | The filter keeps relative order: filtering a concatenation concatenates the filtered parts. |
| Commands.WithoutShrinks | task-tracker.js:198-204 | The filter never lengthens the collection. The length is unchanged exactly when no task has the id, which is the test `remove` uses. |
| Commands.WithoutNoop | task-tracker.js:201 | Filtering out an absent id changes nothing. |
| Commands.RemoveDropsOne | task-tracker.js:201 | With unique ids, removing a present id drops exactly one task. |
| Commands.AddThenRemove | task-tracker.js:186-212 | Removing the id, written in decimal as `list` prints it, of a task just added with a fresh id restores the earlier collection and reports the removal. |
| Commands.Clear | task-tracker.js:214-219 | `clear` always reports "cleared", stores the empty collection and saves. |
| Commands.AddKeepsWellFormed | task-tracker.js:82-88 | `add` never stores an empty description, an empty priority or an empty due date. |
| Commands.UpdatesKeepWellFormed | task-tracker.js:232-248 | `done` and `edit` keep every stored field non-empty. |
| Commands.RemoveKeepsWellFormed | task-tracker.js:201 | `remove` keeps every stored field non-empty. |
| Commands.AddKeepsUniqueIds | task-tracker.js:83 | `add` keeps ids unique when the clock gives an id not yet in use. |
| Commands.UpdatesKeepUniqueIds | task-tracker.js:180 | `done` and `edit` keep ids unique. |
| Commands.RemoveKeepsUniqueIds | task-tracker.js:201 | `remove` keeps ids unique. |
| Args.FirstValueSpec | task-tracker.js:107-108 | The `--sort=` lookup of `list` is present exactly when some token carries the flag. Its value comes from the first such token. |
| Args.SortLookupsDiffer | task-tracker.js:107-108 | With two `--sort=` tokens, `list` uses the first while `parseArgs` keeps the second. |
| Listing.RankOfPriorityOrder | task-tracker.js:112 | The sort key is the `priorityOrder` entry where one exists, and 4 exactly where none does. |
| Listing.CompareAsWrittenInconsistent | task-tracker.js:113 | The comparator as written calls an unknown priority equal to both "high" and "low", while "high" sorts before "low". |
| Listing.CompareConsistent | task-tracker.js:113 | The comparator on `Rank` is consistent. It agrees with the comparator as written wherever both priorities are known. |
| Listing.PrioritySortedPermutation | task-tracker.js:113 | The priority sort is a permutation of the collection. |
| Listing.PrioritySortedOrdered | task-tracker.js:112-113 | After the sort, high comes before medium, medium before low, and low before any other priority. |
| Listing.PrioritySortedStable | task-tracker.js:113 | The sort is stable: the tasks of each priority keep their stored order. |
| Listing.PrioritySortedRanks | task-tracker.js:112-113 | The sorted collection is the high tasks, then the medium tasks, then the low tasks, then the rest. |
| Listing.CopyRank | task-tracker.js:113 | Writes the tasks of one rank, in stored order, into the array after the prefix already placed, and leaves that prefix and the rest of the array after the written part unchanged. |
| Listing.SortByPriority | task-tracker.js:110-114 | Sorting the array in place leaves exactly `PrioritySorted` of its old contents. |
| Listing.Arranged | task-tracker.js:106-114 | The order `list` shows is a permutation of the stored collection. It is sorted only when the first `--sort=` token says `priority`. |
| Listing.BeforeStrictTotal | task-tracker.js:137 | `<` on local midnights is a strict total order on dates. |
| Listing.Classify | task-tracker.js:124-143 | The label is "no due date" exactly when `dueDate` is null or empty. It is "overdue" exactly when the date is before today and "due today" exactly when it is today. It is "upcoming" exactly when the date is after today or unparseable. |
| Listing.ListTasks | task-tracker.js:96-157 | An empty collection shows "No tasks found." Otherwise there is one line per task in the `Arranged` order, each with the label `Classify` gives. |

## Left out

- Reading and writing `tasks.json`, `JSON.parse` and `JSON.stringify`, and creating the file at start-up (task-tracker.js:7-12, 28-31) are not modelled. `TaskModel.Load` takes the outcome of the read as a `StoredDocument`. Stored records that are not task objects are not represented.
- Console output and its colours are not modelled. Each command's message is reduced to its `Outcome`, and each `list` line to a `Line`.
- The clock is not modelled. `Date.now()` is the parameter `now`, and `new Date()` at midnight is the parameter `today`.
- Listing.ListTasks: takes one `today` for the whole list. The source reads the clock again for every task (task-tracker.js:131), so a listing that runs across midnight can label tasks against two different days. The model does not capture that.
- Date parsing is not modelled. `new Date(dueDate + 'T00:00:00')` is the parameter `parse`: any function from the stored text to a calendar date, or `None` for an Invalid Date.
- The `todayString` computed in `list` (task-tracker.js:116-120) is never used, so it is not modelled.
- The command dispatch and the usage text (task-tracker.js:61-66, 254-263) are not modelled.
- Text.ParseInt: does not model leading whitespace, the `0x` prefix, or the loss of precision above 2^53. Command-line ids are plain decimal numbers.
- Text.ToLower: lowercases ASCII letters only. JavaScript's `toLowerCase` also maps non-ASCII letters.
- Listing.SortByPriority: the in-place sort is written as a rank-by-rank write-back rather than as the engine's algorithm. A stable sort under a consistent comparator has exactly one result, so only the resulting order is modelled.
- Listing.Rank: where a priority is unknown, the comparator as written returns NaN and JavaScript leaves the order to the engine. The model places such tasks after low; see Findings.

## Findings

| source | as written | input that shows it | evidently intended | confidence | as-written member | corrected member |
|---|---|---|---|---|---|---|
| task-tracker.js:112-113 | `priorityOrder[a.priority] - priorityOrder[b.priority]` is NaN when either priority is not high, medium or low. `sort` treats NaN as "equal", so the comparator is inconsistent. | `add x --priority=urgent` (accepted at line 86), plus tasks with priorities "high" and "low", then `list --sort=priority`. "urgent" compares equal to both "high" and "low", but "high" sorts before "low". | A consistent order with every known priority ranked by the table and unknown priorities kept together, here after low. | not executed; high | Listing.CompareAsWrittenInconsistent | Listing.CompareConsistent |
