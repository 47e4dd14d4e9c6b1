/**
 * The `add`, `done`, `edit`, `remove` and `clear` commands of task-tracker.js, each taken out of the
 * command `switch` as a function from the loaded collection and the command's tokens to the collection
 * afterwards and the outcome it reports. The clock reading `Date.now()` is the parameter `now`.
 */
module Commands {
  import opened Optional
  import opened Text
  import opened Args
  import opened TaskModel

  /** What a command reports; the ones for which `Saves` holds are followed by `saveTasks`. */
  datatype Outcome =
    | Added(task: Task)
    | MissingDescription
    | InvalidId
    | NotFound(id: int)
    | MarkedDone(text: string)
    | MissingNewDescription
    | Updated(id: int, text: string)
    | Removed(id: int)
    | Cleared

  predicate Saves(o: Outcome) {
    o.Added? || o.MarkedDone? || o.Updated? || o.Removed? || o.Cleared?
  }

  /** The collection after a command, and what the command reported. */
  datatype Step = Step(outcome: Outcome, tasks: seq<Task>)

  /** `parseInt(rawParams[0])`; a missing token is `undefined`, which parses to NaN. */
  function ParseId(rawParams: seq<string>): Option<int> {
    if rawParams == [] then None else ParseInt(rawParams[0])
  }

  /** The index `tasks.find(t => t.id === id)` stops at. */
  function FindFirst(tasks: seq<Task>, id: int): (r: Option<nat>)
    ensures r.Some? ==> IsFirst(tasks, id, r.value)
    ensures r.None? <==> !HasId(tasks, id)
  {
    if tasks == [] then None
    else if tasks[0].id == id then Some(0)
    else match FindFirst(tasks[1..], id)
      case None => None
      case Some(k) => Some(k + 1)
  }

  /** JavaScript's `value || fallback` on an optional string: `null` and `""` are both falsy. */
  function OrElse(value: Option<string>, fallback: Option<string>): Option<string> {
    if value.Some? && value.value != "" then value else fallback
  }

  /** The record `add` pushes. */
  function NewTask(id: int, text: string, options: Options): Task {
    Task(id, text, false, OrElse(options.priority, Some("medium")).value, OrElse(options.dueDate, None))
  }

  /** The `add` command. */
  function Add(tasks: seq<Task>, rawParams: seq<string>, now: int): (r: Step)
    ensures Parse(rawParams).taskText == "" <==> r == Step(MissingDescription, tasks)
    ensures r.outcome.Added? <==> Parse(rawParams).taskText != ""
    ensures r.outcome.Added? ==>
      var t := r.outcome.task;
      && r.tasks == tasks + [t]
      && t.id == now && t.text == Parse(rawParams).taskText && !t.done
      && t.priority == (if Parse(rawParams).options.priority in {None, Some("")} then "medium"
                        else Parse(rawParams).options.priority.value)
      && t.dueDate == (if Parse(rawParams).options.dueDate in {None, Some("")} then None
                       else Parse(rawParams).options.dueDate)
  {
    var parsed := Parse(rawParams);
    if parsed.taskText == "" then Step(MissingDescription, tasks)
    else
      var t := NewTask(now, parsed.taskText, parsed.options);
      Step(Added(t), tasks + [t])
  }

  /** The `done` command: the first task with the id is marked done, even if it already was. */
  function MarkDone(tasks: seq<Task>, rawParams: seq<string>): (r: Step)
    ensures ParseId(rawParams).None? ==> r == Step(InvalidId, tasks)
    ensures ParseId(rawParams).Some? && !HasId(tasks, ParseId(rawParams).value) ==>
      r == Step(NotFound(ParseId(rawParams).value), tasks)
    ensures ParseId(rawParams).Some? && HasId(tasks, ParseId(rawParams).value) ==>
      exists i :: IsFirst(tasks, ParseId(rawParams).value, i) &&
        r == Step(MarkedDone(tasks[i].text), tasks[i := tasks[i].(done := true)])
  {
    match ParseId(rawParams)
    case None => Step(InvalidId, tasks)
    case Some(id) =>
      match FindFirst(tasks, id)
      case None => Step(NotFound(id), tasks)
      case Some(i) => Step(MarkedDone(tasks[i].text), tasks[i := tasks[i].(done := true)])
  }

  /** The description `edit` writes: the tokens after the id, joined by spaces and not flag-parsed. */
  function EditText(rawParams: seq<string>): string {
    Join(if rawParams == [] then [] else rawParams[1..])
  }

  /** The `edit` command: the first task with the id gets the new description. */
  function Edit(tasks: seq<Task>, rawParams: seq<string>): (r: Step)
    ensures ParseId(rawParams).None? ==> r == Step(InvalidId, tasks)
    ensures ParseId(rawParams).Some? && EditText(rawParams) == "" ==> r == Step(MissingNewDescription, tasks)
    ensures ParseId(rawParams).Some? && EditText(rawParams) != "" && !HasId(tasks, ParseId(rawParams).value) ==>
      r == Step(NotFound(ParseId(rawParams).value), tasks)
    ensures ParseId(rawParams).Some? && EditText(rawParams) != "" && HasId(tasks, ParseId(rawParams).value) ==>
      exists i :: IsFirst(tasks, ParseId(rawParams).value, i) &&
        r == Step(Updated(ParseId(rawParams).value, EditText(rawParams)),
                  tasks[i := tasks[i].(text := EditText(rawParams))])
  {
    match ParseId(rawParams)
    case None => Step(InvalidId, tasks)
    case Some(id) =>
      var text := EditText(rawParams);
      if text == "" then Step(MissingNewDescription, tasks)
      else match FindFirst(tasks, id)
        case None => Step(NotFound(id), tasks)
        case Some(i) => Step(Updated(id, text), tasks[i := tasks[i].(text := text)])
  }

  /** `tasks.filter(t => t.id !== id)`. */
  function Without(tasks: seq<Task>, id: int): seq<Task> {
    if tasks == [] then []
    else Without(tasks[..|tasks| - 1], id) + (if tasks[|tasks| - 1].id == id then [] else [tasks[|tasks| - 1]])
  }

  /** The `remove` command: every task with the id goes; if none did, nothing is saved. */
  function Remove(tasks: seq<Task>, rawParams: seq<string>): (r: Step)
    ensures ParseId(rawParams).None? ==> r == Step(InvalidId, tasks)
    ensures ParseId(rawParams).Some? ==>
      var id := ParseId(rawParams).value;
      && r.outcome == (if HasId(tasks, id) then Removed(id) else NotFound(id))
      && r.tasks == Without(tasks, id)
  {
    match ParseId(rawParams)
    case None => Step(InvalidId, tasks)
    case Some(id) =>
      var kept := Without(tasks, id);
      WithoutShrinks(tasks, id);
      WithoutNoop(tasks, id);
      if |kept| == |tasks| then Step(NotFound(id), tasks) else Step(Removed(id), kept)
  }

  /** The `clear` command: the stored collection becomes empty, whatever it held. */
  function Clear(): (r: Step)
    ensures r.outcome == Cleared && r.tasks == []
    ensures Saves(r.outcome)
  {
    Step(Cleared, [])
  }

  /** The filter keeps exactly the tasks whose id differs, each as often as it occurred. */
  lemma {:induction false} WithoutCount(tasks: seq<Task>, id: int, t: Task)
    ensures multiset(Without(tasks, id))[t] == if t.id == id then 0 else multiset(tasks)[t]
  {
    if tasks != [] {
      var init := tasks[..|tasks| - 1];
      assert tasks == init + [tasks[|tasks| - 1]];
      WithoutCount(init, id, t);
    }
  }

  /** The filter keeps the relative order: filtering a concatenation concatenates the filtered parts. */
  lemma {:induction false} WithoutAppend(a: seq<Task>, b: seq<Task>, id: int)
    ensures Without(a + b, id) == Without(a, id) + Without(b, id)
    decreases |b|
  {
    if b == [] {
      assert a + b == a;
    } else {
      var b' := b[..|b| - 1];
      assert (a + b)[..|a + b| - 1] == a + b';
      WithoutAppend(a, b', id);
    }
  }

  /** The length changes exactly when some task had the id. */
  lemma {:induction false} WithoutShrinks(tasks: seq<Task>, id: int)
    ensures |Without(tasks, id)| <= |tasks|
    ensures |Without(tasks, id)| == |tasks| <==> !HasId(tasks, id)
  {
    if tasks != [] {
      var n := |tasks| - 1;
      var init := tasks[..n];
      WithoutShrinks(init, id);
      if HasId(init, id) {
        var i :| 0 <= i < |init| && init[i].id == id;
        assert tasks[i].id == id;
      }
      if HasId(tasks, id) && tasks[n].id != id {
        var i :| 0 <= i < |tasks| && tasks[i].id == id;
        assert init[i].id == id;
      }
    }
  }

  lemma {:induction false} WithoutNoop(tasks: seq<Task>, id: int)
    ensures !HasId(tasks, id) ==> Without(tasks, id) == tasks
  {
    if tasks != [] && !HasId(tasks, id) {
      var init := tasks[..|tasks| - 1];
      assert !HasId(init, id) by {
        forall j | 0 <= j < |init| ensures init[j].id != id {
          assert init[j] == tasks[j];
        }
      }
      WithoutNoop(init, id);
    }
  }

  /** With unique ids, `remove` of a present id drops exactly one task. */
  lemma {:induction false} RemoveDropsOne(tasks: seq<Task>, id: int)
    requires UniqueIds(tasks) && HasId(tasks, id)
    ensures |Without(tasks, id)| == |tasks| - 1
  {
    var n := |tasks| - 1;
    var init := tasks[..n];
    if tasks[n].id == id {
      assert !HasId(init, id) by {
        forall j | 0 <= j < n ensures init[j].id != id {
          assert init[j].id == tasks[j].id != tasks[n].id;
        }
      }
      WithoutShrinks(init, id);
    } else {
      var i :| 0 <= i < |tasks| && tasks[i].id == id;
      assert init[i].id == id;
      RemoveDropsOne(init, id);
    }
  }

  /** `find` only looks at ids, so two collections with the same ids find the same position. */
  lemma {:induction false} FindFirstByIds(a: seq<Task>, b: seq<Task>, id: int)
    requires |a| == |b| && forall j :: 0 <= j < |a| ==> a[j].id == b[j].id
    ensures FindFirst(a, id) == FindFirst(b, id)
  {
    if a != [] {
      FindFirstByIds(a[1..], b[1..], id);
    }
  }

  /** Running `done` twice leaves the same collection as running it once, and reports success again. */
  lemma MarkDoneIdempotent(tasks: seq<Task>, rawParams: seq<string>)
    ensures MarkDone(MarkDone(tasks, rawParams).tasks, rawParams).tasks == MarkDone(tasks, rawParams).tasks
    ensures MarkDone(tasks, rawParams).outcome.MarkedDone? ==>
      MarkDone(MarkDone(tasks, rawParams).tasks, rawParams).outcome.MarkedDone?
  {
    var once := MarkDone(tasks, rawParams).tasks;
    if ParseId(rawParams).Some? {
      FindFirstByIds(tasks, once, ParseId(rawParams).value);
    }
  }

  /** Running `edit` on an id twice is the same as running only the second edit. */
  lemma EditLastWins(tasks: seq<Task>, first: seq<string>, second: seq<string>)
    requires first != [] && second != [] && first[0] == second[0]
    requires Edit(tasks, first).outcome.Updated? && EditText(second) != ""
    ensures Edit(Edit(tasks, first).tasks, second).tasks == Edit(tasks, second).tasks
  {
    assert ParseId(first) == ParseId(second);
    FindFirstByIds(tasks, Edit(tasks, first).tasks, ParseId(first).value);
  }

  /** `done` and `edit` keep the length, every id and order, and never clear a `done` flag. */
  lemma UpdatesKeepIds(tasks: seq<Task>, rawParams: seq<string>)
    ensures var r := MarkDone(tasks, rawParams).tasks;
      |r| == |tasks| && forall j :: 0 <= j < |tasks| ==> r[j].id == tasks[j].id && (tasks[j].done ==> r[j].done)
    ensures var r := Edit(tasks, rawParams).tasks;
      |r| == |tasks| && forall j :: 0 <= j < |tasks| ==>
        r[j].id == tasks[j].id && r[j].done == tasks[j].done && r[j].priority == tasks[j].priority &&
        r[j].dueDate == tasks[j].dueDate
  {
  }

  /** Removing the id of a task just added, when that id was fresh, gives back the collection before. */
  lemma AddThenRemove(tasks: seq<Task>, rawParams: seq<string>, now: int)
    requires !HasId(tasks, now)
    requires Add(tasks, rawParams, now).outcome.Added?
    ensures Remove(Add(tasks, rawParams, now).tasks, [ShowInt(now)]) == Step(Removed(now), tasks)
  {
    var added := Add(tasks, rawParams, now);
    ParseIntShowInt(now, []);
    assert ShowInt(now) + [] == ShowInt(now);
    WithoutAppend(tasks, [added.outcome.task], now);
    WithoutNoop(tasks, now);
    assert Without([added.outcome.task], now) == [] by {
      assert [added.outcome.task][..0] == [];
    }
    assert added.tasks[|tasks|].id == now;
  }

  /** Without any flag, `add` stores the joined words with priority "medium", not done, no due date. */
  lemma AddDefaults(tasks: seq<Task>, words: seq<string>, now: int)
    requires forall i :: 0 <= i < |words| ==> !IsFlag(words[i])
    requires Join(words) != ""
    ensures Add(tasks, words, now) ==
      Step(Added(Task(now, Join(words), false, "medium", None)), tasks + [Task(now, Join(words), false, "medium", None)])
  {
    WordsAll(words);
    NoFlagNoValue(words, PriorityFlag);
    NoFlagNoValue(words, DueFlag);
  }

  /** `add` keeps a well-formed collection well-formed: the flag fallbacks never store an empty value. */
  lemma AddKeepsWellFormed(tasks: seq<Task>, rawParams: seq<string>, now: int)
    requires WellFormed(tasks)
    ensures WellFormed(Add(tasks, rawParams, now).tasks)
  {
  }

  /** `done` and `edit` keep a well-formed collection well-formed. */
  lemma UpdatesKeepWellFormed(tasks: seq<Task>, rawParams: seq<string>)
    requires WellFormed(tasks)
    ensures WellFormed(MarkDone(tasks, rawParams).tasks)
    ensures WellFormed(Edit(tasks, rawParams).tasks)
  {
  }

  /** `remove` keeps a well-formed collection well-formed. */
  lemma RemoveKeepsWellFormed(tasks: seq<Task>, rawParams: seq<string>)
    requires WellFormed(tasks)
    ensures WellFormed(Remove(tasks, rawParams).tasks)
  {
    if ParseId(rawParams).Some? {
      var id := ParseId(rawParams).value;
      var kept := Without(tasks, id);
      forall i | 0 <= i < |kept|
        ensures kept[i].text != "" && kept[i].priority != "" && kept[i].dueDate != Some("")
      {
        WithoutCount(tasks, id, kept[i]);
        assert kept[i] in multiset(tasks);
      }
    }
  }

  /** `add` keeps ids unique, provided the clock gives it an id not yet in use. */
  lemma AddKeepsUniqueIds(tasks: seq<Task>, rawParams: seq<string>, now: int)
    requires UniqueIds(tasks) && !HasId(tasks, now)
    ensures UniqueIds(Add(tasks, rawParams, now).tasks)
  {
  }

  /** `done` and `edit` keep ids unique. */
  lemma UpdatesKeepUniqueIds(tasks: seq<Task>, rawParams: seq<string>)
    requires UniqueIds(tasks)
    ensures UniqueIds(MarkDone(tasks, rawParams).tasks)
    ensures UniqueIds(Edit(tasks, rawParams).tasks)
  {
  }

  /** `remove` keeps ids unique. */
  lemma RemoveKeepsUniqueIds(tasks: seq<Task>, rawParams: seq<string>)
    requires UniqueIds(tasks)
    ensures UniqueIds(Remove(tasks, rawParams).tasks)
  {
    if ParseId(rawParams).Some? {
      WithoutUnique(tasks, ParseId(rawParams).value);
    }
  }

  lemma {:induction false} WithoutUnique(tasks: seq<Task>, id: int)
    requires UniqueIds(tasks)
    ensures UniqueIds(Without(tasks, id))
  {
    if tasks != [] {
      var n := |tasks| - 1;
      var init := tasks[..n];
      WithoutUnique(init, id);
      var kept := Without(init, id);
      forall j | 0 <= j < |kept| ensures kept[j].id != tasks[n].id {
        WithoutCount(init, id, kept[j]);
        assert kept[j] in multiset(init);
        var k :| 0 <= k < n && init[k] == kept[j];
        assert tasks[k] == init[k];
      }
    }
  }
}
