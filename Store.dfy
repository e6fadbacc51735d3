/**
 * TaskManager (src/core/TaskManager.cpp): a std::map<int, Task> and the name
 * of the store file. The map is a field the methods reassign; the file is not
 * opened: the text saveTasksToStore writes is its result, and the contents
 * loadTasksFromStore reads are its argument (None when the file is missing).
 */
module Store {
  import opened Wrappers
  import opened TaskStatus
  import opened Text
  import opened Tasks
  import opened StoreFormat
  import opened RoundTrip

  class TaskManager {
    const storeName: string
    var tasks: map<int, Task>

    /** Every task is stored under its own id. */
    ghost predicate Valid()
      reads this
    {
      KeysMatchIds(tasks)
    }

    /** An empty manager persisting to storeName, "tasks.json" unless given. */
    constructor (storeName: string := "tasks.json")
      ensures this.storeName == storeName && tasks == map[] && Valid()
    {
      this.storeName := storeName;
      tasks := map[];
    }

    /**
     * saveTasksToStore: when the file opens, "[" and the records in ascending
     * key order separated by ", ", then "]"; otherwise the runtime_error with
     * the store's name.
     */
    method SaveTasksToStore(opens: bool) returns (r: Result<string, string>)
      ensures opens ==> r == Success(SaveText(tasks))
      ensures !opens ==> r == Failure("Failed to open store file: " + storeName)
    {
      if !opens {
        return Failure("Failed to open store file: " + storeName);
      }
      var out := WriteRecords(ToJSONs(OrderedTasks(tasks)));
      return Success(out);
    }

    /**
     * loadTasksFromStore: the records of the text read (the seed, written to
     * a new file, when the file is missing) emplaced into the map, which is
     * not cleared. ok is false when a record throws; the records emplaced
     * before it stay. created is what is written to a new store file.
     */
    method LoadTasksFromStore(file: Option<string>) returns (ok: bool, created: Option<string>)
      modifies this
      ensures Loaded(tasks, ok) == Load(old(tasks), ReadStore(file))
      ensures created == if file.None? then Some(SeedText) else None
      ensures old(Valid()) ==> Valid()
    {
      created := if file.None? then Some(SeedText) else None;
      if Valid() {
        LoadKeepsKeysMatchIds(tasks, TaskTexts(ReadStore(file)));
      }
      var loaded := LoadRecords(tasks, ReadStore(file));
      tasks, ok := loaded.tasks, loaded.ok;
    }

    /** findTaskById: what is stored under id, if there is one. */
    function FindTaskById(id: int): (r: Option<Task>)
      reads this
      ensures r.Some? <==> id in tasks
      ensures r.Some? ==> r.value == tasks[id]
    {
      if id in tasks then Some(tasks[id]) else None
    }

    /** addTask: emplace, so a task whose id is already stored leaves the map as it was. */
    method AddTask(t: Task)
      modifies this
      ensures t.id in old(tasks) ==> tasks == old(tasks)
      ensures t.id !in old(tasks) ==> tasks == old(tasks)[t.id := t]
      ensures old(Valid()) ==> Valid()
    {
      if t.id !in tasks {
        tasks := tasks[t.id := t];
      }
    }

    /** removeTask: the entry under id is gone, all others stay; no effect when id is absent. */
    method RemoveTask(id: int)
      modifies this
      ensures tasks == old(tasks) - {id}
      ensures old(Valid()) ==> Valid()
    {
      tasks := tasks - {id};
    }

    /** getTasks: the stored map itself. */
    function GetTasks(): (r: map<int, Task>)
      reads this
      ensures r == tasks
    {
      tasks
    }
  }

  /**
   * The loader's outer loop over the text read: each record parsed and
   * emplaced into the map; an exception ends it with the map as emplaced so
   * far.
   */
  method LoadRecords(tasks0: map<int, Task>, json0: string) returns (r: Loaded)
    ensures r == Load(tasks0, json0)
  {
    var tasks := tasks0;
    var json := json0;
    while true
      invariant Load(tasks, json) == Load(tasks0, json0)
      decreases |json|
    {
      var found := NextRecord(json);
      if found.None? {
        break;
      }
      var (taskStr, rest) := found.value;
      var t := ParseRecord(taskStr);
      LoadTextsCons(tasks, taskStr, TaskTexts(rest));
      json := rest;
      if t.None? {
        return Loaded(tasks, false);
      }
      ghost var emplaced := Emplace(tasks, t.value.id, t.value);
      if t.value.id !in tasks {
        tasks := tasks[t.value.id := t.value];
      }
      assert tasks == emplaced;
    }
    return Loaded(tasks, true);
  }

  /**
   * One pass of the scan: json.find("{"), json.find("}", pos), then the text
   * between them and the text after the `}`, where json.erase(0, endPos + 1)
   * leaves the scan. None when there is no `{`, or no `}` after it.
   */
  method NextRecord(json: string) returns (found: Option<(string, string)>)
    ensures found.None? ==> TaskTexts(json) == []
    ensures found.Some? ==> |found.value.1| < |json|
    ensures found.Some? ==> TaskTexts(json) == [found.value.0] + TaskTexts(found.value.1)
  {
    var pos := FindChar(json, '{', 0);
    if pos.None? {
      TaskTextsUnopened(json);
      return None;
    }
    var endPos := FindChar(json, '}', pos.value);
    if endPos.None? {
      TaskTextsUnclosed(json, pos.value);
      return None;
    }
    ClosingAfterOpening(json, pos.value, endPos.value);
    var record, rest := json[pos.value + 1..endPos.value], json[endPos.value + 1..];
    TaskTextsUnfold(json, pos.value, endPos.value, record, rest);
    return Some((record, rest));
  }

  /** No `{`: no record. */
  lemma TaskTextsUnopened(json: string)
    requires FindChar(json, '{', 0).None?
    ensures TaskTexts(json) == []
  {
  }

  /** No `}` after the first `{`: no record. */
  lemma TaskTextsUnclosed(json: string, pos: nat)
    requires FindChar(json, '{', 0) == Some(pos) && FindChar(json, '}', pos).None?
    ensures TaskTexts(json) == []
  {
  }

  /** The `}` found from the `{` comes after it. */
  lemma ClosingAfterOpening(json: string, pos: nat, endPos: nat)
    requires FindChar(json, '{', 0) == Some(pos) && FindChar(json, '}', pos) == Some(endPos)
    ensures pos < endPos < |json|
  {
    assert json[pos] == '{';
  }

  /**
   * The scan finds the record between the first `{` and the first `}` after it, then goes on after the `}`.
   * RoundTrip.TaskTextsStep states the same step for text built as p + "{" + b + "}" + rest; the loop
   * has the two positions find returned instead, so the step is stated here in those terms.
   */
  lemma TaskTextsUnfold(json: string, pos: nat, endPos: nat, record: string, rest: string)
    requires FindChar(json, '{', 0) == Some(pos) && FindChar(json, '}', pos) == Some(endPos)
    requires pos < endPos < |json| && record == json[pos + 1..endPos] && rest == json[endPos + 1..]
    ensures TaskTexts(json) == [record] + TaskTexts(rest)
  {
  }

  /**
   * Loading a first record, then the others. Unlike RoundTrip.LoadTextsStep, which assumes the record
   * parses, this covers the exception too, as the loop body must.
   */
  lemma LoadTextsCons(tasks: map<int, Task>, text: string, rest: seq<string>)
    ensures LoadTexts(tasks, [text] + rest) ==
      match ParseTask(text)
      case None => Loaded(tasks, false)
      case Some(t) => LoadTexts(Emplace(tasks, t.id, t), rest)
  {
    assert ([text] + rest)[0] == text && ([text] + rest)[1..] == rest;
  }

  /**
   * The writes of saveTasksToStore to the opened file: "[", the records in
   * the order given with ", " before all but the first, then "]".
   */
  method WriteRecords(records: seq<string>) returns (out: string)
    ensures out == "[" + Join(records, ", ") + "]"
  {
    out := "[";
    var first := true;
    var i := 0;
    while i < |records|
      invariant 0 <= i <= |records|
      invariant first <==> i == 0
      invariant out == "[" + Join(records[..i], ", ")
    {
      JoinPrefix(records, i, ", ");
      if !first {
        Appended("[", Join(records[..i], ", "), ", ", records[i]);
        out := out + ", ";
      }
      out := out + records[i];
      first := false;
      i := i + 1;
    }
    assert records[..i] == records;
    out := out + "]";
  }

  /** Text appended after a prefix is appended to what follows the prefix. */
  lemma Appended(prefix: string, written: string, sep: string, record: string)
    ensures prefix + written + sep + record == prefix + (written + sep + record)
  {
  }

  /**
   * The body of the loader's outer loop for one record: the inner loop over
   * the comma-separated tokens, then the Task built from the locals. None is
   * an exception, or a missing id, createdAt or updatedAt, which the source
   * would read uninitialised.
   */
  method ParseRecord(taskStr: string) returns (r: Option<Task>)
    ensures r == ParseTask(taskStr)
  {
    var tokens := Tokens(taskStr);
    var locals := Unset;
    var i := 0;
    while i < |tokens|
      invariant 0 <= i <= |tokens|
      invariant ApplyTokens(Unset, tokens) == ApplyTokens(locals, tokens[i..])
    {
      ApplyTokensAt(locals, tokens, i);
      var split := SplitToken(tokens[i]);
      if split.None? {
        return None;
      }
      var (key, value) := split.value;
      ApplySplit(locals, tokens[i], key, value);
      var next := AssignField(locals, key, value);
      if next.None? {
        return None;
      }
      locals := next.value;
      i := i + 1;
    }
    if locals.id.None? || locals.createdAt.None? || locals.updatedAt.None? {
      return None;
    }
    return Some(Task(locals.id.value, locals.description, KeyToStatus(locals.status),
                     locals.createdAt.value, locals.updatedAt.value));
  }

  /**
   * One pass of the inner loop, from token i on. RoundTrip.ApplyTokensStep unfolds the sequence from its
   * head and assumes the token applies; the loop indexes the tokens and must also take the exception.
   */
  lemma ApplyTokensAt(locals: Fields, tokens: seq<string>, i: int)
    requires 0 <= i < |tokens|
    ensures ApplyTokens(locals, tokens[i..]) ==
      match ApplyToken(locals, tokens[i])
      case None => None
      case Some(next) => ApplyTokens(next, tokens[i + 1..])
  {
    assert tokens[i..][1..] == tokens[i + 1..];
  }

  /** The if-chain on one key: the local it names set from the converted value; another key changes nothing. */
  method AssignField(locals: Fields, key: string, value: string) returns (r: Option<Fields>)
    ensures r == ApplyField(locals, key, value)
  {
    r := Some(locals);
    if key == "id" {
      var v := Stoi(value);
      if v.None? {
        return None;
      }
      r := Some(locals.(id := v));
    } else if key == "description" {
      var d := Unquote(value);
      if d.None? {
        return None;
      }
      r := Some(locals.(description := d.value));
    } else if key == "status" {
      var k := Unquote(value);
      if k.None? {
        return None;
      }
      r := Some(locals.(status := k.value));
    } else if key == "createdAt" {
      var v := Stoll(value);
      if v.None? {
        return None;
      }
      r := Some(locals.(createdAt := v));
    } else if key == "updatedAt" {
      var v := Stoll(value);
      if v.None? {
        return None;
      }
      r := Some(locals.(updatedAt := v));
    }
  }
}
