/**
 * The store file's text, as TaskManager writes and reads it
 * (src/core/TaskManager.cpp), stated as functions: SaveText is what
 * saveTasksToStore writes, Load is what loadTasksFromStore does to the map
 * with the text it read. The methods of Store.TaskManager run the source's
 * loops and are proved to compute these functions.
 */
module StoreFormat {
  import opened Wrappers
  import opened TaskStatus
  import opened Text
  import opened Tasks

  // ---------------------------------------------------------------------
  // The order of std::map<int, Task>: ascending keys

  lemma EmptyIfNoMember(s: set<int>)
    requires forall x :: x !in s
    ensures s == {}
  {
    assert forall x :: x in s <==> x in {};
  }

  lemma NonEmptyHasMember(s: set<int>)
    requires s != {}
    ensures exists x :: x in s
  {
    if forall x :: x !in s {
      EmptyIfNoMember(s);
      assert false;
    }
  }

  predicate IsLeast(s: set<int>, k: int)
  {
    k in s && forall j :: j in s ==> k <= j
  }

  lemma {:induction false} LeastExists(s: set<int>)
    requires s != {}
    ensures exists k :: IsLeast(s, k)
    decreases |s|
  {
    NonEmptyHasMember(s);
    var x :| x in s;
    var rest := s - {x};
    forall j | j in s ensures j == x || j in rest { }
    if rest == {} {
      assert IsLeast(s, x);
    } else {
      LeastExists(rest);
      var m :| IsLeast(rest, m);
      if x < m {
        assert IsLeast(s, x);
      } else {
        assert IsLeast(s, m);
      }
    }
  }

  /** The keys of a std::map in iteration order: every key once, ascending. */
  function SortedKeys(s: set<int>): (ks: seq<int>)
    decreases |s|
    ensures |ks| == |s|
    ensures forall k :: k in s <==> k in ks
    ensures forall i, j :: 0 <= i < j < |ks| ==> ks[i] < ks[j]
  {
    if s == {} then []
    else
      LeastExists(s);
      var k :| IsLeast(s, k);
      var rest := SortedKeys(s - {k});
      SortedCons(s, k, rest);
      [k] + rest
  }

  /** The least key followed by the others in ascending order lists the whole set in ascending order. */
  lemma SortedCons(s: set<int>, k: int, rest: seq<int>)
    requires IsLeast(s, k)
    requires |rest| == |s - {k}| && forall x :: x in s - {k} <==> x in rest
    requires forall i, j :: 0 <= i < j < |rest| ==> rest[i] < rest[j]
    ensures |[k] + rest| == |s| && forall x :: x in s <==> x in [k] + rest
    ensures forall i, j :: 0 <= i < j < |[k] + rest| ==> ([k] + rest)[i] < ([k] + rest)[j]
  {
    forall i, j | 0 <= i < j < |[k] + rest| ensures ([k] + rest)[i] < ([k] + rest)[j] {
      if i == 0 {
        var x := rest[j - 1];
        assert x in rest;
        assert x in s && x != k;
      } else {
        assert ([k] + rest)[i] == rest[i - 1] && ([k] + rest)[j] == rest[j - 1];
      }
    }
    forall x ensures x in s <==> x in [k] + rest {
      assert x in [k] + rest <==> x == k || x in rest;
    }
  }

  /** The tasks stored under ks, in the order of ks. */
  function TasksAt(m: map<int, Task>, ks: seq<int>): (ts: seq<Task>)
    requires forall i :: 0 <= i < |ks| ==> ks[i] in m
    ensures |ts| == |ks|
    ensures forall i :: 0 <= i < |ks| ==> ts[i] == m[ks[i]]
  {
    if ks == [] then [] else [m[ks[0]]] + TasksAt(m, ks[1..])
  }

  /** The tasks of the map as a range-for visits them. */
  function OrderedTasks(m: map<int, Task>): (ts: seq<Task>)
    ensures |ts| == |m|
    ensures forall i :: 0 <= i < |ts| ==> ts[i] == m[SortedKeys(m.Keys)[i]]
  {
    TasksAt(m, SortedKeys(m.Keys))
  }

  /** Every task is stored under its own id: what addTask and the loader maintain. */
  ghost predicate KeysMatchIds(m: map<int, Task>)
  {
    forall k :: k in m ==> m[k].id == k
  }

  /** In a map that keys tasks by their ids, the i-th task visited has the i-th smallest key as its id. */
  lemma OrderedIds(m: map<int, Task>)
    requires KeysMatchIds(m)
    ensures forall i :: 0 <= i < |OrderedTasks(m)| ==>
      SortedKeys(m.Keys)[i] in m && OrderedTasks(m)[i].id == SortedKeys(m.Keys)[i]
  {
    var ks := SortedKeys(m.Keys);
    forall i | 0 <= i < |ks| ensures ks[i] in m {
      assert ks[i] in ks;
    }
  }

  /** In a map that keys tasks by their ids, the visit order lists each stored task once, by ascending id. */
  lemma OrderedTasksSpec(m: map<int, Task>)
    requires KeysMatchIds(m)
    ensures forall t: Task :: t in OrderedTasks(m) <==> t.id in m && m[t.id] == t
    ensures forall i, j :: 0 <= i < j < |OrderedTasks(m)| ==> OrderedTasks(m)[i].id < OrderedTasks(m)[j].id
  {
    var ks := SortedKeys(m.Keys);
    var ts := OrderedTasks(m);
    OrderedIds(m);
    forall t: Task | t in ts ensures t.id in m && m[t.id] == t {
      var i :| 0 <= i < |ts| && ts[i] == t;
    }
    forall t: Task | t.id in m && m[t.id] == t ensures t in ts {
      var i :| 0 <= i < |ks| && ks[i] == t.id;
      assert ts[i] == t;
    }
  }

  // ---------------------------------------------------------------------
  // saveTasksToStore

  /** The toJSON of each task, in order. */
  function ToJSONs(ts: seq<Task>): (r: seq<string>)
    ensures |r| == |ts| && forall i :: 0 <= i < |ts| ==> r[i] == ts[i].ToJSON()
  {
    seq(|ts|, i requires 0 <= i < |ts| => ts[i].ToJSON())
  }

  /** The text saveTasksToStore writes: the records in ascending key order inside "[" and "]". */
  function SaveText(m: map<int, Task>): string
  {
    "[" + Join(ToJSONs(OrderedTasks(m)), ", ") + "]"
  }

  /** An empty store is written as "[]"; otherwise the text is bracketed around the first and last records. */
  lemma SaveTextShape(m: map<int, Task>)
    ensures m == map[] ==> SaveText(m) == "[]"
    ensures |SaveText(m)| >= 2 && SaveText(m)[0] == '[' && SaveText(m)[|SaveText(m)| - 1] == ']'
  {
    if m == map[] {
      assert ToJSONs(OrderedTasks(m)) == [];
    }
  }

  /** The text the loader writes when the store file is missing, and then reads. */
  const SeedText: string :=
    "[{" + "\"id\":1" + "," + "\"description\":\"Created Store\"" + "," + "\"status\":\"todo\"" + ","
    + "\"createdAt\":0" + "," + "\"updatedAt\":0" + "}]"

  /** The one record of the seed text, as a Task. */
  const SeedTask: Task := Task(1, "Created Store", Todo, 0, 0)

  // ---------------------------------------------------------------------
  // loadTasksFromStore

  /**
   * The loader's outer loop: for each `{`, the text up to the first `}` after
   * it, the scan going on after that `}`. A `{` with no `}` after it ends the
   * scan, as does the absence of any further `{`.
   */
  function TaskTexts(json: string): seq<string>
    decreases |json|
  {
    match FindChar(json, '{', 0)
    case None => []
    case Some(pos) =>
      match FindChar(json, '}', pos)
      case None => []
      case Some(close) => [json[pos + 1..close]] + TaskTexts(json[close + 1..])
  }

  /** `while (std::getline(ss, token, ','))`: the pieces between commas; a last, empty piece is not read. */
  function Tokens(s: string): (r: seq<string>)
    decreases |s|
    ensures forall i :: 0 <= i < |r| ==> ',' !in r[i]
  {
    if s == [] then []
    else
      match FindChar(s, ',', 0)
      case None => [s]
      case Some(i) => [s[..i]] + Tokens(s[i + 1..])
  }

  /**
   * The key `token.substr(1, colonPos - 2)` and the space-trimmed value
   * `token.substr(colonPos + 1)` of one token. With no colon, or one at index
   * 0 or 1, colonPos - 2 wraps around and the key runs to the end of the
   * token; with no colon, colonPos + 1 wraps to 0 and the value is the whole
   * token. None is the out_of_range exception of substr(1) on an empty token.
   */
  function SplitToken(token: string): (r: Option<(string, string)>)
    ensures r.None? <==> token == []
  {
    if token == [] then None
    else
      var colon := FindChar(token, ':', 0);
      var key := if colon.Some? && colon.value >= 2 then token[1..colon.value - 1] else token[1..];
      var value := if colon.Some? then token[colon.value + 1..] else token;
      Some((key, Trim(value)))
  }

  /**
   * `value.substr(1, value.size() - 2)`: the text between the first and the
   * last character, without checking that they are quotes. A one-character
   * value gives "" (the length wraps around); None is the out_of_range
   * exception on an empty value.
   */
  function Unquote(value: string): (r: Option<string>)
    ensures r.None? <==> value == []
    ensures |value| >= 2 ==> r == Some(value[1..|value| - 1])
  {
    if value == [] then None
    else if |value| == 1 then Some("")
    else Some(value[1..|value| - 1])
  }

  /**
   * The loader's locals for one record. description and statusStr start as
   * empty strings; id, createdAt and updatedAt are uninitialised in the
   * source, here None.
   */
  datatype Fields = Fields(id: Option<int>, description: string, status: string,
                           createdAt: Option<int>, updatedAt: Option<int>)

  const Unset: Fields := Fields(None, "", "", None, None)

  /** The five keys the loader recognises; the comparison is exact. */
  const FieldKeys: set<string> := {"id", "description", "status", "createdAt", "updatedAt"}

  /** What the if-chain of the inner loop assigns: one of the five locals, or nothing for another key. */
  datatype Setting = IdTo(id: int) | DescriptionTo(description: string) | StatusTo(status: string)
                   | CreatedAtTo(createdAt: int) | UpdatedAtTo(updatedAt: int) | NoLocal

  /** The if-chain's test of the key and conversion of the value. None is an exception of std::stoi, std::stoll or substr. */
  function Convert(key: string, value: string): Option<Setting>
  {
    if key == "id" then
      match Stoi(value)
      case None => None
      case Some(v) => Some(IdTo(v))
    else if key == "description" then
      match Unquote(value)
      case None => None
      case Some(d) => Some(DescriptionTo(d))
    else if key == "status" then
      match Unquote(value)
      case None => None
      case Some(k) => Some(StatusTo(k))
    else if key == "createdAt" then
      match Stoll(value)
      case None => None
      case Some(v) => Some(CreatedAtTo(v))
    else if key == "updatedAt" then
      match Stoll(value)
      case None => None
      case Some(v) => Some(UpdatedAtTo(v))
    else Some(NoLocal)
  }

  /** The assignment itself. */
  function Assign(f: Fields, s: Setting): Fields
  {
    match s
    case IdTo(v) => f.(id := Some(v))
    case DescriptionTo(d) => f.(description := d)
    case StatusTo(k) => f.(status := k)
    case CreatedAtTo(v) => f.(createdAt := Some(v))
    case UpdatedAtTo(v) => f.(updatedAt := Some(v))
    case NoLocal => f
  }

  /** One branch of the if-chain, taken for the key, applied to the locals. */
  function ApplyField(f: Fields, key: string, value: string): Option<Fields>
  {
    match Convert(key, value)
    case None => None
    case Some(s) => Some(Assign(f, s))
  }

  /** One pass of the inner loop: split the token, then apply its key and value. */
  function ApplyToken(f: Fields, token: string): Option<Fields>
  {
    match SplitToken(token)
    case None => None
    case Some((key, value)) => ApplyField(f, key, value)
  }

  /** The inner loop over the tokens of one record, stopping at the first exception. */
  function ApplyTokens(f: Fields, tokens: seq<string>): Option<Fields>
    decreases |tokens|
  {
    if tokens == [] then Some(f)
    else
      match ApplyToken(f, tokens[0])
      case None => None
      case Some(g) => ApplyTokens(g, tokens[1..])
  }

  /**
   * One record: the tokens applied in order to fresh locals, then the Task
   * built from them with keyToStatus of the status text. None is an exception
   * or, where the source reads an uninitialised local, a missing id,
   * createdAt or updatedAt.
   */
  function ParseTask(text: string): Option<Task>
  {
    match ApplyTokens(Unset, Tokens(text))
    case None => None
    case Some(f) =>
      if f.id.Some? && f.createdAt.Some? && f.updatedAt.Some? then
        Some(Task(f.id.value, f.description, KeyToStatus(f.status), f.createdAt.value, f.updatedAt.value))
      else None
  }

  /** std::map::emplace: inserts key |-> t only when key is absent; an existing entry is kept. */
  function Emplace(m: map<int, Task>, key: int, t: Task): (r: map<int, Task>)
    ensures r.Keys == m.Keys + {key}
    ensures key in m ==> r[key] == m[key]
    ensures key !in m ==> r[key] == t
    ensures forall k :: k in m ==> r[k] == m[k]
  {
    if key in m then m else m[key := t]
  }

  /** What loading leaves: the map, and whether the loader finished without an exception. */
  datatype Loaded = Loaded(tasks: map<int, Task>, ok: bool)

  /** The records emplaced in order; at an exception the entries emplaced so far remain. */
  function LoadTexts(m: map<int, Task>, texts: seq<string>): Loaded
    decreases |texts|
  {
    if texts == [] then Loaded(m, true)
    else
      match ParseTask(texts[0])
      case None => Loaded(m, false)
      case Some(t) => LoadTexts(Emplace(m, t.id, t), texts[1..])
  }

  /** loadTasksFromStore after reading: the records of json emplaced into m, which is not cleared first. */
  function Load(m: map<int, Task>, json: string): Loaded
  {
    LoadTexts(m, TaskTexts(json))
  }

  /** The text the loader parses: the seed when the file is missing, its lines joined otherwise. */
  function ReadStore(file: Option<string>): string
  {
    JoinLines(match file case None => SeedText case Some(contents) => contents)
  }
}
