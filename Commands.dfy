/**
 * The command handlers of the CLI (src/cli/Commands.cpp). Each takes the
 * manager, argc, and the arguments the handler reads from argv already
 * converted: the id that std::stoi(argv[2]) gives, the description text, and
 * for each std::time(nullptr) call a parameter holding its value. A handler
 * that changes the store returns its exit code and the text it saves to the
 * store file, if it gets that far; the store file is taken to open for
 * writing. list saves nothing and returns its exit code and the tasks it
 * prints, in order. Other console output is not modelled.
 */
module Commands {
  import opened Wrappers
  import opened TaskStatus
  import opened Tasks
  import opened StoreFormat
  import opened Store

  // ---------------------------------------------------------------------
  // The id add assigns

  /** `getTasks().empty() ? 1 : getTasks().rbegin()->first + 1`: one past the last key in map order. */
  function NextId(m: map<int, Task>): (r: int)
    ensures r !in m && forall k :: k in m ==> k < r
    ensures m == map[] ==> r == 1
    ensures m != map[] ==> r - 1 in m
  {
    if m == map[] then 1
    else
      var ks := SortedKeys(m.Keys);
      LastKeyIsGreatest(m.Keys);
      ks[|ks| - 1] + 1
  }

  /** The last key in map order is the greatest key. */
  lemma LastKeyIsGreatest(s: set<int>)
    requires s != {}
    ensures SortedKeys(s) != [] && SortedKeys(s)[|SortedKeys(s)| - 1] in s
    ensures forall k :: k in s ==> k <= SortedKeys(s)[|SortedKeys(s)| - 1]
  {
    var ks := SortedKeys(s);
    forall k | k in s ensures k <= ks[|ks| - 1] {
      var i :| 0 <= i < |ks| && ks[i] == k;
    }
  }

  /** Keys 1, ..., n give n + 1. */
  lemma NextIdOfRange(m: map<int, Task>, n: nat)
    requires forall k :: k in m <==> 1 <= k <= n
    ensures NextId(m) == n + 1
  {
    if n == 0 {
      assert m == map[] by {
        forall k | k in m ensures false { }
        EmptyMapIfNoKey(m);
      }
    } else {
      assert n in m;
      assert m != map[];
    }
  }

  lemma EmptyMapIfNoKey(m: map<int, Task>)
    requires forall k :: k !in m
    ensures m == map[]
  {
    EmptyIfNoMember(m.Keys);
  }

  /**
   * Ids are reused: with keys 1, ..., n, deleting task n and then adding a
   * task gives the new task the id n again.
   */
  lemma DeleteLastReusesId(m: map<int, Task>, n: nat)
    requires n >= 1 && forall k :: k in m <==> 1 <= k <= n
    ensures NextId(m) == n + 1 && NextId(m - {n}) == n
  {
    NextIdOfRange(m, n);
    RangeWithoutTop(m, n);
    NextIdOfRange(m - {n}, n - 1);
  }

  /** Removing n from the keys 1, ..., n leaves the keys 1, ..., n - 1. */
  lemma RangeWithoutTop(m: map<int, Task>, n: nat)
    requires n >= 1 && forall k :: k in m <==> 1 <= k <= n
    ensures forall k :: k in m - {n} <==> 1 <= k <= n - 1
  {
  }

  // ---------------------------------------------------------------------
  // Commands that change the store

  /**
   * add: with fewer than 3 arguments, 1 and no change; otherwise a task
   * {NextId, description, TODO, createdNow, updatedNow} is stored under its
   * id, the store is saved, and the code is 0. The two times are the two
   * separate std::time(nullptr) calls, which can fall on different seconds.
   */
  method Add(manager: TaskManager, argc: int, description: string, createdNow: int, updatedNow: int)
    returns (code: int, saved: Option<string>)
    modifies manager
    ensures argc < 3 ==> code == 1 && saved == None && manager.tasks == old(manager.tasks)
    ensures argc >= 3 ==> code == 0
    ensures argc >= 3 ==>
      var id := NextId(old(manager.tasks));
      manager.tasks == old(manager.tasks)[id := Task(id, description, Todo, createdNow, updatedNow)]
    ensures argc >= 3 ==> saved == Some(SaveText(manager.tasks))
    ensures old(manager.Valid()) ==> manager.Valid()
  {
    if argc < 3 {
      return 1, None;
    }
    var id := NextId(manager.GetTasks());
    var task := Task(id, description, Todo, createdNow, updatedNow);
    manager.AddTask(task);
    var written := manager.SaveTasksToStore(true);
    return 0, Some(written.value);
  }

  /**
   * update: with fewer than 4 arguments, or an id not stored, 1 and no
   * change; otherwise the stored task gets the description and updatedAt := now
   * (through the reference findTaskById returns), the store is saved, and
   * the code is 0.
   */
  method Update(manager: TaskManager, argc: int, id: int, description: string, now: int)
    returns (code: int, saved: Option<string>)
    modifies manager
    ensures argc < 4 || id !in old(manager.tasks) ==>
      code == 1 && saved == None && manager.tasks == old(manager.tasks)
    ensures argc >= 4 && id in old(manager.tasks) ==>
      code == 0 && saved == Some(SaveText(manager.tasks)) &&
      manager.tasks == old(manager.tasks)[id := old(manager.tasks)[id].(description := description, updatedAt := now)]
    ensures old(manager.Valid()) ==> manager.Valid()
  {
    if argc < 4 {
      return 1, None;
    }
    var taskOpt := manager.FindTaskById(id);
    if taskOpt.None? {
      return 1, None;
    }
    var task := taskOpt.value.SetDescription(description).SetUpdatedAt(now);
    manager.tasks := manager.tasks[id := task];
    var written := manager.SaveTasksToStore(true);
    return 0, Some(written.value);
  }

  /**
   * deleteTask: with fewer than 3 arguments, or an id not stored, 1 and no
   * change; otherwise the entry is removed, the store is saved, and the code
   * is 0.
   */
  method DeleteTask(manager: TaskManager, argc: int, id: int) returns (code: int, saved: Option<string>)
    modifies manager
    ensures argc < 3 || id !in old(manager.tasks) ==>
      code == 1 && saved == None && manager.tasks == old(manager.tasks)
    ensures argc >= 3 && id in old(manager.tasks) ==>
      code == 0 && manager.tasks == old(manager.tasks) - {id} && saved == Some(SaveText(manager.tasks))
    ensures old(manager.Valid()) ==> manager.Valid()
  {
    if argc < 3 {
      return 1, None;
    }
    var taskOpt := manager.FindTaskById(id);
    if taskOpt.None? {
      return 1, None;
    }
    manager.RemoveTask(id);
    var written := manager.SaveTasksToStore(true);
    return 0, Some(written.value);
  }

  /**
   * changeStatus: with fewer than 3 arguments, or an id not stored, 1 and no
   * change; otherwise the stored task gets status := newStatus and updatedAt := now,
   * the store is saved, and the code is 0.
   */
  method ChangeStatus(manager: TaskManager, argc: int, id: int, newStatus: Status, now: int)
    returns (code: int, saved: Option<string>)
    modifies manager
    ensures argc < 3 || id !in old(manager.tasks) ==>
      code == 1 && saved == None && manager.tasks == old(manager.tasks)
    ensures argc >= 3 && id in old(manager.tasks) ==>
      code == 0 && saved == Some(SaveText(manager.tasks)) &&
      manager.tasks == old(manager.tasks)[id := old(manager.tasks)[id].(status := newStatus, updatedAt := now)]
    ensures old(manager.Valid()) ==> manager.Valid()
  {
    if argc < 3 {
      return 1, None;
    }
    var taskOpt := manager.FindTaskById(id);
    if taskOpt.None? {
      return 1, None;
    }
    var task := taskOpt.value.SetStatus(newStatus).SetUpdatedAt(now);
    manager.tasks := manager.tasks[id := task];
    var written := manager.SaveTasksToStore(true);
    return 0, Some(written.value);
  }

  // ---------------------------------------------------------------------
  // list

  /** Whether the loop of list prints a task: always without a filter, else when the status matches. */
  predicate Passes(filter: Option<Status>, t: Task)
  {
    filter.None? || t.status == filter.value
  }

  /** The tasks the loop of list prints, in the order visited. */
  function Shown(ts: seq<Task>, filter: Option<Status>): (r: seq<Task>)
    ensures |r| <= |ts|
  {
    if ts == [] then []
    else Shown(ts[..|ts| - 1], filter) + (if Passes(filter, ts[|ts| - 1]) then [ts[|ts| - 1]] else [])
  }

  /**
   * list: a filter key that keyToStatus maps to UNKNOWN gives 1 and prints
   * nothing; otherwise 0 and the tasks in map order that pass the filter
   * (all of them when argc <= 2). The keys accepted are the four of the key
   * table, "deleted" among them; "unknown" and "in-progress" are refused.
   */
  method List(manager: TaskManager, argc: int, filterKey: string) returns (code: int, shown: seq<Task>)
    ensures code == (if argc > 2 && KeyToStatus(filterKey) == Unknown then 1 else 0)
    ensures code == 1 <==> argc > 2 && filterKey !in ValidKeys
    ensures code == 1 ==> shown == []
    ensures code == 0 ==>
      shown == Shown(OrderedTasks(manager.tasks), if argc > 2 then Some(KeyToStatus(filterKey)) else None)
  {
    KeyToStatusUnknown(filterKey);
    var statusFilter: Option<Status> := None;
    if argc > 2 {
      statusFilter := Some(KeyToStatus(filterKey));
      if statusFilter.value == Unknown {
        return 1, [];
      }
    }
    shown := FilterLoop(OrderedTasks(manager.GetTasks()), statusFilter);
    code := 0;
  }

  /** The loop of list over the tasks in map order, skipping the ones the filter rejects. */
  method FilterLoop(ts: seq<Task>, statusFilter: Option<Status>) returns (shown: seq<Task>)
    ensures shown == Shown(ts, statusFilter)
  {
    shown := [];
    var i := 0;
    while i < |ts|
      invariant 0 <= i <= |ts|
      invariant shown == Shown(ts[..i], statusFilter)
    {
      var task := ts[i];
      assert ts[..i + 1][..i] == ts[..i];
      i := i + 1;
      if statusFilter.Some? && task.status != statusFilter.value {
        continue;
      }
      shown := shown + [task];
    }
    assert ts[..i] == ts;
  }

  /** The tasks shown are exactly the tasks visited that pass the filter. */
  lemma {:induction false} ShownMembers(ts: seq<Task>, filter: Option<Status>)
    ensures forall t :: t in Shown(ts, filter) <==> t in ts && Passes(filter, t)
  {
    if ts != [] {
      var init := ts[..|ts| - 1];
      ShownMembers(init, filter);
      assert ts == init + [ts[|ts| - 1]];
    }
  }

  /** Skipping tasks keeps the order: when the visited ids ascend, the shown ids ascend. */
  lemma {:induction false} ShownAscending(ts: seq<Task>, filter: Option<Status>)
    requires forall i, j :: 0 <= i < j < |ts| ==> ts[i].id < ts[j].id
    ensures forall i, j :: 0 <= i < j < |Shown(ts, filter)| ==> Shown(ts, filter)[i].id < Shown(ts, filter)[j].id
  {
    if ts != [] {
      var init := ts[..|ts| - 1];
      var last := ts[|ts| - 1];
      ShownAscending(init, filter);
      ShownMembers(init, filter);
      var s := Shown(init, filter);
      forall i | 0 <= i < |s| ensures s[i].id < last.id {
        assert s[i] in init;
        var k :| 0 <= k < |init| && init[k] == s[i];
      }
    }
  }

  /**
   * What list prints from a store that keys tasks by their ids: each stored
   * task that passes the filter, once, by ascending id, and nothing else.
   */
  lemma ListedExactly(m: map<int, Task>, filter: Option<Status>)
    requires KeysMatchIds(m)
    ensures forall t :: t in Shown(OrderedTasks(m), filter) <==> t.id in m && m[t.id] == t && Passes(filter, t)
    ensures forall i, j :: 0 <= i < j < |Shown(OrderedTasks(m), filter)| ==>
      Shown(OrderedTasks(m), filter)[i].id < Shown(OrderedTasks(m), filter)[j].id
  {
    OrderedTasksSpec(m);
    ShownMembers(OrderedTasks(m), filter);
    ShownAscending(OrderedTasks(m), filter);
  }
}
