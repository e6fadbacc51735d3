/**
 * The status enumeration and its two lookup tables (src/core/TaskStatus.cpp).
 * Each table is kept as the list of its entries; the source's tables are
 * unordered maps whose entries have pairwise distinct statuses and strings,
 * so which entry a search meets first never changes its answer.
 */
module TaskStatus {
  import opened Wrappers

  /** The closed enumeration of include/core/TaskStatus.h. */
  datatype Status = Todo | InProgress | Done | Deleted | Unknown

  /** The entries of one status-to-string table. */
  type Table = seq<(Status, string)>

  /** statusLabelMap: UNKNOWN has no entry. */
  const LabelTable: Table :=
    [(Done, "Done"), (Todo, "Todo"), (InProgress, "In progress"), (Deleted, "Deleted")]

  /** statusKeyMap: UNKNOWN has no entry. */
  const KeyTable: Table :=
    [(Done, "done"), (Todo, "todo"), (InProgress, "in_progress"), (Deleted, "deleted")]

  /** The keys keyToStatus recognises. */
  const ValidKeys: set<string> := {"todo", "in_progress", "done", "deleted"}

  /** No two entries share a status, and no two share a string. */
  predicate Functional(table: Table)
  {
    forall i, j :: 0 <= i < j < |table| ==> table[i].0 != table[j].0 && table[i].1 != table[j].1
  }

  /** unordered_map::find by status: the string of the entry for s, if there is one. */
  function Find(table: Table, s: Status): (r: Option<string>)
    ensures r.Some? <==> exists i :: 0 <= i < |table| && table[i].0 == s
    ensures r.Some? ==> exists i :: 0 <= i < |table| && table[i] == (s, r.value)
  {
    if table == [] then None
    else if table[0].0 == s then Some(table[0].1)
    else Find(table[1..], s)
  }

  /** The range-for of keyToStatus: the status of the first entry whose string is key. */
  function Search(table: Table, key: string): (r: Option<Status>)
    ensures r.Some? <==> exists i :: 0 <= i < |table| && table[i].1 == key
    ensures r.Some? ==> exists i :: 0 <= i < |table| && table[i] == (r.value, key)
  {
    if table == [] then None
    else if table[0].1 == key then Some(table[0].0)
    else Search(table[1..], key)
  }

  /** statusToLabel: the table's label, or "Unknown" for a status it lacks. */
  function StatusToLabel(s: Status): (r: string)
    ensures s == Done ==> r == "Done"
    ensures s == Todo ==> r == "Todo"
    ensures s == InProgress ==> r == "In progress"
    ensures s == Deleted ==> r == "Deleted"
    ensures s == Unknown ==> r == "Unknown"
  {
    match Find(LabelTable, s)
    case Some(text) => text
    case None => "Unknown"
  }

  /** statusToKey: the table's key, or "unknown" for a status it lacks. */
  function StatusToKey(s: Status): (r: string)
    ensures s == Done ==> r == "done"
    ensures s == Todo ==> r == "todo"
    ensures s == InProgress ==> r == "in_progress"
    ensures s == Deleted ==> r == "deleted"
    ensures s == Unknown ==> r == "unknown"
  {
    match Find(KeyTable, s)
    case Some(key) => key
    case None => "unknown"
  }

  /** keyToStatus: the status whose key equals key exactly, or UNKNOWN. */
  function KeyToStatus(key: string): (r: Status)
  {
    match Search(KeyTable, key)
    case Some(s) => s
    case None => Unknown
  }

  /** In a table without repeated statuses or strings, searching for the string found for s gives back s. */
  lemma {:induction false} SearchInvertsFind(table: Table, s: Status)
    requires Functional(table)
    requires Find(table, s).Some?
    ensures Search(table, Find(table, s).value) == Some(s)
  {
    if table[0].0 != s {
      assert Functional(table[1..]) by {
        forall i, j | 0 <= i < j < |table[1..]|
          ensures table[1..][i].0 != table[1..][j].0 && table[1..][i].1 != table[1..][j].1
        {
          assert table[1..][i] == table[i + 1] && table[1..][j] == table[j + 1];
        }
      }
      SearchInvertsFind(table[1..], s);
      var k := Find(table[1..], s).value;
      var i :| 0 <= i < |table[1..]| && table[1..][i] == (s, k);
      assert table[i + 1] == (s, k);
      assert table[0].1 != k;
    }
  }

  /** A status survives being written as its key and read back, UNKNOWN included. */
  lemma KeyRoundTrip(s: Status)
    ensures KeyToStatus(StatusToKey(s)) == s
  {
    if s != Unknown {
      SearchInvertsFind(KeyTable, s);
    } else {
      assert Search(KeyTable, "unknown") == None;
    }
  }

  /** Each of the four recognised keys survives being read as a status and written back. */
  lemma StatusRoundTrip(key: string)
    requires key in ValidKeys
    ensures StatusToKey(KeyToStatus(key)) == key
  {
    assert KeyTable[0].1 == "done" && KeyTable[1].1 == "todo";
    assert KeyTable[2].1 == "in_progress" && KeyTable[3].1 == "deleted";
  }

  /** keyToStatus answers UNKNOWN exactly for strings outside the four keys; the match is case-sensitive. */
  lemma KeyToStatusUnknown(key: string)
    ensures KeyToStatus(key) == Unknown <==> key !in ValidKeys
  {
    if key in ValidKeys {
      StatusRoundTrip(key);
    } else {
      assert forall i :: 0 <= i < |KeyTable| ==> KeyTable[i].1 in ValidKeys;
    }
  }

  /** No two statuses share a key. */
  lemma StatusToKeyInjective(a: Status, b: Status)
    ensures StatusToKey(a) == StatusToKey(b) <==> a == b
  {
  }

  /** No two statuses share a label. */
  lemma StatusToLabelInjective(a: Status, b: Status)
    ensures StatusToLabel(a) == StatusToLabel(b) <==> a == b
  {
  }
}
