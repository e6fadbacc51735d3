/**
 * What the loader makes of the text the saver writes: the round trip, the
 * conditions under which it holds and why each is needed, and the other
 * behaviours of the parser (field order, unknown keys, duplicate ids, an
 * unclosed record, the seed file).
 */
module RoundTrip {
  import opened Wrappers
  import opened TaskStatus
  import opened Text
  import opened Tasks
  import opened StoreFormat

  /** A task the text format can carry: numbers in the ranges std::stoi and std::stoll accept, and a description free of the three characters the scanner splits on. */
  ghost predicate StorableTask(t: Task)
  {
    && IntMin <= t.id <= IntMax
    && LongMin <= t.createdAt <= LongMax
    && LongMin <= t.updatedAt <= LongMax
    && ',' !in t.description && '}' !in t.description && '\n' !in t.description
  }

  /** A store the text format can carry: keys are ids, and every task is storable. */
  ghost predicate Storable(m: map<int, Task>)
  {
    KeysMatchIds(m) && forall k :: k in m ==> StorableTask(m[k])
  }

  /** The text between the braces of a task's toJSON. */
  function Body(t: Task): string
  {
    Join(t.Members(), ",")
  }

  /** The bodies of the tasks' records, in order. */
  function Bodies(ts: seq<Task>): (r: seq<string>)
    ensures |r| == |ts| && forall i :: 0 <= i < |ts| ==> r[i] == Body(ts[i])
  {
    if ts == [] then [] else [Body(ts[0])] + Bodies(ts[1..])
  }

  // ---------------------------------------------------------------------
  // Characters that cannot occur

  /** A character in neither the parts nor the separator is not in their join. */
  lemma {:induction false} JoinAvoids(parts: seq<string>, sep: string, c: char)
    requires c !in sep
    requires forall i :: 0 <= i < |parts| ==> c !in parts[i]
    ensures c !in Join(parts, sep)
  {
    if |parts| > 1 {
      JoinAvoids(parts[1..], sep, c);
    }
  }

  /** The characters the scanner splits on, and the space. */
  predicate Delimiter(c: char)
  {
    c == ',' || c == '{' || c == '}' || c == '\n' || c == ' '
  }

  /** Text made only of letters, underscores, quotes and colons, as the fixed parts of a record are. */
  predicate Plain(s: string)
  {
    forall i :: 0 <= i < |s| ==> 'a' <= s[i] <= 'z' || 'A' <= s[i] <= 'Z' || s[i] == '_' || s[i] == '"' || s[i] == ':'
  }

  /** A delimiter is not plain. */
  lemma PlainAvoids(s: string, c: char)
    requires Plain(s) && Delimiter(c)
    ensures c !in s
  {
  }

  /** No delimiter occurs in the fixed text of a record... */
  lemma LiteralsAvoid(c: char)
    requires Delimiter(c)
    ensures c !in "\"id\":" && c !in "\"description\":\"" && c !in "\""
    ensures c !in "\"status\":\"" && c !in "\"createdAt\":" && c !in "\"updatedAt\":"
  {
    PlainAvoids("\"id\":", c);
    PlainAvoids("\"description\":\"", c);
    PlainAvoids("\"", c);
    PlainAvoids("\"status\":\"", c);
    PlainAvoids("\"createdAt\":", c);
    PlainAvoids("\"updatedAt\":", c);
  }

  /** ... nor in a status key. */
  lemma KeyAvoids(s: Status, c: char)
    requires Delimiter(c)
    ensures c !in StatusToKey(s)
  {
    match s
    case Todo => PlainAvoids("todo", c);
    case InProgress => PlainAvoids("in_progress", c);
    case Done => PlainAvoids("done", c);
    case Deleted => PlainAvoids("deleted", c);
    case Unknown => PlainAvoids("unknown", c);
  }

  /** The members of a record hold none of the delimiters except through the description. */
  lemma MembersAvoid(t: Task, c: char)
    requires c !in t.description && Delimiter(c)
    ensures forall i :: 0 <= i < |t.Members()| ==> c !in t.Members()[i]
  {
    LiteralsAvoid(c);
    KeyAvoids(t.status, c);
  }

  /** toJSON writes no space of its own: any space in it comes from the description. */
  lemma ToJSONUnspaced(t: Task)
    requires ' ' !in t.description
    ensures ' ' !in t.ToJSON()
  {
    assert Delimiter(' ');
    MembersAvoid(t, ' ');
    JoinAvoids(t.Members(), ",", ' ');
  }

  // ---------------------------------------------------------------------
  // The record scan

  /** The scan takes the text between the first `{` and the next `}`, then goes on after it. */
  lemma TaskTextsStep(p: string, b: string, rest: string)
    requires '{' !in p && '}' !in b
    ensures TaskTexts(p + "{" + b + "}" + rest) == [b] + TaskTexts(rest)
  {
    var s := p + "{" + b + "}" + rest;
    var close := |p| + 1 + |b|;
    assert s[|p|] == '{';
    assert forall j :: 0 <= j < |p| ==> s[j] == p[j];
    assert FindChar(s, '{', 0) == Some(|p|);
    assert s[close] == '}';
    assert forall j :: |p| < j < close ==> s[j] == b[j - |p| - 1];
    assert FindChar(s, '}', |p|) == Some(close);
    assert s[|p| + 1..close] == b;
    assert s[close + 1..] == rest;
  }

  /** Text without a `{` holds no record. */
  lemma TaskTextsNone(s: string)
    requires '{' !in s
    ensures TaskTexts(s) == []
  {
    assert FindChar(s, '{', 0) == None;
  }

  /** A `{` with no `}` after it ends the scan: nothing from it on is read. */
  lemma UnclosedRecordStops(p: string, r: string)
    requires '{' !in p && '}' !in r
    ensures TaskTexts(p + "{" + r) == []
  {
    var s := p + "{" + r;
    assert s[|p|] == '{';
    assert forall j :: 0 <= j < |p| ==> s[j] == p[j];
    assert FindChar(s, '{', 0) == Some(|p|);
    assert forall j :: |p| < j < |s| ==> s[j] == r[j - |p| - 1];
    assert FindChar(s, '}', |p|) == None;
  }

  /** Each body inside its braces, as toJSON writes it. */
  function Braced(bs: seq<string>): (r: seq<string>)
    ensures |r| == |bs| && forall i :: 0 <= i < |bs| ==> r[i] == "{" + bs[i] + "}"
  {
    seq(|bs|, i requires 0 <= i < |bs| => "{" + bs[i] + "}")
  }

  /** The saved records are the braced bodies. */
  lemma ToJSONsBraced(ts: seq<Task>)
    ensures ToJSONs(ts) == Braced(Bodies(ts))
  {
  }

  /** The records after the first one, with their separator and the closing bracket. */
  function BracedTail(bs: seq<string>): string
    requires bs != []
  {
    if |bs| == 1 then "]" else ", " + Join(Braced(bs[1..]), ", ") + "]"
  }

  /** A join of records followed by the bracket opens with the first record. */
  lemma JoinHead(js: seq<string>)
    requires js != []
    ensures Join(js, ", ") + "]" == js[0] + (if |js| == 1 then "]" else ", " + Join(js[1..], ", ") + "]")
  {
  }

  /** Regrouping a concatenation around the first record. */
  lemma BracedHead(p: string, first: string, b: string, tail: string, j: string)
    requires first == "{" + b + "}" && j + "]" == first + tail
    ensures p + j + "]" == p + "{" + b + "}" + tail
  {
    assert p + j + "]" == p + (j + "]");
    assert p + "{" + b + "}" + tail == p + (first + tail);
  }

  /** The saved text opens with the first record, braces and all. */
  lemma BracedShape(p: string, bs: seq<string>)
    requires bs != []
    ensures p + Join(Braced(bs), ", ") + "]" == p + "{" + bs[0] + "}" + BracedTail(bs)
  {
    var js := Braced(bs);
    JoinHead(js);
    if |bs| > 1 {
      assert js[1..] == Braced(bs[1..]);
    }
    BracedHead(p, js[0], bs[0], BracedTail(bs), Join(js, ", "));
  }

  /** The scan of records joined by ", " and closed by "]" yields their bodies, in order. */
  lemma {:induction false} TaskTextsOfBraced(p: string, bs: seq<string>)
    requires '{' !in p
    requires forall i :: 0 <= i < |bs| ==> '}' !in bs[i]
    ensures TaskTexts(p + Join(Braced(bs), ", ") + "]") == bs
    decreases |bs|
  {
    if bs == [] {
      BracedEmpty(p);
    } else {
      var tail := BracedTail(bs);
      BracedShape(p, bs);
      TaskTextsStep(p, bs[0], tail);
      if |bs| == 1 {
        TaskTextsNone("]");
      } else {
        TaskTextsOfBraced(", ", bs[1..]);
        assert bs == [bs[0]] + bs[1..];
      }
    }
  }

  /** No record: only the bracket follows. */
  lemma BracedEmpty(p: string)
    requires '{' !in p
    ensures TaskTexts(p + Join(Braced([]), ", ") + "]") == []
  {
    assert Braced([]) == [];
    assert p + Join(Braced([]), ", ") + "]" == p + "]";
    TaskTextsNone(p + "]");
  }

  // ---------------------------------------------------------------------
  // The token split

  /** getline on ',' reads up to the first comma, then goes on after it. */
  lemma TokensStep(a: string, b: string)
    requires ',' !in a
    ensures Tokens(a + "," + b) == [a] + Tokens(b)
  {
    var s := a + "," + b;
    assert s[|a|] == ',';
    assert forall j :: 0 <= j < |a| ==> s[j] == a[j];
    assert FindChar(s, ',', 0) == Some(|a|);
    assert s[..|a|] == a;
    assert s[|a| + 1..] == b;
  }

  /** A nonempty text without a comma is one token. */
  lemma TokensWhole(a: string)
    requires a != [] && ',' !in a
    ensures Tokens(a) == [a]
  {
    assert FindChar(a, ',', 0) == None;
  }

  /** Splitting comma-free parts joined by commas gives the parts back, provided the last is not empty. */
  lemma {:induction false} TokensOfJoin(parts: seq<string>)
    requires parts != [] && parts[|parts| - 1] != []
    requires forall i :: 0 <= i < |parts| ==> ',' !in parts[i]
    ensures Tokens(Join(parts, ",")) == parts
    decreases |parts|
  {
    if |parts| == 1 {
      TokensWhole(parts[0]);
    } else {
      TokensStep(parts[0], Join(parts[1..], ","));
      TokensOfJoin(parts[1..]);
      assert parts == [parts[0]] + parts[1..];
    }
  }

  // ---------------------------------------------------------------------
  // One token

  /** A token written as "key":value splits into the key and the trimmed value. */
  lemma SplitWritten(key: string, value: string)
    requires ':' !in key
    ensures SplitToken("\"" + key + "\":" + value) == Some((key, Trim(value)))
  {
    var token := "\"" + key + "\":" + value;
    var colon := |key| + 2;
    assert token[colon] == ':';
    assert forall j :: 0 <= j < colon ==> token[j] != ':' by {
      assert forall j :: 1 <= j < colon - 1 ==> token[j] == key[j - 1];
    }
    FindCharFirst(token, ':', 0, colon);
    assert token[1..colon - 1] == key;
    assert token[colon + 1..] == value;
  }

  /** With an unpadded value the split gives the key and the value itself. */
  lemma SplitKeyed(key: string, value: string)
    requires ':' !in key && Unpadded(value)
    ensures SplitToken("\"" + key + "\":" + value) == Some((key, value))
  {
    SplitWritten(key, value);
    TrimUnpadded(value);
  }

  /** What a token does is decided by its key and its trimmed value. */
  lemma ApplySplit(f: Fields, token: string, key: string, value: string)
    requires SplitToken(token) == Some((key, value))
    ensures ApplyToken(f, token) == ApplyField(f, key, value)
  {
  }

  /** So a token written as "key":value does what the key's branch does with the value. */
  lemma ApplyKeyed(f: Fields, key: string, value: string)
    requires ':' !in key && Unpadded(value)
    ensures ApplyToken(f, "\"" + key + "\":" + value) == ApplyField(f, key, value)
  {
    SplitKeyed(key, value);
    ApplySplit(f, "\"" + key + "\":" + value, key, value);
  }

  /** The number toJSON writes is unpadded and reads back through std::stoi and std::stoll. */
  lemma NumberValue(n: int)
    ensures Unpadded(IntToString(n))
    ensures IntMin <= n <= IntMax ==> Stoi(IntToString(n)) == Some(n)
    ensures LongMin <= n <= LongMax ==> Stoll(IntToString(n)) == Some(n)
  {
    if IntMin <= n <= IntMax {
      ParseFormatted(n, IntMin, IntMax);
    }
    if LongMin <= n <= LongMax {
      ParseFormatted(n, LongMin, LongMax);
    }
  }

  /** The keys toJSON writes, in front of their values. */
  lemma Prefixes(value: string)
    ensures "\"id\":" + value == "\"" + "id" + "\":" + value
    ensures "\"createdAt\":" + value == "\"" + "createdAt" + "\":" + value
    ensures "\"updatedAt\":" + value == "\"" + "updatedAt" + "\":" + value
  {
  }

  /** The id member as toJSON writes it sets the id to the number. */
  lemma ApplyId(f: Fields, n: int)
    requires IntMin <= n <= IntMax
    ensures ApplyToken(f, "\"id\":" + IntToString(n)) == Some(f.(id := Some(n)))
  {
    var value := IntToString(n);
    Prefixes(value);
    NumberValue(n);
    ApplyKeyed(f, "id", value);
    FieldId(f, value, n);
  }

  /** An id value std::stoi accepts sets the id. */
  lemma FieldId(f: Fields, value: string, n: int)
    requires Stoi(value) == Some(n)
    ensures ApplyField(f, "id", value) == Some(f.(id := Some(n)))
  {
  }

  /** A createdAt value std::stoll accepts sets createdAt. */
  lemma FieldCreatedAt(f: Fields, value: string, n: int)
    requires Stoll(value) == Some(n)
    ensures ApplyField(f, "createdAt", value) == Some(f.(createdAt := Some(n)))
  {
  }

  /** An updatedAt value std::stoll accepts sets updatedAt. */
  lemma FieldUpdatedAt(f: Fields, value: string, n: int)
    requires Stoll(value) == Some(n)
    ensures ApplyField(f, "updatedAt", value) == Some(f.(updatedAt := Some(n)))
  {
  }

  /** The createdAt member as toJSON writes it sets createdAt to the number. */
  lemma ApplyCreatedAt(f: Fields, n: int)
    requires LongMin <= n <= LongMax
    ensures ApplyToken(f, "\"createdAt\":" + IntToString(n)) == Some(f.(createdAt := Some(n)))
  {
    var value := IntToString(n);
    Prefixes(value);
    NumberValue(n);
    ApplyKeyed(f, "createdAt", value);
    FieldCreatedAt(f, value, n);
  }

  /** The updatedAt member as toJSON writes it sets updatedAt to the number. */
  lemma ApplyUpdatedAt(f: Fields, n: int)
    requires LongMin <= n <= LongMax
    ensures ApplyToken(f, "\"updatedAt\":" + IntToString(n)) == Some(f.(updatedAt := Some(n)))
  {
    var value := IntToString(n);
    Prefixes(value);
    NumberValue(n);
    ApplyKeyed(f, "updatedAt", value);
    FieldUpdatedAt(f, value, n);
  }

  /** A quoted value is unpadded, and its quotes come off. */
  lemma QuotedValue(text: string, value: string)
    requires value == "\"" + text + "\""
    ensures Unpadded(value) && Unquote(value) == Some(text)
  {
    assert value[1..|value| - 1] == text;
  }

  /** A description value sets the description. */
  lemma FieldDescription(f: Fields, value: string, text: string)
    requires Unquote(value) == Some(text)
    ensures ApplyField(f, "description", value) == Some(f.(description := text))
  {
  }

  /** A status value sets the status text. */
  lemma FieldStatus(f: Fields, value: string, text: string)
    requires Unquote(value) == Some(text)
    ensures ApplyField(f, "status", value) == Some(f.(status := text))
  {
  }

  /** The description member as toJSON writes it. */
  lemma ApplyDescription(f: Fields, text: string)
    ensures ApplyToken(f, "\"description\":\"" + text + "\"") == Some(f.(description := text))
  {
    var value := "\"" + text + "\"";
    assert "\"description\":\"" + text + "\"" == "\"" + "description" + "\":" + value;
    QuotedValue(text, value);
    ApplyKeyed(f, "description", value);
    FieldDescription(f, value, text);
  }

  /** The status member as toJSON writes it. */
  lemma ApplyStatus(f: Fields, text: string)
    ensures ApplyToken(f, "\"status\":\"" + text + "\"") == Some(f.(status := text))
  {
    var value := "\"" + text + "\"";
    assert "\"status\":\"" + text + "\"" == "\"" + "status" + "\":" + value;
    QuotedValue(text, value);
    ApplyKeyed(f, "status", value);
    FieldStatus(f, value, text);
  }

  // ---------------------------------------------------------------------
  // One record

  /** The inner loop moves on to the next token once a token has been applied. */
  lemma ApplyTokensStep(f: Fields, tokens: seq<string>, g: Fields)
    requires tokens != [] && ApplyToken(f, tokens[0]) == Some(g)
    ensures ApplyTokens(f, tokens) == ApplyTokens(g, tokens[1..])
  {
  }

  /** The locals the inner loop leaves after the members of a storable task. */
  function Written(t: Task): Fields
  {
    Fields(Some(t.id), t.description, StatusToKey(t.status), Some(t.createdAt), Some(t.updatedAt))
  }

  /** Five tokens, each applied in turn. */
  lemma ApplyFive(f0: Fields, a: string, b: string, c: string, d: string, e: string,
                  f1: Fields, f2: Fields, f3: Fields, f4: Fields, f5: Fields)
    requires ApplyToken(f0, a) == Some(f1) && ApplyToken(f1, b) == Some(f2)
    requires ApplyToken(f2, c) == Some(f3) && ApplyToken(f3, d) == Some(f4)
    requires ApplyToken(f4, e) == Some(f5)
    ensures ApplyTokens(f0, [a, b, c, d, e]) == Some(f5)
  {
    ApplyTokensCons(f4, e, [], f5);
    ApplyTokensCons(f3, d, [e], f4);
    ApplyTokensCons(f2, c, [d, e], f3);
    ApplyTokensCons(f1, b, [c, d, e], f2);
    ApplyTokensCons(f0, a, [b, c, d, e], f1);
  }

  /** The first token applied, then the rest. */
  lemma ApplyTokensCons(f: Fields, a: string, rest: seq<string>, g: Fields)
    requires ApplyToken(f, a) == Some(g)
    ensures ApplyTokens(f, [a] + rest) == ApplyTokens(g, rest)
  {
    assert ([a] + rest)[1..] == rest;
  }

  /** Applying the members of a storable task in order sets each local from its member. */
  lemma ApplyMembers(t: Task)
    requires StorableTask(t)
    ensures ApplyTokens(Unset, t.Members()) == Some(Written(t))
  {
    var key := StatusToKey(t.status);
    var f1 := Unset.(id := Some(t.id));
    var f2 := f1.(description := t.description);
    var f3 := f2.(status := key);
    var f4 := f3.(createdAt := Some(t.createdAt));
    ApplyId(Unset, t.id);
    ApplyDescription(f1, t.description);
    ApplyStatus(f2, key);
    ApplyCreatedAt(f3, t.createdAt);
    ApplyUpdatedAt(f4, t.updatedAt);
    var ms := t.Members();
    ApplyFive(Unset, ms[0], ms[1], ms[2], ms[3], ms[4], f1, f2, f3, f4, Written(t));
  }

  /** The body toJSON writes for a storable task parses back to that task. */
  lemma ParseBody(t: Task)
    requires StorableTask(t)
    ensures ParseTask(Body(t)) == Some(t)
  {
    assert Delimiter(',');
    MembersAvoid(t, ',');
    TokensOfJoin(t.Members());
    ApplyMembers(t);
    KeyRoundTrip(t.status);
  }

  // ---------------------------------------------------------------------
  // The whole store

  /** A delimiter other than the comma occurs in a record only through the description. */
  lemma BodyAvoids(t: Task, c: char)
    requires Delimiter(c) && c != ',' && c !in t.description
    ensures c !in Body(t)
    ensures c != '{' && c != '}' ==> c !in t.ToJSON()
  {
    MembersAvoid(t, c);
    JoinAvoids(t.Members(), ",", c);
  }

  /** The entries of m under the keys listed in ks. */
  function Restrict(m: map<int, Task>, ks: seq<int>): (r: map<int, Task>)
    ensures forall k :: k in r <==> k in m && k in ks
    ensures forall k :: k in r ==> r[k] == m[k]
  {
    map k | k in m.Keys && k in ks :: m[k]
  }

  /** Adding the entry under the first key, then the rest. */
  lemma RestrictCons(acc: map<int, Task>, m: map<int, Task>, ks: seq<int>)
    requires ks != [] && ks[0] in m
    ensures acc[ks[0] := m[ks[0]]] + Restrict(m, ks[1..]) == acc + Restrict(m, ks)
  {
    var l := acc[ks[0] := m[ks[0]]] + Restrict(m, ks[1..]);
    var r := acc + Restrict(m, ks);
    forall k | k in ks ensures k == ks[0] || k in ks[1..] {
      var i :| 0 <= i < |ks| && ks[i] == k;
      if i > 0 {
        assert ks[1..][i - 1] == k;
      }
    }
    assert l.Keys == r.Keys;
  }

  /** The bodies after the first. */
  lemma BodiesTail(m: map<int, Task>, ks: seq<int>)
    requires ks != [] && forall i :: 0 <= i < |ks| ==> ks[i] in m
    ensures Bodies(TasksAt(m, ks))[0] == Body(m[ks[0]])
    ensures Bodies(TasksAt(m, ks))[1..] == Bodies(TasksAt(m, ks[1..]))
  {
    assert TasksAt(m, ks) == [m[ks[0]]] + TasksAt(m, ks[1..]);
    BodiesCons(m[ks[0]], TasksAt(m, ks[1..]));
  }

  /** The bodies of a task followed by more tasks. */
  lemma BodiesCons(t: Task, ts: seq<Task>)
    ensures Bodies([t] + ts) == [Body(t)] + Bodies(ts)
  {
    assert ([t] + ts)[1..] == ts;
  }

  /** The outer loop moves on to the next record once a record has been emplaced. */
  lemma LoadTextsStep(acc: map<int, Task>, texts: seq<string>, t: Task)
    requires texts != [] && ParseTask(texts[0]) == Some(t)
    ensures LoadTexts(acc, texts) == LoadTexts(Emplace(acc, t.id, t), texts[1..])
  {
  }

  /** Keys listed once each, all in m and none in acc: what remains to be loaded. */
  ghost predicate Pending(acc: map<int, Task>, m: map<int, Task>, ks: seq<int>)
  {
    && (forall i :: 0 <= i < |ks| ==> ks[i] in m && ks[i] !in acc)
    && (forall i, j :: 0 <= i < j < |ks| ==> ks[i] != ks[j])
  }

  /** Once the first key is loaded, the others remain pending. */
  lemma PendingTail(acc: map<int, Task>, m: map<int, Task>, ks: seq<int>)
    requires ks != [] && Pending(acc, m, ks)
    ensures Pending(acc[ks[0] := m[ks[0]]], m, ks[1..])
  {
    var rest := ks[1..];
    assert forall i :: 0 <= i < |rest| ==> rest[i] == ks[i + 1];
  }

  /** Loading the bodies of the tasks under pending keys adds exactly those entries. */
  lemma {:induction false} LoadSaved(acc: map<int, Task>, m: map<int, Task>, ks: seq<int>)
    requires Storable(m) && Pending(acc, m, ks)
    ensures LoadTexts(acc, Bodies(TasksAt(m, ks))) == Loaded(acc + Restrict(m, ks), true)
    decreases |ks|
  {
    if ks == [] {
      assert Bodies(TasksAt(m, ks)) == [];
      assert acc + Restrict(m, ks) == acc;
    } else {
      var k := ks[0];
      var t := m[k];
      ParseBody(t);
      BodiesTail(m, ks);
      LoadTextsStep(acc, Bodies(TasksAt(m, ks)), t);
      assert Emplace(acc, t.id, t) == acc[k := t];
      PendingTail(acc, m, ks);
      LoadSaved(acc[k := t], m, ks[1..]);
      RestrictCons(acc, m, ks);
    }
  }

  /** The scan of a saved store finds the body of every task, in ascending key order. */
  lemma SavedRecords(m: map<int, Task>)
    requires Storable(m)
    ensures ReadStore(Some(SaveText(m))) == SaveText(m)
    ensures TaskTexts(SaveText(m)) == Bodies(OrderedTasks(m))
  {
    var ts := OrderedTasks(m);
    assert forall i :: 0 <= i < |ts| ==> StorableTask(ts[i]);
    SavedAvoids(ts);
    ToJSONsBraced(ts);
    TaskTextsOfBraced("[", Bodies(ts));
  }

  /**
   * The main property of the store format: loading, into an empty manager,
   * the text saved from a storable store gives back exactly that store, and
   * no exception.
   */
  lemma SaveLoadRoundTrip(m: map<int, Task>)
    requires Storable(m)
    ensures Load(map[], ReadStore(Some(SaveText(m)))) == Loaded(m, true)
  {
    SavedRecords(m);
    LoadOrdered(m);
  }

  /** Emplacing the bodies of a storable store, in the visit order, into an empty map rebuilds the store. */
  lemma LoadOrdered(m: map<int, Task>)
    requires Storable(m)
    ensures LoadTexts(map[], Bodies(OrderedTasks(m))) == Loaded(m, true)
  {
    var ks := SortedKeys(m.Keys);
    assert Pending(map[], m, ks);
    LoadSaved(map[], m, ks);
    RestrictAll(m);
  }

  /** Restricting to all the keys, in order, keeps the whole map. */
  lemma RestrictAll(m: map<int, Task>)
    ensures map[] + Restrict(m, SortedKeys(m.Keys)) == m
  {
  }

  /** The saved records hold no newline, and their bodies no closing brace. */
  lemma SavedAvoids(ts: seq<Task>)
    requires forall i :: 0 <= i < |ts| ==> StorableTask(ts[i])
    ensures '\n' !in "[" + Join(ToJSONs(ts), ", ") + "]"
    ensures forall i :: 0 <= i < |ts| ==> '}' !in Bodies(ts)[i]
  {
    RecordsAvoidNewline(ts);
    BracketsAvoid(Join(ToJSONs(ts), ", "), '\n');
    BodiesAvoidBrace(ts);
  }

  /** The records joined hold no newline. */
  lemma RecordsAvoidNewline(ts: seq<Task>)
    requires forall i :: 0 <= i < |ts| ==> StorableTask(ts[i])
    ensures '\n' !in Join(ToJSONs(ts), ", ")
  {
    var js := ToJSONs(ts);
    assert Delimiter('\n');
    forall i | 0 <= i < |js| ensures '\n' !in js[i] {
      BodyAvoids(ts[i], '\n');
    }
    JoinAvoids(js, ", ", '\n');
  }

  /** The bodies hold no closing brace. */
  lemma BodiesAvoidBrace(ts: seq<Task>)
    requires forall i :: 0 <= i < |ts| ==> StorableTask(ts[i])
    ensures forall i :: 0 <= i < |ts| ==> '}' !in Bodies(ts)[i]
  {
    assert Delimiter('}');
    forall i | 0 <= i < |ts| ensures '}' !in Bodies(ts)[i] {
      BodyAvoids(ts[i], '}');
    }
  }

  /** Square brackets around a text add no other character. */
  lemma BracketsAvoid(s: string, c: char)
    requires c !in s && c != '[' && c != ']'
    ensures c !in "[" + s + "]"
  {
  }

  // ---------------------------------------------------------------------
  // What the loader can produce

  /** Part of a text without c holds no c. */
  lemma SliceAvoids(s: string, c: char, i: int, j: int)
    requires c !in s && 0 <= i <= j <= |s|
    ensures c !in s[i..j]
  {
  }

  /** The trimmed value of a token is part of the token. */
  lemma SplitTokenAvoids(token: string, c: char)
    requires c !in token && token != []
    ensures c !in SplitToken(token).value.1
  {
    var colon := FindChar(token, ':', 0);
    var value := if colon.Some? then token[colon.value + 1..] else token;
    SliceAvoids(token, c, if colon.Some? then colon.value + 1 else 0, |token|);
    var l := TrimLeft(value);
    SliceAvoids(value, c, |value| - |l|, |value|);
    SliceAvoids(l, c, 0, |TrimRight(l)|);
  }

  /** So is the text between its quotes. */
  lemma UnquoteAvoids(value: string, c: char)
    requires c !in value && value != []
    ensures c !in Unquote(value).value
  {
    if |value| >= 2 {
      SliceAvoids(value, c, 1, |value| - 1);
    }
  }

  /** A value without c cannot put a c into the description. */
  lemma ApplyFieldAvoids(f: Fields, key: string, value: string, c: char)
    requires c !in value && c !in f.description && ApplyField(f, key, value).Some?
    ensures c !in ApplyField(f, key, value).value.description
  {
    if key == "description" {
      UnquoteAvoids(value, c);
    }
  }

  /** Nor can a token without c. */
  lemma ApplyTokenAvoids(f: Fields, token: string, c: char)
    requires c !in token && c !in f.description && ApplyToken(f, token).Some?
    ensures c !in ApplyToken(f, token).value.description
  {
    var (key, value) := SplitToken(token).value;
    SplitTokenAvoids(token, c);
    ApplySplit(f, token, key, value);
    ApplyFieldAvoids(f, key, value, c);
  }

  /** Nor can a sequence of them. */
  lemma {:induction false} ApplyTokensAvoids(f: Fields, tokens: seq<string>, c: char)
    requires forall i :: 0 <= i < |tokens| ==> c !in tokens[i]
    requires c !in f.description && ApplyTokens(f, tokens).Some?
    ensures c !in ApplyTokens(f, tokens).value.description
    decreases |tokens|
  {
    if tokens != [] {
      ApplyTokenAvoids(f, tokens[0], c);
      ApplyTokensAvoids(ApplyToken(f, tokens[0]).value, tokens[1..], c);
    }
  }

  /** The tokens of a text without c hold no c. */
  lemma {:induction false} TokensAvoid(s: string, c: char)
    requires c !in s
    ensures forall i :: 0 <= i < |Tokens(s)| ==> c !in Tokens(s)[i]
    decreases |s|
  {
    if s != [] {
      match FindChar(s, ',', 0)
      case None =>
      case Some(i) =>
        SliceAvoids(s, c, 0, i);
        TokensAvoid(s[i + 1..], c);
    }
  }

  /** The records found in a text without c hold no c, and none holds a `}`. */
  lemma {:induction false} TaskTextsAvoid(json: string, c: char)
    requires c !in json
    ensures forall i :: 0 <= i < |TaskTexts(json)| ==> c !in TaskTexts(json)[i] && '}' !in TaskTexts(json)[i]
    decreases |json|
  {
    match FindChar(json, '{', 0)
    case None =>
    case Some(pos) =>
      match FindChar(json, '}', pos)
      case None =>
      case Some(close) =>
        SliceAvoids(json, c, pos + 1, close);
        assert forall j :: pos + 1 <= j < close ==> json[j] != '}';
        TaskTextsAvoid(json[close + 1..], c);
  }

  /** The numbers held in the locals are in the ranges their conversions accept. */
  ghost predicate FieldsInRange(f: Fields)
  {
    && (f.id.Some? ==> IntMin <= f.id.value <= IntMax)
    && (f.createdAt.Some? ==> LongMin <= f.createdAt.value <= LongMax)
    && (f.updatedAt.Some? ==> LongMin <= f.updatedAt.value <= LongMax)
  }

  /** std::stoi and std::stoll give only numbers in range... */
  lemma ApplyFieldInRange(f: Fields, key: string, value: string)
    requires FieldsInRange(f) && ApplyField(f, key, value).Some?
    ensures FieldsInRange(ApplyField(f, key, value).value)
  {
    if key == "id" {
      assert ApplyField(f, key, value) == Some(f.(id := Stoi(value)));
    } else if key == "createdAt" {
      assert ApplyField(f, key, value) == Some(f.(createdAt := Stoll(value)));
    } else if key == "updatedAt" {
      assert ApplyField(f, key, value) == Some(f.(updatedAt := Stoll(value)));
    } else {
      ConvertKeeps(f, key, value);
    }
  }

  /** A key other than the three numeric ones leaves the numeric locals alone. */
  lemma ConvertKeeps(f: Fields, key: string, value: string)
    requires key != "id" && key != "createdAt" && key != "updatedAt" && ApplyField(f, key, value).Some?
    ensures ApplyField(f, key, value).value.id == f.id
    ensures ApplyField(f, key, value).value.createdAt == f.createdAt
    ensures ApplyField(f, key, value).value.updatedAt == f.updatedAt
  {
  }

  /** ... whatever the token. */
  lemma ApplyTokenInRange(f: Fields, token: string)
    requires FieldsInRange(f) && ApplyToken(f, token).Some?
    ensures FieldsInRange(ApplyToken(f, token).value)
  {
    var (key, value) := SplitToken(token).value;
    ApplySplit(f, token, key, value);
    ApplyFieldInRange(f, key, value);
  }

  /** ... so the locals stay in range over a record. */
  lemma {:induction false} ApplyTokensInRange(f: Fields, tokens: seq<string>)
    requires FieldsInRange(f) && ApplyTokens(f, tokens).Some?
    ensures FieldsInRange(ApplyTokens(f, tokens).value)
    decreases |tokens|
  {
    if tokens != [] {
      ApplyTokenInRange(f, tokens[0]);
      ApplyTokensInRange(ApplyToken(f, tokens[0]).value, tokens[1..]);
    }
  }

  /** A record without `}` and newline parses, if at all, to a storable task. */
  lemma ParseStorable(text: string)
    requires '}' !in text && '\n' !in text && ParseTask(text).Some?
    ensures StorableTask(ParseTask(text).value)
  {
    var tokens := Tokens(text);
    TokensAvoid(text, '}');
    TokensAvoid(text, '\n');
    ApplyTokensAvoids(Unset, tokens, ',');
    ApplyTokensAvoids(Unset, tokens, '}');
    ApplyTokensAvoids(Unset, tokens, '\n');
    ApplyTokensInRange(Unset, tokens);
  }

  // ---------------------------------------------------------------------
  // The round trip holds exactly for storable stores

  /** Emplacing a task parsed from a clean record keeps the store storable. */
  lemma {:induction false} LoadTextsStorable(acc: map<int, Task>, texts: seq<string>)
    requires Storable(acc)
    requires forall i :: 0 <= i < |texts| ==> '}' !in texts[i] && '\n' !in texts[i]
    ensures Storable(LoadTexts(acc, texts).tasks)
    decreases |texts|
  {
    if texts != [] {
      match ParseTask(texts[0])
      case None =>
      case Some(t) =>
        ParseStorable(texts[0]);
        LoadTextsStorable(Emplace(acc, t.id, t), texts[1..]);
    }
  }

  /** Whatever the file holds, loading keeps a storable store storable: no task it adds has a `,`, `}` or newline in its description. */
  lemma LoadKeepsStorable(acc: map<int, Task>, file: Option<string>)
    requires Storable(acc)
    ensures Storable(Load(acc, ReadStore(file)).tasks)
  {
    var json := ReadStore(file);
    TaskTextsAvoid(json, '\n');
    LoadTextsStorable(acc, TaskTexts(json));
  }

  /**
   * Both directions: the text saved from a store loads back to that store
   * exactly when the store is storable. In particular a description holding
   * a `,`, a `}` or a newline never survives the round trip.
   */
  lemma RoundTripExactly(m: map<int, Task>)
    ensures Load(map[], ReadStore(Some(SaveText(m)))) == Loaded(m, true) <==> Storable(m)
  {
    if Storable(m) {
      SaveLoadRoundTrip(m);
    }
    LoadKeepsStorable(map[], Some(SaveText(m)));
  }

  // ---------------------------------------------------------------------
  // Other behaviours of the loader

  /** Entries already in the map are never replaced: a record whose id is present is dropped. */
  lemma {:induction false} LoadKeepsExisting(acc: map<int, Task>, texts: seq<string>)
    ensures acc.Keys <= LoadTexts(acc, texts).tasks.Keys
    ensures forall k :: k in acc ==> LoadTexts(acc, texts).tasks[k] == acc[k]
    decreases |texts|
  {
    if texts != [] {
      match ParseTask(texts[0])
      case None =>
      case Some(t) =>
        LoadKeepsExisting(Emplace(acc, t.id, t), texts[1..]);
    }
  }

  /** A record whose id is already stored has no effect at all. */
  lemma DuplicateIgnored(acc: map<int, Task>, text: string, rest: seq<string>)
    requires ParseTask(text).Some? && ParseTask(text).value.id in acc
    ensures LoadTexts(acc, [text] + rest) == LoadTexts(acc, rest)
  {
    assert ([text] + rest)[1..] == rest;
  }

  /** Keys emplaced while loading are the ids of the tasks stored under them. */
  lemma {:induction false} LoadKeepsKeysMatchIds(acc: map<int, Task>, texts: seq<string>)
    requires KeysMatchIds(acc)
    ensures KeysMatchIds(LoadTexts(acc, texts).tasks)
    decreases |texts|
  {
    if texts != [] {
      match ParseTask(texts[0])
      case None =>
      case Some(t) =>
        LoadKeepsKeysMatchIds(Emplace(acc, t.id, t), texts[1..]);
    }
  }

  /** The loader finishes without an exception exactly when every record it finds parses. */
  lemma {:induction false} LoadOkExactly(acc: map<int, Task>, texts: seq<string>)
    ensures LoadTexts(acc, texts).ok <==> forall i :: 0 <= i < |texts| ==> ParseTask(texts[i]).Some?
    decreases |texts|
  {
    if texts != [] {
      match ParseTask(texts[0])
      case None =>
      case Some(t) =>
        LoadOkExactly(Emplace(acc, t.id, t), texts[1..]);
        assert forall i :: 1 <= i < |texts| ==> texts[i] == texts[1..][i - 1];
    }
  }

  /** The key a nonempty token names. */
  function KeyOf(token: string): string
    requires token != []
  {
    SplitToken(token).value.0
  }

  /** A token whose key is none of the five leaves the locals as they are, whatever its value. */
  lemma UnknownKeyIgnored(f: Fields, token: string, key: string, value: string)
    requires SplitToken(token) == Some((key, value)) && key !in FieldKeys
    ensures ApplyToken(f, token) == Some(f)
  {
    ApplySplit(f, token, key, value);
    ConvertUnknown(key, value);
  }

  /** The if-chain falls through for any other key. */
  lemma ConvertUnknown(key: string, value: string)
    requires key !in FieldKeys
    ensures Convert(key, value) == Some(NoLocal)
  {
  }

  /** Which local a setting assigns; 5 for none. */
  function Local(s: Setting): nat
  {
    match s
    case IdTo(_) => 0
    case DescriptionTo(_) => 1
    case StatusTo(_) => 2
    case CreatedAtTo(_) => 3
    case UpdatedAtTo(_) => 4
    case NoLocal => 5
  }

  /** Which local a key assigns; 5 for none. */
  function KeyLocal(key: string): (r: nat)
    ensures r < 5 <==> key in FieldKeys
  {
    if key == "id" then 0
    else if key == "description" then 1
    else if key == "status" then 2
    else if key == "createdAt" then 3
    else if key == "updatedAt" then 4
    else 5
  }

  /** The key alone decides which local is assigned. */
  lemma ConvertLocal(key: string, value: string)
    requires Convert(key, value).Some?
    ensures Local(Convert(key, value).value) == KeyLocal(key)
  {
  }

  /** Two different keys assign different locals, unless neither assigns any. */
  lemma KeyLocalInjective(a: string, b: string)
    requires a != b && KeyLocal(a) == KeyLocal(b)
    ensures KeyLocal(a) == 5
  {
  }

  /** Assignments to different locals commute. */
  lemma AssignCommutes(f: Fields, a: Setting, b: Setting)
    requires Local(a) != Local(b) || Local(a) == 5
    ensures Assign(Assign(f, a), b) == Assign(Assign(f, b), a)
  {
  }

  /** Applying one field then the other. */
  function Then(o: Option<Fields>, key: string, value: string): Option<Fields>
  {
    match o
    case None => None
    case Some(g) => ApplyField(g, key, value)
  }

  /** Whether a field fails depends only on its key and value, and two different keys set different locals. */
  lemma FieldsCommute(f: Fields, ka: string, va: string, kb: string, vb: string)
    requires ka != kb
    ensures Then(ApplyField(f, ka, va), kb, vb) == Then(ApplyField(f, kb, vb), ka, va)
  {
    var ca := Convert(ka, va);
    var cb := Convert(kb, vb);
    if ca.Some? && cb.Some? {
      ConvertLocal(ka, va);
      ConvertLocal(kb, vb);
      if KeyLocal(ka) == KeyLocal(kb) {
        KeyLocalInjective(ka, kb);
      }
      AssignCommutes(f, ca.value, cb.value);
    }
  }

  /** Setting two different locals, in either order, gives the same locals, or fails either way. */
  lemma ApplyCommutes(f: Fields, a: string, b: string)
    requires a != [] && b != [] && KeyOf(a) != KeyOf(b)
    ensures ApplyTokens(f, [a, b]) == ApplyTokens(f, [b, a])
  {
    var (ka, va) := SplitToken(a).value;
    var (kb, vb) := SplitToken(b).value;
    FieldsCommute(f, ka, va, kb, vb);
    TwoTokens(f, a, ka, va, b, kb, vb);
    TwoTokens(f, b, kb, vb, a, ka, va);
  }

  /** Two tokens applied in turn. */
  lemma TwoTokens(f: Fields, a: string, ka: string, va: string, b: string, kb: string, vb: string)
    requires SplitToken(a) == Some((ka, va)) && SplitToken(b) == Some((kb, vb))
    ensures ApplyTokens(f, [a, b]) == Then(ApplyField(f, ka, va), kb, vb)
  {
    ApplySplit(f, a, ka, va);
    match ApplyToken(f, a) {
      case None =>
        ApplyTokensFail(f, a, [b]);
        assert [a] + [b] == [a, b];
      case Some(g) =>
        ApplySplit(g, b, kb, vb);
        ApplyTokensCons(f, a, [b], g);
        assert [a] + [b] == [a, b];
        ApplyTokensOne(g, b);
    }
  }

  /** A token that raises an exception ends the record. */
  lemma ApplyTokensFail(f: Fields, a: string, rest: seq<string>)
    requires ApplyToken(f, a).None?
    ensures ApplyTokens(f, [a] + rest) == None
  {
  }

  /** A single token. */
  lemma ApplyTokensOne(f: Fields, a: string)
    ensures ApplyTokens(f, [a]) == ApplyToken(f, a)
  {
    assert [a][1..] == [];
  }

  /** The tokens of a concatenation: the second part starts from what the first leaves. */
  lemma {:induction false} ApplyTokensAppend(f: Fields, xs: seq<string>, ys: seq<string>)
    ensures ApplyTokens(f, xs + ys) == match ApplyTokens(f, xs) case None => None case Some(g) => ApplyTokens(g, ys)
    decreases |xs|
  {
    if xs == [] {
      assert xs + ys == ys;
    } else {
      assert xs + ys == [xs[0]] + (xs[1..] + ys);
      assert xs == [xs[0]] + xs[1..];
      if ApplyToken(f, xs[0]).None? {
        ApplyTokensFail(f, xs[0], xs[1..] + ys);
        ApplyTokensFail(f, xs[0], xs[1..]);
      } else {
        var g := ApplyToken(f, xs[0]).value;
        ApplyTokensCons(f, xs[0], xs[1..] + ys, g);
        ApplyTokensCons(f, xs[0], xs[1..], g);
        ApplyTokensAppend(g, xs[1..], ys);
      }
    }
  }

  /** Swapping two neighbouring tokens with different keys does not change what the record sets. */
  lemma SwapTokens(f: Fields, pre: seq<string>, a: string, b: string, post: seq<string>)
    requires a != [] && b != [] && KeyOf(a) != KeyOf(b)
    ensures ApplyTokens(f, pre + [a, b] + post) == ApplyTokens(f, pre + [b, a] + post)
  {
    Regroup(pre, a, b, post);
    Regroup(pre, b, a, post);
    SwapAfter(f, pre, a, b, post);
  }

  /** The two tokens, split off one by one. */
  lemma Regroup(pre: seq<string>, a: string, b: string, post: seq<string>)
    ensures pre + [a, b] + post == pre + ([a] + ([b] + post))
  {
  }

  /** The swap, after whatever the tokens before it leave. */
  lemma SwapAfter(f: Fields, pre: seq<string>, a: string, b: string, post: seq<string>)
    requires a != [] && b != [] && KeyOf(a) != KeyOf(b)
    ensures ApplyTokens(f, pre + ([a] + ([b] + post))) == ApplyTokens(f, pre + ([b] + ([a] + post)))
  {
    ApplyTokensAppend(f, pre, [a] + ([b] + post));
    ApplyTokensAppend(f, pre, [b] + ([a] + post));
    if ApplyTokens(f, pre).Some? {
      SwapFront(ApplyTokens(f, pre).value, a, b, post);
    }
  }

  /** The swap at the front of the tokens. */
  lemma SwapFront(f: Fields, a: string, b: string, post: seq<string>)
    requires a != [] && b != [] && KeyOf(a) != KeyOf(b)
    ensures ApplyTokens(f, [a] + ([b] + post)) == ApplyTokens(f, [b] + ([a] + post))
  {
    ApplyCommutes(f, a, b);
    ApplyPair(f, a, b, post);
    ApplyPair(f, b, a, post);
  }

  /** Two tokens, then the rest: the rest starts from what the two leave. */
  lemma ApplyPair(f: Fields, a: string, b: string, post: seq<string>)
    ensures ApplyTokens(f, [a] + ([b] + post)) ==
      match ApplyTokens(f, [a, b]) case None => None case Some(h) => ApplyTokens(h, post)
  {
    match ApplyToken(f, a) {
      case None =>
        ApplyTokensFail(f, a, [b] + post);
        ApplyTokensFail(f, a, [b]);
        assert [a] + [b] == [a, b];
      case Some(g) =>
        ApplyTokensCons(f, a, [b] + post, g);
        ApplyTokensCons(f, a, [b], g);
        assert [a] + [b] == [a, b];
        ApplyTokensOne(g, b);
        match ApplyToken(g, b) {
          case None =>
            ApplyTokensFail(g, b, post);
          case Some(h) =>
            ApplyTokensCons(g, b, post, h);
        }
    }
  }

  /** So the order of the members within a record does not matter, as long as no key repeats next to its swap. */
  lemma FieldOrderIrrelevant(text1: string, text2: string, pre: seq<string>, a: string, b: string, post: seq<string>)
    requires a != [] && b != [] && KeyOf(a) != KeyOf(b)
    requires Tokens(text1) == pre + [a, b] + post && Tokens(text2) == pre + [b, a] + post
    ensures ParseTask(text1) == ParseTask(text2)
  {
    SwapTokens(Unset, pre, a, b, post);
  }

  /** Joining five members with commas. */
  lemma JoinFive(a: string, b: string, c: string, d: string, e: string)
    ensures Join([a, b, c, d, e], ",") == a + "," + b + "," + c + "," + d + "," + e
  {
    assert [d, e][1..] == [e];
    assert Join([d, e], ",") == d + "," + e;
    assert [c, d, e][1..] == [d, e];
    assert Join([c, d, e], ",") == c + "," + (d + "," + e);
    assert [b, c, d, e][1..] == [c, d, e];
    assert Join([b, c, d, e], ",") == b + "," + (c + "," + (d + "," + e));
    assert [a, b, c, d, e][1..] == [b, c, d, e];
  }

  /**
   * The text toJSON writes for any task: the five members in their order,
   * separated by commas, the numbers in decimal, the description between
   * quotes as it is and the status as its key.
   */
  lemma ToJSONText(t: Task)
    ensures t.ToJSON() == "{\"id\":" + IntToString(t.id) + ",\"description\":\"" + t.description
      + "\",\"status\":\"" + StatusToKey(t.status) + "\",\"createdAt\":" + IntToString(t.createdAt)
      + ",\"updatedAt\":" + IntToString(t.updatedAt) + "}"
  {
    var id, key, created, updated := IntToString(t.id), StatusToKey(t.status), IntToString(t.createdAt), IntToString(t.updatedAt);
    MembersOf(t, id, key, created, updated);
    var ms := t.Members();
    JoinFive(ms[0], ms[1], ms[2], ms[3], ms[4]);
    RecordRegroup(id, t.description, key, created, updated);
  }

  /** Regrouping the record of five members into one run of text. */
  lemma RecordRegroup(id: string, description: string, key: string, created: string, updated: string)
    ensures "{" + (("\"id\":" + id) + "," + ("\"description\":\"" + description + "\"") + ","
      + ("\"status\":\"" + key + "\"") + "," + ("\"createdAt\":" + created) + "," + ("\"updatedAt\":" + updated)) + "}"
      == "{\"id\":" + id + ",\"description\":\"" + description + "\",\"status\":\"" + key
      + "\",\"createdAt\":" + created + ",\"updatedAt\":" + updated + "}"
  {
    ConcatRegroup("{", "\"id\":", id, ",", "\"description\":\"", description, "\"", "\"status\":\"", key,
      "\"createdAt\":", created, "\"updatedAt\":", updated, "}");
    FormatPieces();
  }

  /** Thirteen pieces joined one way and the other. */
  lemma ConcatRegroup(o: string, p0: string, id: string, c: string, p1: string, description: string, q: string,
                      p2: string, key: string, p3: string, created: string, p4: string, updated: string, close: string)
    ensures o + ((p0 + id) + c + (p1 + description + q) + c + (p2 + key + q) + c + (p3 + created) + c + (p4 + updated)) + close
      == (o + p0) + id + (c + p1) + description + (q + c + p2) + key + (q + c + p3) + created + (c + p4) + updated + close
  {
  }

  /** The literal runs of the toJSON format string, from the pieces the members are written with. */
  lemma FormatPieces()
    ensures "{" + "\"id\":" == "{\"id\":"
    ensures "," + "\"description\":\"" == ",\"description\":\""
    ensures "\"" + "," + "\"status\":\"" == "\",\"status\":\""
    ensures "\"" + "," + "\"createdAt\":" == "\",\"createdAt\":"
    ensures "," + "\"updatedAt\":" == ",\"updatedAt\":"
  {
  }

  /** A store of one task is written as that task's record in brackets. */
  lemma SaveSingle(t: Task)
    ensures SaveText(map[t.id := t]) == "[" + t.ToJSON() + "]"
  {
    SingleKey(t.id);
    assert OrderedTasks(map[t.id := t]) == [t];
    assert ToJSONs([t]) == [t.ToJSON()];
  }

  /** The members of the seed task, as toJSON writes them. */
  lemma SeedMembers()
    ensures SeedTask.Members() ==
      ["\"id\":1", "\"description\":\"Created Store\"", "\"status\":\"todo\"", "\"createdAt\":0", "\"updatedAt\":0"]
  {
    SeedNumbers();
    MembersOf(SeedTask, "1", "todo", "0", "0");
    assert "\"id\":" + "1" == "\"id\":1";
    assert "\"description\":\"" + "Created Store" + "\"" == "\"description\":\"Created Store\"";
    assert "\"status\":\"" + "todo" + "\"" == "\"status\":\"todo\"";
    assert "\"createdAt\":" + "0" == "\"createdAt\":0";
    assert "\"updatedAt\":" + "0" == "\"updatedAt\":0";
  }

  /** The numbers and the status key of the seed task as toJSON writes them. */
  lemma SeedNumbers()
    ensures IntToString(1) == "1" && IntToString(0) == "0" && StatusToKey(Todo) == "todo"
  {
    assert DigitChar(1) == '1' && DigitChar(0) == '0';
  }

  /** The members of a task, given how its numbers and its status are written. */
  lemma MembersOf(t: Task, id: string, status: string, createdAt: string, updatedAt: string)
    requires IntToString(t.id) == id && StatusToKey(t.status) == status
    requires IntToString(t.createdAt) == createdAt && IntToString(t.updatedAt) == updatedAt
    ensures t.Members() == ["\"id\":" + id, "\"description\":\"" + t.description + "\"",
      "\"status\":\"" + status + "\"", "\"createdAt\":" + createdAt, "\"updatedAt\":" + updatedAt]
  {
  }

  /** Regrouping the bracketed record. */
  lemma SeedRegroup(a: string, b: string, c: string, d: string, e: string)
    ensures "[" + ("{" + (a + "," + b + "," + c + "," + d + "," + e) + "}") + "]" ==
      "[{" + a + "," + b + "," + c + "," + d + "," + e + "}]"
  {
  }

  /** The stored seed is the text saveTasksToStore writes for the single seed task. */
  lemma SeedIsSaved()
    ensures SeedText == SaveText(map[1 := SeedTask])
  {
    SaveSingle(SeedTask);
    SeedMembers();
    var ms := SeedTask.Members();
    JoinFive(ms[0], ms[1], ms[2], ms[3], ms[4]);
    SeedRegroup(ms[0], ms[1], ms[2], ms[3], ms[4]);
  }

  /** A one-key map is visited at that key only. */
  lemma SingleKey(k: int)
    ensures SortedKeys({k}) == [k]
  {
  }

  /** Loading the seed into an empty manager gives the single seed task. */
  lemma SeedLoads()
    ensures Load(map[], ReadStore(None)) == Loaded(map[1 := SeedTask], true)
  {
    var m := map[1 := SeedTask];
    SeedIsSaved();
    SeedStorable();
    SaveLoadRoundTrip(m);
    assert ReadStore(None) == ReadStore(Some(SaveText(m)));
  }

  /** The seed task can be stored. */
  lemma SeedStorable()
    ensures Storable(map[1 := SeedTask])
  {
    assert StorableTask(SeedTask);
  }
}
