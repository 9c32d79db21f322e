/**
 * The bot's to-do commands, run on the `todos` array of the sender's user document:
 * `todo add <task>` appends a task, `todo list` replies with the numbered list, and `done <n>`
 * marks task `n` as done. Any other text is ignored.
 */
module TodoCommands {
  import opened Wrappers
  import opened JsText
  import opened Json
  import opened MockFirestore

  /** What the handler does in the chat: nothing, one reply, or an exception before any reply. */
  datatype Reply = Silent | Says(text: string) | Throws

  /** The reply to one command, and the list written back with `set({ todos }, { merge: true })`, if any. */
  datatype Outcome = Outcome(reply: Reply, write: Option<seq<Json>>)

  const AddPrefix: string := "todo add "
  const ListCommand: string := "todo list"
  const DonePrefix: string := "done "

  const DoneMark: string := "\U{2714}\U{FE0F}"
  const OpenMark: string := "\U{274C}"
  const ListHeader: string := "\U{1F4DD} Your To-Do List:"
  const NoTasks: string := "\U{1F4DD} No tasks."
  const InvalidNumber: string := "\U{26A0}\U{FE0F} Invalid task number."

  function AddedText(task: string): string {
    "\U{2705} Added task: " + task
  }

  function MarkedText(num: nat): string {
    "\U{1F44F} Marked task " + NatToDecimal(num) + " as done!"
  }

  /** The three commands; any other text is ignored. */
  predicate IsCommand(text: string) {
    StartsWith(text, AddPrefix) || text == ListCommand || StartsWith(text, DonePrefix)
  }

  // ---------------------------------------------------------------- the stored list

  /**
   * `userDoc.exists ? userDoc.data().todos || [] : []`: the stored array, or `[]` for a missing
   * document or a missing or falsy field. `None` stands for a truthy `todos` that is not an array.
   */
  function LoadedTodos(stored: Option<Doc>): (r: Option<seq<Json>>)
    ensures stored.None? ==> r == Some([])
    ensures stored.Some? && "todos" in stored.value && stored.value["todos"].JArr? ==> r == Some(stored.value["todos"].items)
    ensures stored.Some? && ("todos" !in stored.value || !Truthy(stored.value["todos"])) ==> r == Some([])
  {
    match stored
    case None => Some([])
    case Some(doc) =>
      match Or(Get(JObj(doc), "todos"), Some(JArr([]))).value
      case JArr(items) => Some(items)
      case _ => None
  }

  /** The document `{ todos }` that a command writes. */
  function TodosDoc(todos: seq<Json>): Doc {
    map["todos" := JArr(todos)]
  }

  /** The `users` collection after `set({ todos }, { merge: true })` on document `phone`, when there is a write. */
  function Written(c: map<string, Doc>, phone: string, write: Option<seq<Json>>): map<string, Doc> {
    match write
    case None => c
    case Some(todos) => c[phone := if phone in c then Merged(c[phone], TodosDoc(todos)) else TodosDoc(todos)]
  }

  /** The `users` collection after the command `text` from `phone`. */
  function AfterCommand(c: map<string, Doc>, phone: string, text: string): map<string, Doc> {
    Written(c, phone, TodoCommand(LoadedTodos(StoredDoc(c, phone)), text).write)
  }

  /** The document stored under `phone`, if any. */
  function StoredDoc(c: map<string, Doc>, phone: string): Option<Doc> {
    if phone in c then Some(c[phone]) else None
  }

  // ---------------------------------------------------------------- the commands

  /** `{ task, done: false }`. */
  function NewTask(task: string): Json {
    JObj(map["task" := JStr(task), "done" := JBool(false)])
  }

  /** `t.done = true`: an object gains or overwrites `done`; on a primitive the assignment has no effect. */
  function MarkDone(t: Json): (r: Json)
    ensures Truthy(t) ==> Truthy(r)
  {
    if t.JObj? then JObj(t.fields["done" := JBool(true)]) else t
  }

  /** `${n}. ${t.done ? "✔️" : "❌"} ${t.task}`. */
  function ItemLine(n: nat, t: Json): string {
    NatToDecimal(n) + ". " + (if Present(Get(t, "done")) then DoneMark else OpenMark) + " " + Text(Get(t, "task"))
  }

  /** `todos.map((t, i) => ...)`: the lines of the list, numbered from 1. */
  function ItemLines(todos: seq<Json>): (lines: seq<string>)
    ensures |lines| == |todos|
  {
    if todos == [] then [] else ItemLines(todos[..|todos| - 1]) + [ItemLine(|todos|, todos[|todos| - 1])]
  }

  /** Line `i` of the list is item `i` under the number `i + 1`. */
  lemma {:induction false} ItemLinesAt(todos: seq<Json>)
    ensures forall i :: 0 <= i < |todos| ==> ItemLines(todos)[i] == ItemLine(i + 1, todos[i])
  {
    if todos != [] {
      var init := todos[..|todos| - 1];
      ItemLinesAt(init);
      forall i | 0 <= i < |todos| - 1
        ensures ItemLines(todos)[i] == ItemLine(i + 1, todos[i])
      {
        assert ItemLines(todos)[i] == ItemLines(init)[i];
        assert init[i] == todos[i];
      }
    }
  }

  /** The reply to `todo list`; reading `t.done` of a `null` item throws. */
  function ListReply(todos: seq<Json>): Reply {
    if |todos| == 0 then Says(NoTasks)
    else if JNull in todos then Throws
    else Says(ListHeader + "\n" + Join(ItemLines(todos), "\n"))
  }

  /** `parseInt(arg.trim())`; `None` is `NaN`. */
  function TaskNumber(arg: string): Option<int> {
    ParseInt(Trim(arg), true)
  }

  /** The index `num - 1` when `todos[num - 1]` exists and is truthy; `NaN - 1` and out-of-range indices read `undefined`. */
  function DoneTarget(todos: seq<Json>, num: Option<int>): Option<nat> {
    if num.Some? && 1 <= num.value <= |todos| && Truthy(todos[num.value - 1]) then Some(num.value - 1) else None
  }

  /** `todo add <arg>`: `todos.push({ task: arg.trim(), done: false })`. */
  function AddCommand(todos: seq<Json>, arg: string): Outcome {
    var task := Trim(arg);
    Outcome(Says(AddedText(task)), Some(todos + [NewTask(task)]))
  }

  /** `done <n>` with `num = parseInt(n.trim())`: mark the named item and write, or reply that the number is invalid. */
  function DoneCommand(todos: seq<Json>, num: Option<int>): Outcome {
    match DoneTarget(todos, num)
    case Some(i) => Outcome(Says(MarkedText(i + 1)), Some(todos[i := MarkDone(todos[i])]))
    case None => Outcome(Says(InvalidNumber), None)
  }

  /**
   * `handleTodoCommand` on the stored list: the commands are tried in order `todo add `, `todo list`,
   * `done `, and any other text is ignored. With a truthy `todos` that is not an array every
   * command throws.
   */
  function TodoCommand(stored: Option<seq<Json>>, text: string): Outcome {
    if !IsCommand(text) then Outcome(Silent, None)
    else if stored.None? then Outcome(Throws, None)
    else if StartsWith(text, AddPrefix) then AddCommand(stored.value, text[|AddPrefix|..])
    else if text == ListCommand then Outcome(ListReply(stored.value), None)
    else DoneCommand(stored.value, TaskNumber(text[|DonePrefix|..]))
  }

  /**
   * `handleTodoCommand(from, phone, text, sock)`: reads the user's document, runs the command on
   * its list, writes the changed list back with a merge and replies. Only document `phone` of
   * `users` changes.
   */
  method HandleTodoCommand(db: MockDb, phone: string, text: string) returns (reply: Reply)
    modifies db
    ensures "users" in db.store && db.store == old(db.store)["users" := db.store["users"]]
    ensures reply == TodoCommand(LoadedTodos(StoredDoc(Users(old(db.store)), phone)), text).reply
    ensures db.store["users"] == AfterCommand(Users(old(db.store)), phone, text)
  {
    var loaded := LoadTodos(db, phone);
    if loaded.None? {
      reply := if IsCommand(text) then Throws else Silent;
      NotArrayThrows(text);
      return;
    }
    var write;
    reply, write := RunCommand(loaded.value, text);
    WriteBack(db, phone, write);
  }

  /** `db.collection('users').doc(phone).get()` and the list read from the snapshot. */
  method LoadTodos(db: MockDb, phone: string) returns (loaded: Option<seq<Json>>)
    modifies db
    ensures "users" in db.store && db.store == old(db.store)["users" := Users(old(db.store))]
    ensures loaded == LoadedTodos(StoredDoc(Users(old(db.store)), phone))
  {
    db.Collection("users");
    var snap := db.Get("users", phone);
    loaded := LoadedTodos(if snap.found then snap.data else None);
  }

  /** `set({ todos }, { merge: true })` on document `phone` of `users`, when the command changed the list. */
  method WriteBack(db: MockDb, phone: string, write: Option<seq<Json>>)
    requires "users" in db.store
    modifies db
    ensures "users" in db.store && db.store == old(db.store)["users" := db.store["users"]]
    ensures db.store["users"] == Written(old(db.store)["users"], phone, write)
  {
    if write.Some? {
      db.Set("users", phone, TodosDoc(write.value), true);
    }
  }

  /** With a truthy `todos` that is not an array every command throws before any write. */
  lemma NotArrayThrows(text: string)
    ensures TodoCommand(None, text) == Outcome(if IsCommand(text) then Throws else Silent, None)
  {
  }

  /** The command run on the loaded list: `push` for `todo add `, the `done` assignment for `done `. */
  method RunCommand(todos: seq<Json>, text: string) returns (reply: Reply, write: Option<seq<Json>>)
    ensures Outcome(reply, write) == TodoCommand(Some(todos), text)
  {
    if StartsWith(text, AddPrefix) {
      reply, write := RunAdd(todos, text[|AddPrefix|..]);
    } else if text == ListCommand {
      reply, write := ListReply(todos), None;
    } else if StartsWith(text, DonePrefix) {
      reply, write := RunDone(todos, TaskNumber(text[|DonePrefix|..]));
    } else {
      reply, write := Silent, None;
    }
  }

  /** `todos.push(...)` for `todo add <arg>`. */
  method RunAdd(todos: seq<Json>, arg: string) returns (reply: Reply, write: Option<seq<Json>>)
    ensures Outcome(reply, write) == AddCommand(todos, arg)
  {
    var task := Trim(arg);
    var list := todos + [NewTask(task)];
    return Says(AddedText(task)), Some(list);
  }

  /** `todos[num - 1].done = true` for `done <n>`, after the range and truthiness check. */
  method RunDone(todos: seq<Json>, num: Option<int>) returns (reply: Reply, write: Option<seq<Json>>)
    ensures Outcome(reply, write) == DoneCommand(todos, num)
  {
    var target := DoneTarget(todos, num);
    if target.None? {
      return Says(InvalidNumber), None;
    }
    var i := target.value;
    var list := todos[i := MarkDone(todos[i])];
    return Says(MarkedText(i + 1)), Some(list);
  }

  // ---------------------------------------------------------------- properties

  /** Text that is none of the three commands is ignored: no reply and no write; a command on an array always replies. */
  lemma OtherTextIgnored(stored: Option<seq<Json>>, text: string)
    ensures TodoCommand(stored, text) == Outcome(Silent, None) <==> !IsCommand(text)
    ensures TodoCommand(stored, text).write.Some? ==> StartsWith(text, AddPrefix) || StartsWith(text, DonePrefix)
  {
  }

  /** `todo add <arg>` and `done <arg>` run their own command on the rest of the text. */
  lemma Dispatch(todos: seq<Json>, arg: string)
    ensures TodoCommand(Some(todos), AddPrefix + arg) == AddCommand(todos, arg)
    ensures TodoCommand(Some(todos), DonePrefix + arg) == DoneCommand(todos, TaskNumber(arg))
  {
    var add := AddPrefix + arg;
    assert StartsWith(add, AddPrefix) && add[|AddPrefix|..] == arg;
    var done := DonePrefix + arg;
    assert StartsWith(done, DonePrefix) && done[|DonePrefix|..] == arg;
    assert done[0] == 'd' && AddPrefix[0] == 't' && ListCommand[0] == 't';
  }

  /** `todo add X` appends one undone task `trim(X)` at the end and keeps every earlier item. */
  lemma AddAppends(todos: seq<Json>, x: string)
    ensures var out := AddCommand(todos, x);
      && out.reply == Says(AddedText(Trim(x)))
      && out.write.Some? && |out.write.value| == |todos| + 1
      && out.write.value[..|todos|] == todos
      && Get(out.write.value[|todos|], "task") == Some(JStr(Trim(x)))
      && Get(out.write.value[|todos|], "done") == Some(JBool(false))
  {
    var w := todos + [NewTask(Trim(x))];
    assert w[..|todos|] == todos;
  }

  /** The number in `done N` is read back as `N`. */
  lemma DoneNumber(n: nat)
    ensures TaskNumber(NatToDecimal(n)) == Some(n)
  {
    var d := NatToDecimal(n);
    assert IsDigit(d[0]) && IsDigit(d[|d| - 1]);
    TrimNoop(d);
    ParseIntOfDecimal(n, true);
  }

  /**
   * `done N` marks item `N - 1` and no other: every other item, and every other field of an
   * object item, stays as it was. It does so exactly when `1 <= N <= length` and item `N - 1` is
   * truthy; otherwise nothing is written and the reply is the invalid-number message.
   */
  lemma DoneMarksOnlyTarget(todos: seq<Json>, n: int)
    ensures var out := DoneCommand(todos, Some(n));
      if 1 <= n <= |todos| && Truthy(todos[n - 1]) then
        && out.reply == Says(MarkedText(n))
        && out.write.Some? && |out.write.value| == |todos|
        && (forall j :: 0 <= j < |todos| && j != n - 1 ==> out.write.value[j] == todos[j])
        && (!todos[n - 1].JObj? ==> out.write.value[n - 1] == todos[n - 1])
        && (todos[n - 1].JObj? ==> DoneFieldSet(todos[n - 1].fields, out.write.value[n - 1]))
      else out == Outcome(Says(InvalidNumber), None)
  {
  }

  /** `item` is the object `before` with `done` set to `true` and every other field as it was. */
  predicate DoneFieldSet(before: map<string, Json>, item: Json) {
    && item.JObj? && item.fields.Keys == before.Keys + {"done"}
    && item.fields["done"] == JBool(true)
    && (forall k :: k in before && k != "done" ==> item.fields[k] == before[k])
  }

  /** A `done` whose number is not a number changes nothing and replies that the number is invalid. */
  lemma DoneNaN(todos: seq<Json>)
    ensures DoneCommand(todos, None) == Outcome(Says(InvalidNumber), None)
  {
  }

  /** Marking the same item again leaves the list as it was and gives the same reply. */
  lemma DoneIdempotent(todos: seq<Json>, num: Option<int>)
    requires DoneCommand(todos, num).write.Some?
    ensures DoneCommand(DoneCommand(todos, num).write.value, num) == DoneCommand(todos, num)
  {
    var i := DoneTarget(todos, num).value;
    var w := todos[i := MarkDone(todos[i])];
    assert MarkDone(w[i]) == w[i];
    assert w[i := MarkDone(w[i])] == w;
  }

  /** `todo list` replies "No tasks" exactly when the list is empty. */
  lemma NoTasksWhenEmpty(todos: seq<Json>)
    ensures ListReply(todos) == Says(NoTasks) <==> todos == []
  {
    if todos != [] && JNull !in todos {
      var r := ListHeader + "\n" + Join(ItemLines(todos), "\n");
      assert r[2] == ListHeader[2] != NoTasks[2];
    }
  }

  /**
   * When no item is `null` and no task text holds a line break, the reply to `todo list` splits
   * into the header and one line per item, in list order, and line `k` reads back as the number `k`.
   */
  lemma ListReadsBack(todos: seq<Json>)
    requires todos != [] && JNull !in todos
    requires forall t :: t in todos ==> '\n' !in Text(Get(t, "task"))
    ensures ListReply(todos).Says?
    ensures var lines := SplitOn(ListReply(todos).text, '\n');
      && |lines| == |todos| + 1 && lines[0] == ListHeader
      && (forall k :: 1 <= k <= |todos| ==> lines[k] == ItemLine(k, todos[k - 1]) && ParseInt(lines[k], true) == Some(k))
  {
    ListSplits(todos);
    var lines := SplitOn(ListReply(todos).text, '\n');
    var items := ItemLines(todos);
    assert lines == [ListHeader] + items;
    ItemLinesAt(todos);
    forall k | 1 <= k <= |todos|
      ensures lines[k] == ItemLine(k, todos[k - 1]) && ParseInt(lines[k], true) == Some(k)
    {
      assert lines[k] == items[k - 1];
      ItemLineReadsBack(k, todos[k - 1]);
    }
  }

  /** The reply splits into the header and the item lines. */
  lemma ListSplits(todos: seq<Json>)
    requires todos != [] && JNull !in todos
    requires forall t :: t in todos ==> '\n' !in Text(Get(t, "task"))
    ensures ListReply(todos).Says? && SplitOn(ListReply(todos).text, '\n') == [ListHeader] + ItemLines(todos)
  {
    var items := ItemLines(todos);
    var parts := [ListHeader] + items;
    ItemLinesAt(todos);
    forall i | 0 <= i < |parts|
      ensures '\n' !in parts[i]
    {
      if i > 0 {
        assert todos[i - 1] in todos;
        ItemLineHasNoBreak(i, todos[i - 1]);
      }
    }
    JoinCons(ListHeader, items, "\n");
    JoinSplit(parts, '\n');
  }

  /** The number at the head of an item line reads back with `parseInt`. */
  lemma ItemLineReadsBack(k: nat, t: Json)
    requires k >= 1
    ensures ParseInt(ItemLine(k, t), true) == Some(k)
  {
    var rest := ". " + (if Present(Get(t, "done")) then DoneMark else OpenMark) + " " + Text(Get(t, "task"));
    assert ItemLine(k, t) == NatToDecimal(k) + rest;
    ParseIntOfDecimalPrefix(k, rest, true);
  }

  /** An item line has no line break when the task text has none. */
  lemma ItemLineHasNoBreak(n: nat, t: Json)
    requires '\n' !in Text(Get(t, "task"))
    ensures '\n' !in ItemLine(n, t)
  {
    var d := NatToDecimal(n);
    assert forall i :: 0 <= i < |d| ==> IsDigit(d[i]);
  }

  /** After `todo add X`, the list shows the earlier lines unchanged and one more undone line for `X` at the end. */
  lemma AddThenList(todos: seq<Json>, task: string)
    ensures ItemLines(todos + [NewTask(task)]) == ItemLines(todos) + [NatToDecimal(|todos| + 1) + ". " + OpenMark + " " + task]
  {
    var after := todos + [NewTask(task)];
    assert after[..|after| - 1] == todos;
    NewTaskLine(|todos| + 1, task);
  }

  /** A new task is listed as not done, with its text. */
  lemma NewTaskLine(n: nat, task: string)
    ensures ItemLine(n, NewTask(task)) == NatToDecimal(n) + ". " + OpenMark + " " + task
  {
    assert Get(NewTask(task), "done") == Some(JBool(false));
  }

  /** What a command writes is what the next command reads; no other user's document changes. */
  lemma WrittenReadsBack(c: map<string, Doc>, phone: string, todos: seq<Json>)
    ensures LoadedTodos(StoredDoc(Written(c, phone, Some(todos)), phone)) == Some(todos)
    ensures forall id :: id != phone ==> StoredDoc(Written(c, phone, Some(todos)), id) == StoredDoc(c, id)
  {
    if phone in c {
      MergedRules(c[phone], TodosDoc(todos));
    }
  }

  /** Sending the same `done N` twice leaves the store as the first one left it. */
  lemma DoneTwiceThroughStore(c: map<string, Doc>, phone: string, arg: string)
    ensures var text := DonePrefix + arg;
      AfterCommand(AfterCommand(c, phone, text), phone, text) == AfterCommand(c, phone, text)
  {
    var text := DonePrefix + arg;
    var w := TodoCommand(LoadedTodos(StoredDoc(c, phone)), text).write;
    DoneWriteStable(c, phone, arg);
    if w.Some? {
      WrittenTwice(c, phone, w.value);
    }
  }

  /** A second `done N` on the list a first one wrote writes that same list again. */
  lemma DoneWriteStable(c: map<string, Doc>, phone: string, arg: string)
    ensures var text := DonePrefix + arg;
      var w := TodoCommand(LoadedTodos(StoredDoc(c, phone)), text).write;
      w.Some? ==> TodoCommand(LoadedTodos(StoredDoc(Written(c, phone, w), phone)), text).write == w
  {
    var text := DonePrefix + arg;
    match LoadedTodos(StoredDoc(c, phone))
    case None =>
      NotArrayThrows(text);
    case Some(todos) =>
      Dispatch(todos, arg);
      var out := DoneCommand(todos, TaskNumber(arg));
      if out.write.Some? {
        DoneRewritesSame(c, phone, arg, todos, out.write.value);
      }
  }

  /** Marking the same task again on the list a first `done` wrote writes that same list. */
  lemma DoneRewritesSame(c: map<string, Doc>, phone: string, arg: string, todos: seq<Json>, w: seq<Json>)
    requires DoneCommand(todos, TaskNumber(arg)).write == Some(w)
    ensures TodoCommand(LoadedTodos(StoredDoc(Written(c, phone, Some(w)), phone)), DonePrefix + arg).write == Some(w)
  {
    WrittenReadsBack(c, phone, w);
    Dispatch(w, arg);
    DoneIdempotent(todos, TaskNumber(arg));
  }

  /** Writing the same list twice leaves the collection as one write left it. */
  lemma WrittenTwice(c: map<string, Doc>, phone: string, todos: seq<Json>)
    ensures Written(Written(c, phone, Some(todos)), phone, Some(todos)) == Written(c, phone, Some(todos))
  {
    var once := Written(c, phone, Some(todos));
    assert once[phone] == Merged(once[phone], TodosDoc(todos)) by {
      if phone in c {
        MergedIdempotent(c[phone], TodosDoc(todos));
      } else {
        MergedRules(TodosDoc(todos), TodosDoc(todos));
      }
    }
  }
}
