/**
 * The web backend's user endpoints over the `users` collection: registration, login, the profile
 * counts, replacing the schedule, and adding, editing and deleting todos. Each endpoint answers
 * with an HTTP status; a `TypeError` inside its `try` (a `push` or `findIndex` on a stored `todos`
 * that is not an array, or reading `id` of a `null` todo) is caught and answered with 500.
 */
module UserController {
  import opened Wrappers
  import opened JsText
  import opened Json
  import opened MockFirestore
  import TodoCommands

  const Ok := 200
  const Created := 201
  const BadRequest := 400
  const NotFound := 404
  const Conflict := 409
  const ServerError := 500

  /** The status an endpoint answers with, and the `users` collection it leaves. */
  datatype Handled = Handled(status: int, users: map<string, Doc>)

  /** `doc(phone)` stores under the property key `String(phone)`. */
  function DocId(phone: Json): string {
    ValueText(phone)
  }

  /** `data.field`, `undefined` when absent. */
  function Field(data: Doc, key: string): Option<Json> {
    Get(JObj(data), key)
  }

  /** `data.todos || []`, as the bot reads it; `None` when `todos` is a truthy value other than an array. */
  function StoredTodos(data: Doc): Option<seq<Json>> {
    TodoCommands.LoadedTodos(Some(data))
  }

  /** `update({ todos, updatedAt })` on the existing document `phone`. */
  function Saved(users: map<string, Doc>, phone: string, todos: seq<Json>, now: string): map<string, Doc>
    requires phone in users
  {
    users[phone := Merged(users[phone], map["todos" := JArr(todos), "updatedAt" := JStr(now)])]
  }

  /** Saving touches one record: it reads back the saved todos and keeps every other field. */
  lemma SavedRules(users: map<string, Doc>, phone: string, todos: seq<Json>, now: string)
    requires phone in users
    ensures var after := Saved(users, phone, todos, now);
      && after.Keys == users.Keys
      && (forall p :: p in users && p != phone ==> after[p] == users[p])
      && StoredTodos(after[phone]) == Some(todos)
      && Field(after[phone], "updatedAt") == Some(JStr(now))
      && forall k :: k in users[phone] && k != "todos" && k != "updatedAt" ==> after[phone][k] == users[phone][k]
  {
    MergedRules(users[phone], map["todos" := JArr(todos), "updatedAt" := JStr(now)]);
  }

  /** The profile's `todoCount` is the length of the list the todo endpoints work on. */
  lemma TodoCountIsStored(data: Doc)
    requires StoredTodos(data).Some?
    ensures CountOf(Field(data, "todos")) == Some(|StoredTodos(data).value|)
  {
  }

  // ---------------------------------------------------------------- registerUser, loginUser

  /** The record a registration stores: `{ email, phone, schedule: [], todos: [], createdAt, updatedAt }`. */
  function NewUser(email: Json, phone: Json, now: string): Doc {
    map["email" := email, "phone" := phone, "schedule" := JArr([]), "todos" := JArr([]),
        "createdAt" := JStr(now), "updatedAt" := JStr(now)]
  }

  /** `registerUser`: 400 without email or phone, 409 for a known phone, else the new record and 201. */
  function Registered(users: map<string, Doc>, email: Option<Json>, phone: Option<Json>, now: string): (r: Handled)
    ensures r.status == BadRequest <==> !Present(email) || !Present(phone)
    ensures r.status == Conflict <==> Present(email) && Present(phone) && DocId(phone.value) in users
    ensures r.status == Created <==> Present(email) && Present(phone) && DocId(phone.value) !in users
    ensures r.status != Created ==> r.users == users
    ensures r.status == Created ==>
      && DocId(phone.value) !in users
      && r.users.Keys == users.Keys + {DocId(phone.value)}
      && forall p :: p in users ==> r.users[p] == users[p]
  {
    if !Present(email) || !Present(phone) then Handled(BadRequest, users)
    else if DocId(phone.value) in users then Handled(Conflict, users)
    else Handled(Created, users[DocId(phone.value) := NewUser(email.value, phone.value, now)])
  }

  /** `registerUser`'s reply status, and the stored user when it succeeds. Nothing else changes; a rejected request does not touch the store. */
  method RegisterUser(db: MockDb, email: Option<Json>, phone: Option<Json>, now: string) returns (status: int)
    modifies db
    ensures status == BadRequest ==> db.store == old(db.store)
    ensures status != BadRequest ==> "users" in db.store && db.store == old(db.store)["users" := db.store["users"]]
    ensures Handled(status, Users(db.store)) == Registered(Users(old(db.store)), email, phone, now)
  {
    if !Present(email) || !Present(phone) {
      return BadRequest;
    }
    var id := DocId(phone.value);
    db.Collection("users");
    var snap := db.Get("users", id);
    if snap.found {
      return Conflict;
    }
    db.Set("users", id, NewUser(email.value, phone.value, now), false);
    return Created;
  }

  /** `loginUser`'s answer: the status, and the stored `phone` and `email` on success. */
  datatype LoginReply = LoginReply(status: int, phone: Option<Json>, email: Option<Json>)

  /** `loginUser`: 400 without a phone, 404 for an unknown phone, else 200 with the stored fields. */
  function LoggedIn(users: map<string, Doc>, phone: Option<Json>): LoginReply {
    if !Present(phone) then LoginReply(BadRequest, None, None)
    else if DocId(phone.value) !in users then LoginReply(NotFound, None, None)
    else
      var data := users[DocId(phone.value)];
      LoginReply(Ok, Field(data, "phone"), Field(data, "email"))
  }

  method LoginUser(db: MockDb, phone: Option<Json>) returns (reply: LoginReply)
    modifies db
    ensures db.store == old(db.store) || db.store == old(db.store)["users" := map[]]
    ensures reply == LoggedIn(Users(old(db.store)), phone)
  {
    if !Present(phone) {
      return LoginReply(BadRequest, None, None);
    }
    db.Collection("users");
    var snap := db.Get("users", DocId(phone.value));
    if !snap.found {
      return LoginReply(NotFound, None, None);
    }
    var data := snap.data.value;
    return LoginReply(Ok, Field(data, "phone"), Field(data, "email"));
  }

  // ---------------------------------------------------------------- getUserProfile

  /** `v.length`: arrays and strings have one; other values give `undefined`. */
  function LengthOf(v: Json): Option<int> {
    match v
    case JArr(items) => Some(|items|)
    case JStr(s) => Some(|s|)
    case _ => None
  }

  /** `userData.field ? userData.field.length : 0`. */
  function CountOf(v: Option<Json>): Option<int> {
    if Present(v) then LengthOf(v.value) else Some(0)
  }

  /** `getUserProfile`'s answer: the status and, on success, `scheduleCount` and `todoCount`. */
  datatype ProfileReply = ProfileReply(status: int, scheduleCount: Option<int>, todoCount: Option<int>)

  function ProfileOf(users: map<string, Doc>, phone: string): ProfileReply {
    if phone !in users then ProfileReply(NotFound, None, None)
    else
      var data := users[phone];
      ProfileReply(Ok, CountOf(Field(data, "schedule")), CountOf(Field(data, "todos")))
  }

  method GetUserProfile(db: MockDb, phone: string) returns (reply: ProfileReply)
    modifies db
    ensures db.store == old(db.store) || db.store == old(db.store)["users" := map[]]
    ensures reply == ProfileOf(Users(old(db.store)), phone)
  {
    db.Collection("users");
    var snap := db.Get("users", phone);
    if !snap.found {
      return ProfileReply(NotFound, None, None);
    }
    var data := snap.data.value;
    return ProfileReply(Ok, CountOf(Field(data, "schedule")), CountOf(Field(data, "todos")));
  }

  // ---------------------------------------------------------------- updateUserSchedule

  /** `updateUserSchedule`: 400 unless the schedule is an array (checked before any lookup), 404 for an unknown user, else the schedule is replaced. */
  function ScheduleUpdated(users: map<string, Doc>, phone: string, schedule: Option<Json>, now: string): (r: Handled)
    ensures r.status == BadRequest <==> !Present(schedule) || !schedule.value.JArr?
    ensures r.status == NotFound <==> Present(schedule) && schedule.value.JArr? && phone !in users
    ensures r.status == Ok <==> Present(schedule) && schedule.value.JArr? && phone in users
    ensures r.status != Ok ==> r.users == users
    ensures r.status == Ok ==>
      && phone in users && phone in r.users
      && r.users.Keys == users.Keys
      && (forall p :: p in users && p != phone ==> r.users[p] == users[p])
      && r.users[phone].Keys == users[phone].Keys + {"schedule", "updatedAt"}
      && Field(r.users[phone], "schedule") == schedule
      && forall k :: k in users[phone] && k != "schedule" && k != "updatedAt" ==> r.users[phone][k] == users[phone][k]
  {
    if !Present(schedule) || !schedule.value.JArr? then Handled(BadRequest, users)
    else if phone !in users then Handled(NotFound, users)
    else
      MergedRules(users[phone], map["schedule" := schedule.value, "updatedAt" := JStr(now)]);
      Handled(Ok, users[phone := Merged(users[phone], map["schedule" := schedule.value, "updatedAt" := JStr(now)])])
  }

  method UpdateUserSchedule(db: MockDb, phone: string, schedule: Option<Json>, now: string) returns (status: int)
    modifies db
    ensures status == BadRequest ==> db.store == old(db.store)
    ensures status != BadRequest ==> "users" in db.store && db.store == old(db.store)["users" := db.store["users"]]
    ensures Handled(status, Users(db.store)) == ScheduleUpdated(Users(old(db.store)), phone, schedule, now)
  {
    if !Present(schedule) || !schedule.value.JArr? {
      return BadRequest;
    }
    db.Collection("users");
    var snap := db.Get("users", phone);
    if !snap.found {
      return NotFound;
    }
    db.Update("users", phone, map["schedule" := schedule.value, "updatedAt" := JStr(now)]);
    return Ok;
  }

  // ---------------------------------------------------------------- addTodo

  /** `{ id: Date.now().toString(), task, done: false, createdAt }`. */
  function NewTodo(task: Json, nowMs: nat, now: string): Json {
    JObj(map["id" := JStr(NatToDecimal(nowMs)), "task" := task, "done" := JBool(false), "createdAt" := JStr(now)])
  }

  /** `addTodo`: 400 without a task, 404 for an unknown user, else the new todo is pushed and 201. */
  function TodoAdded(users: map<string, Doc>, phone: string, task: Option<Json>, nowMs: nat, now: string): (r: Handled)
    ensures r.status == BadRequest <==> !Present(task)
    ensures r.status == NotFound <==> Present(task) && phone !in users
    ensures r.status == Created <==> Present(task) && phone in users && StoredTodos(users[phone]).Some?
    ensures r.status == ServerError <==> Present(task) && phone in users && StoredTodos(users[phone]).None?
    ensures r.status != Created ==> r.users == users
    ensures r.status == Created ==>
      && phone in users && StoredTodos(users[phone]).Some?
      && r.users.Keys == users.Keys
      && (forall p :: p in users && p != phone ==> r.users[p] == users[p])
      && StoredTodos(r.users[phone]) == Some(StoredTodos(users[phone]).value + [NewTodo(task.value, nowMs, now)])
  {
    if !Present(task) then Handled(BadRequest, users)
    else if phone !in users then Handled(NotFound, users)
    else
      match StoredTodos(users[phone])
      case None => Handled(ServerError, users)
      case Some(todos) =>
        SavedRules(users, phone, todos + [NewTodo(task.value, nowMs, now)], now);
        Handled(Created, Saved(users, phone, todos + [NewTodo(task.value, nowMs, now)], now))
  }

  method AddTodo(db: MockDb, phone: string, task: Option<Json>, nowMs: nat, now: string) returns (status: int)
    modifies db
    ensures status == BadRequest ==> db.store == old(db.store)
    ensures status != BadRequest ==> "users" in db.store && db.store == old(db.store)["users" := db.store["users"]]
    ensures Handled(status, Users(db.store)) == TodoAdded(Users(old(db.store)), phone, task, nowMs, now)
  {
    if !Present(task) {
      return BadRequest;
    }
    db.Collection("users");
    var snap := db.Get("users", phone);
    if !snap.found {
      return NotFound;
    }
    var stored := StoredTodos(snap.data.value);
    if stored.None? {
      return ServerError;
    }
    var todos := stored.value;
    todos := todos + [NewTodo(task.value, nowMs, now)];
    db.Update("users", phone, map["todos" := JArr(todos), "updatedAt" := JStr(now)]);
    return Created;
  }

  // ---------------------------------------------------------------- updateTodo, deleteTodo

  /** `todos.findIndex(todo => todo.id === todoId)`: the first match, none, or a `null` item reached first. */
  datatype Search = Found(index: nat) | Missing | Fails

  /** `todo.id === todoId`. */
  predicate HasId(t: Json, id: string) {
    Get(t, "id") == Some(JStr(id))
  }

  function FindTodo(todos: seq<Json>, id: string): (r: Search)
    ensures r.Found? ==> r.index < |todos| && HasId(todos[r.index], id)
    ensures r.Found? ==> forall j :: 0 <= j < r.index ==> !todos[j].JNull? && !HasId(todos[j], id)
    ensures r.Missing? <==> forall j :: 0 <= j < |todos| ==> !todos[j].JNull? && !HasId(todos[j], id)
    ensures r.Fails? ==> JNull in todos
  {
    if todos == [] then Missing
    else if todos[0].JNull? then Fails
    else if HasId(todos[0], id) then Found(0)
    else
      match FindTodo(todos[1..], id)
      case Found(i) => Found(i + 1)
      case Missing => Missing
      case Fails => Fails
  }

  /** The edits of `updateTodo` on the found todo: `task` and `done` when given, and `updatedAt`. */
  function Edited(t: Json, task: Option<Json>, done: Option<Json>, now: string): Json {
    if !t.JObj? then t
    else
      var withTask := if task.Some? then t.fields["task" := task.value] else t.fields;
      var withDone := if done.Some? then withTask["done" := done.value] else withTask;
      JObj(withDone["updatedAt" := JStr(now)])
  }

  /** `updateTodo`: 404 for an unknown user or todo, else the first todo with the id is edited in place. */
  function TodoUpdated(users: map<string, Doc>, phone: string, id: string, task: Option<Json>, done: Option<Json>, now: string): (r: Handled)
    ensures r.status == NotFound <==>
      phone !in users || (StoredTodos(users[phone]).Some? && FindTodo(StoredTodos(users[phone]).value, id).Missing?)
    ensures r.status == Ok <==>
      phone in users && StoredTodos(users[phone]).Some? && FindTodo(StoredTodos(users[phone]).value, id).Found?
    ensures r.status == ServerError <==>
      phone in users && (StoredTodos(users[phone]).None? || FindTodo(StoredTodos(users[phone]).value, id).Fails?)
    ensures r.status != Ok ==> r.users == users
    ensures r.users.Keys == users.Keys
    ensures forall p :: p in users && p != phone ==> r.users[p] == users[p]
  {
    if phone !in users then Handled(NotFound, users)
    else
      match StoredTodos(users[phone])
      case None => Handled(ServerError, users)
      case Some(todos) =>
        match FindTodo(todos, id)
        case Fails => Handled(ServerError, users)
        case Missing => Handled(NotFound, users)
        case Found(i) => Handled(Ok, Saved(users, phone, todos[i := Edited(todos[i], task, done, now)], now))
  }

  method UpdateTodo(db: MockDb, phone: string, id: string, task: Option<Json>, done: Option<Json>, now: string) returns (status: int)
    modifies db
    ensures "users" in db.store && db.store == old(db.store)["users" := db.store["users"]]
    ensures Handled(status, Users(db.store)) == TodoUpdated(Users(old(db.store)), phone, id, task, done, now)
  {
    db.Collection("users");
    var snap := db.Get("users", phone);
    if !snap.found {
      return NotFound;
    }
    var stored := StoredTodos(snap.data.value);
    if stored.None? {
      return ServerError;
    }
    var todos := stored.value;
    var search := FindTodo(todos, id);
    if search.Fails? {
      return ServerError;
    }
    if search.Missing? {
      return NotFound;
    }
    var i := search.index;
    var fields := todos[i].fields;
    if task.Some? {
      fields := fields["task" := task.value];
    }
    if done.Some? {
      fields := fields["done" := done.value];
    }
    fields := fields["updatedAt" := JStr(now)];
    todos := todos[i := JObj(fields)];
    db.Update("users", phone, map["todos" := JArr(todos), "updatedAt" := JStr(now)]);
    return Ok;
  }

  /** `deleteTodo`: 404 for an unknown user or todo, else the first todo with the id is spliced out. */
  function TodoDeleted(users: map<string, Doc>, phone: string, id: string, now: string): (r: Handled)
    ensures r.status == NotFound <==>
      phone !in users || (StoredTodos(users[phone]).Some? && FindTodo(StoredTodos(users[phone]).value, id).Missing?)
    ensures r.status == Ok <==>
      phone in users && StoredTodos(users[phone]).Some? && FindTodo(StoredTodos(users[phone]).value, id).Found?
    ensures r.status == ServerError <==>
      phone in users && (StoredTodos(users[phone]).None? || FindTodo(StoredTodos(users[phone]).value, id).Fails?)
    ensures r.status != Ok ==> r.users == users
    ensures r.users.Keys == users.Keys
    ensures forall p :: p in users && p != phone ==> r.users[p] == users[p]
  {
    if phone !in users then Handled(NotFound, users)
    else
      match StoredTodos(users[phone])
      case None => Handled(ServerError, users)
      case Some(todos) =>
        match FindTodo(todos, id)
        case Fails => Handled(ServerError, users)
        case Missing => Handled(NotFound, users)
        case Found(i) => Handled(Ok, Saved(users, phone, todos[..i] + todos[i + 1..], now))
  }

  method DeleteTodo(db: MockDb, phone: string, id: string, now: string) returns (status: int)
    modifies db
    ensures "users" in db.store && db.store == old(db.store)["users" := db.store["users"]]
    ensures Handled(status, Users(db.store)) == TodoDeleted(Users(old(db.store)), phone, id, now)
  {
    db.Collection("users");
    var snap := db.Get("users", phone);
    if !snap.found {
      return NotFound;
    }
    var stored := StoredTodos(snap.data.value);
    if stored.None? {
      return ServerError;
    }
    var todos := stored.value;
    var search := FindTodo(todos, id);
    if search.Fails? {
      return ServerError;
    }
    if search.Missing? {
      return NotFound;
    }
    var i := search.index;
    todos := todos[..i] + todos[i + 1..];
    db.Update("users", phone, map["todos" := JArr(todos), "updatedAt" := JStr(now)]);
    return Ok;
  }

  // ---------------------------------------------------------------- properties across endpoints

  /** A registered user can log in with the same phone and gets back what was stored. */
  lemma RegisterThenLogin(users: map<string, Doc>, email: Option<Json>, phone: Option<Json>, now: string)
    requires Registered(users, email, phone, now).status == Created
    ensures LoggedIn(Registered(users, email, phone, now).users, phone) == LoginReply(Ok, phone, email)
  {
  }

  /** A new user starts with an empty schedule and no todos. */
  lemma RegisterThenProfile(users: map<string, Doc>, email: Option<Json>, phone: Option<Json>, now: string)
    requires Registered(users, email, phone, now).status == Created
    ensures ProfileOf(Registered(users, email, phone, now).users, DocId(phone.value)) == ProfileReply(Ok, Some(0), Some(0))
  {
  }

  /** Registering the same phone again is a conflict and changes nothing. */
  lemma RegisterOnce(users: map<string, Doc>, email: Option<Json>, phone: Option<Json>, now: string, later: string)
    requires Registered(users, email, phone, now).status == Created
    ensures var again := Registered(Registered(users, email, phone, now).users, email, phone, later);
      again.status == Conflict && again.users == Registered(users, email, phone, now).users
  {
  }

  /** After a schedule update the profile counts the new schedule's entries, and the todo count is kept. */
  lemma ScheduleThenProfile(users: map<string, Doc>, phone: string, schedule: Option<Json>, now: string)
    requires ScheduleUpdated(users, phone, schedule, now).status == Ok
    ensures var after := ProfileOf(ScheduleUpdated(users, phone, schedule, now).users, phone);
      && after.scheduleCount == Some(|schedule.value.items|)
      && after.todoCount == ProfileOf(users, phone).todoCount
  {
  }

  /** Adding a todo raises the profile's todo count by one. */
  lemma AddThenProfile(users: map<string, Doc>, phone: string, task: Option<Json>, nowMs: nat, now: string)
    requires TodoAdded(users, phone, task, nowMs, now).status == Created
    ensures ProfileOf(users, phone).todoCount.Some?
    ensures ProfileOf(TodoAdded(users, phone, task, nowMs, now).users, phone).todoCount
      == Some(ProfileOf(users, phone).todoCount.value + 1)
  {
    var after := TodoAdded(users, phone, task, nowMs, now).users;
    TodoCountIsStored(users[phone]);
    TodoCountIsStored(after[phone]);
  }

  /** The fields `updateTodo` writes, and those it keeps. */
  lemma EditedFields(t: Json, task: Option<Json>, done: Option<Json>, now: string)
    requires t.JObj?
    ensures var e := Edited(t, task, done, now);
      && e.JObj?
      && Get(e, "task") == (if task.Some? then task else Get(t, "task"))
      && Get(e, "done") == (if done.Some? then done else Get(t, "done"))
      && Get(e, "updatedAt") == Some(JStr(now))
      && forall k :: k in t.fields && k != "task" && k != "done" && k != "updatedAt" ==> e.fields[k] == t.fields[k]
  {
  }

  /**
   * `updateTodo` edits exactly the first todo with the id: the list keeps its length, every other
   * item is unchanged, the given fields are written, and the todo is still found under the same id.
   */
  lemma UpdateTodoRules(users: map<string, Doc>, phone: string, id: string, task: Option<Json>, done: Option<Json>, now: string)
    requires TodoUpdated(users, phone, id, task, done, now).status == Ok
    ensures phone in users && StoredTodos(users[phone]).Some?
    ensures var todos := StoredTodos(users[phone]).value;
      FindTodo(todos, id).Found? &&
      var i := FindTodo(todos, id).index;
      var after := StoredTodos(TodoUpdated(users, phone, id, task, done, now).users[phone]);
      && after.Some? && |after.value| == |todos|
      && (forall j :: 0 <= j < |todos| && j != i ==> after.value[j] == todos[j])
      && Get(after.value[i], "task") == (if task.Some? then task else Get(todos[i], "task"))
      && Get(after.value[i], "done") == (if done.Some? then done else Get(todos[i], "done"))
      && FindTodo(after.value, id) == Found(i)
  {
    var todos := StoredTodos(users[phone]).value;
    var i := FindTodo(todos, id).index;
    var edited := todos[i := Edited(todos[i], task, done, now)];
    SavedRules(users, phone, edited, now);
    EditedFields(todos[i], task, done, now);
    FindKept(todos, edited, id, i);
  }

  /** Replacing the first match by an item with the same id leaves the search result as it was. */
  lemma {:induction false} FindKept(todos: seq<Json>, edited: seq<Json>, id: string, i: nat)
    requires FindTodo(todos, id) == Found(i)
    requires |edited| == |todos| && HasId(edited[i], id)
    requires forall j :: 0 <= j < |todos| && j != i ==> edited[j] == todos[j]
    ensures FindTodo(edited, id) == Found(i)
  {
    if i > 0 {
      FindKept(todos[1..], edited[1..], id, i - 1);
    }
  }

  /**
   * `deleteTodo` removes exactly the first todo with the id and keeps the others in order.
   */
  lemma DeleteTodoRules(users: map<string, Doc>, phone: string, id: string, now: string)
    requires TodoDeleted(users, phone, id, now).status == Ok
    ensures phone in users && StoredTodos(users[phone]).Some?
    ensures var todos := StoredTodos(users[phone]).value;
      FindTodo(todos, id).Found? &&
      var i := FindTodo(todos, id).index;
      var after := StoredTodos(TodoDeleted(users, phone, id, now).users[phone]);
      && after == Some(todos[..i] + todos[i + 1..])
      && |after.value| == |todos| - 1
      && multiset(after.value) + multiset{todos[i]} == multiset(todos)
  {
    var todos := StoredTodos(users[phone]).value;
    var i := FindTodo(todos, id).index;
    SavedRules(users, phone, todos[..i] + todos[i + 1..], now);
    SpliceRemovesOne(todos, i);
  }

  /** `splice(i, 1)` removes one occurrence of the item at `i`. */
  lemma SpliceRemovesOne(todos: seq<Json>, i: nat)
    requires i < |todos|
    ensures multiset(todos[..i] + todos[i + 1..]) + multiset{todos[i]} == multiset(todos)
  {
    assert todos == todos[..i] + [todos[i]] + todos[i + 1..];
  }

  /** Searching a list with a new last item finds that item when nothing earlier matches. */
  lemma {:induction false} FindAppended(todos: seq<Json>, t: Json, id: string)
    requires forall j :: 0 <= j < |todos| ==> !todos[j].JNull? && !HasId(todos[j], id)
    requires !t.JNull? && HasId(t, id)
    ensures FindTodo(todos + [t], id) == Found(|todos|)
  {
    if todos != [] {
      assert (todos + [t])[1..] == todos[1..] + [t];
      FindAppended(todos[1..], t, id);
    }
  }

  /**
   * Deleting the todo just added, by its new id, gives back the list as it was, provided no
   * earlier todo carries that id or is `null`.
   */
  lemma AddThenDelete(users: map<string, Doc>, phone: string, task: Option<Json>, nowMs: nat, now: string, later: string)
    requires TodoAdded(users, phone, task, nowMs, now).status == Created
    requires forall t :: t in StoredTodos(users[phone]).value ==> !t.JNull? && !HasId(t, NatToDecimal(nowMs))
    ensures var deleted := TodoDeleted(TodoAdded(users, phone, task, nowMs, now).users, phone, NatToDecimal(nowMs), later);
      deleted.status == Ok && StoredTodos(deleted.users[phone]) == StoredTodos(users[phone])
  {
    var todos := StoredTodos(users[phone]).value;
    var added := todos + [NewTodo(task.value, nowMs, now)];
    var mid := TodoAdded(users, phone, task, nowMs, now).users;
    FindAppended(todos, NewTodo(task.value, nowMs, now), NatToDecimal(nowMs));
    assert added[..|todos|] + added[|todos| + 1..] == todos by {
      assert added[..|todos|] == todos;
    }
    SavedRules(mid, phone, todos, later);
  }
}
