/** The in-memory user store of server/tools/user_tools.py: `USERS_DB`, a
    dict from user id to record, and `USER_COUNTER`, which numbers new
    users. The store is a value here: each operation takes the store and
    returns the new one with its reply. `datetime.now().isoformat()` is the
    parameter `now`. */
module UserStore {
  import opened Optional
  import opened Text
  import opened Dicts

  datatype User = User(
    id: string, name: string, email: string, age: int, phone: Option<string>,
    createdAt: string, updatedAt: string)

  datatype Store = Store(db: Dict<User>, counter: nat)

  /** A reply: `{"success": True, "user": ...}` or `{"success": False,
      "error": ...}`. */
  datatype Reply = Ok(user: User) | Failed(error: string)

  const Empty: Store := Store([], 0)

  /** `f"user_{n}"`. */
  function UserId(n: nat): string {
    "user_" + NatToString(n)
  }

  /** The number in an id of the form `user_<digits>`. */
  function IdNumber(id: string): (r: Option<nat>)
    ensures r.Some? ==> |id| > 5 && id[..5] == "user_" && AllDigits(id[5..])
  {
    if |id| > 5 && id[..5] == "user_" && AllDigits(id[5..]) then Some(DigitsValue(id[5..])) else None
  }

  /** The number is read back from the id. */
  lemma {:induction false} IdNumberOf(n: nat)
    ensures IdNumber(UserId(n)) == Some(n)
  {
    var id := UserId(n);
    assert id[..5] == "user_" && id[5..] == NatToString(n);
  }

  /** The store's invariant: each record is stored under its own id, and each
      id is `user_<k>` for a `k` the counter has already handed out. */
  predicate Valid(st: Store) {
    KeysDistinct(st.db) &&
    forall i :: 0 <= i < |st.db| ==>
      st.db[i].1.id == st.db[i].0 &&
      IdNumber(st.db[i].0).Some? && 1 <= IdNumber(st.db[i].0).value <= st.counter
  }

  lemma {:induction false} EmptyValid()
    ensures Valid(Empty) && Users(Empty) == []
  {
  }

  /** The records in insertion order: `USERS_DB.values()`. */
  function Users(st: Store): (r: seq<User>)
    ensures |r| == |st.db|
  {
    Values(st.db)
  }

  /** The id the next created user receives is not in the store. */
  lemma {:induction false} FreshId(st: Store)
    requires Valid(st)
    ensures !HasKey(st.db, UserId(st.counter + 1))
  {
    IdNumberOf(st.counter + 1);
  }

  // ---------------------------------------------------------------------
  // create_user
  // ---------------------------------------------------------------------

  predicate EmailTaken(st: Store, email: string) {
    exists i :: 0 <= i < |st.db| && st.db[i].1.email == email
  }

  function CreateUser(st: Store, name: string, email: string, age: int, phone: Option<string>, now: string): (r: (Store, Reply))
    ensures EmailTaken(st, email) ==> r == (st, Failed("Email " + email + " exists"))
    ensures !EmailTaken(st, email) ==>
              r.1.Ok? && r.0.counter == st.counter + 1 && r.1.user.id == UserId(r.0.counter) &&
              r.1.user.name == name && r.1.user.email == email && r.1.user.age == age && r.1.user.phone == phone &&
              HasKey(r.0.db, r.1.user.id)
  {
    if EmailTaken(st, email) then (st, Failed("Email " + email + " exists"))
    else
      var user := User(UserId(st.counter + 1), name, email, age, phone, now, now);
      (Store(Put(st.db, user.id, user), st.counter + 1), Ok(user))
  }

  /** In a valid store a successful create appends exactly one record,
      under an id not used before. */
  lemma {:induction false} CreateAddsOne(st: Store, name: string, email: string, age: int, phone: Option<string>, now: string)
    requires Valid(st) && !EmailTaken(st, email)
    ensures var (st', r) := CreateUser(st, name, email, age, phone, now);
      !HasKey(st.db, r.user.id) && st'.db == st.db + [(r.user.id, r.user)] && Users(st') == Users(st) + [r.user]
  {
    FreshId(st);
    var user := CreateUser(st, name, email, age, phone, now).1.user;
    AppendValues(st.db, user.id, user);
  }

  /** The created user can be read back under its id. */
  lemma {:induction false} CreateThenGet(st: Store, name: string, email: string, age: int, phone: Option<string>, now: string)
    requires Valid(st) && !EmailTaken(st, email)
    ensures var (st', r) := CreateUser(st, name, email, age, phone, now);
      GetUser(st', r.user.id) == Ok(r.user)
  {
    var r := CreateUser(st, name, email, age, phone, now).1;
    PutGet(st.db, r.user.id, r.user, r.user.id);
  }

  /** Creating keeps the store valid. */
  lemma {:induction false} CreatePreservesValid(st: Store, name: string, email: string, age: int, phone: Option<string>, now: string)
    requires Valid(st)
    ensures Valid(CreateUser(st, name, email, age, phone, now).0)
  {
    if !EmailTaken(st, email) {
      FreshId(st);
      IdNumberOf(st.counter + 1);
      var (st', r) := CreateUser(st, name, email, age, phone, now);
      assert st'.db == st.db + [(r.user.id, r.user)];
      assert forall j :: 0 <= j < |st.db| ==> st'.db[j] == st.db[j];
    }
  }

  // ---------------------------------------------------------------------
  // get_user, update_user, delete_user
  // ---------------------------------------------------------------------

  function NotFound(id: string): Reply {
    Failed("User " + id + " not found")
  }

  function GetUser(st: Store, id: string): (r: Reply)
    ensures r.Ok? <==> HasKey(st.db, id)
    ensures r.Ok? ==> (id, r.user) in st.db
    ensures r.Failed? ==> r == NotFound(id)
  {
    match Get(st.db, id)
    case None => NotFound(id)
    case Some(u) => Ok(u)
  }

  /** `if x: field = x` for an optional string argument. */
  function Overwrite(current: string, arg: Option<string>): (r: string)
    ensures arg.Some? && arg.value != "" ==> r == arg.value
    ensures !(arg.Some? && arg.value != "") ==> r == current
  {
    if arg.Some? && arg.value != "" then arg.value else current
  }

  function UpdateUser(st: Store, id: string, name: Option<string>, email: Option<string>, age: Option<int>,
                      phone: Option<string>, now: string): (r: (Store, Reply))
    ensures r.1.Failed? <==> !HasKey(st.db, id)
    ensures r.1.Failed? ==> r.0 == st && r.1 == NotFound(id)
    ensures r.1.Ok? ==>
              r.0.counter == st.counter && |r.0.db| == |st.db| &&
              (forall j :: 0 <= j < |st.db| ==> r.0.db[j].0 == st.db[j].0)
  {
    match Get(st.db, id)
    case None => (st, NotFound(id))
    case Some(u) =>
      var u' := u.(
        name := Overwrite(u.name, name),
        email := Overwrite(u.email, email),
        age := if age.Some? && age.value != 0 then age.value else u.age,
        phone := if phone.Some? && phone.value != "" then phone else u.phone,
        updatedAt := now);
      (st.(db := Put(st.db, id, u')), Ok(u'))
  }

  /** An update changes only the record under `id`, in place: its id and
      creation time stay, a falsy argument leaves its field alone, a truthy
      one overwrites it (the new email is not checked against the other
      users), and every other record stays as it was. */
  lemma {:induction false} UpdateFrame(st: Store, id: string, name: Option<string>, email: Option<string>, age: Option<int>,
                    phone: Option<string>, now: string)
    requires Valid(st) && HasKey(st.db, id)
    ensures var (st', r) := UpdateUser(st, id, name, email, age, phone, now);
      var i := Find(st.db, id).value;
      var u := st.db[i].1;
      r.Ok? && st'.db[i] == (id, r.user) && Valid(st') &&
      (forall j :: 0 <= j < |st.db| && j != i ==> st'.db[j] == st.db[j]) &&
      r.user.id == id && r.user.createdAt == u.createdAt && r.user.updatedAt == now &&
      r.user.name == (if name.Some? && name.value != "" then name.value else u.name) &&
      r.user.email == (if email.Some? && email.value != "" then email.value else u.email) &&
      r.user.age == (if age.Some? && age.value != 0 then age.value else u.age) &&
      r.user.phone == (if phone.Some? && phone.value != "" then phone else u.phone)
  {
    var i := Find(st.db, id).value;
    assert Get(st.db, id) == Some(st.db[i].1);
  }

  function DeleteUser(st: Store, id: string): (r: (Store, Reply))
    ensures r.1.Failed? <==> !HasKey(st.db, id)
    ensures r.1.Failed? ==> r.0 == st && r.1 == NotFound(id)
    ensures r.1.Ok? ==> (id, r.1.user) in st.db && r.0.counter == st.counter && |r.0.db| == |st.db| - 1
  {
    match Find(st.db, id)
    case None => (st, NotFound(id))
    case Some(i) => (st.(db := Pop(st.db, id)), Ok(st.db[i].1))
  }

  /** Deleting removes exactly the record under `id` and returns it; the
      other records keep their order and read as before. */
  lemma {:induction false} DeleteRemovesOne(st: Store, id: string, other: string)
    requires Valid(st) && HasKey(st.db, id)
    ensures var (st', r) := DeleteUser(st, id);
      var i := Find(st.db, id).value;
      r == Ok(Users(st)[i]) && !HasKey(st'.db, id) &&
      Users(st') == Users(st)[..i] + Users(st)[i + 1..] &&
      (other != id ==> Get(st'.db, other) == Get(st.db, other))
  {
    PopGet(st.db, id, other);
    PopValues(st.db, id);
  }

  /** Deleting keeps the store valid. */
  lemma {:induction false} DeletePreservesValid(st: Store, id: string)
    requires Valid(st)
    ensures Valid(DeleteUser(st, id).0)
  {
    if HasKey(st.db, id) {
      var i := Find(st.db, id).value;
      PopGet(st.db, id, id);
      var d' := Pop(st.db, id);
      forall j | 0 <= j < |d'|
        ensures d'[j].1.id == d'[j].0 && IdNumber(d'[j].0).Some? && 1 <= IdNumber(d'[j].0).value <= st.counter
      {
        assert d'[j] == st.db[if j < i then j else j + 1];
      }
    }
  }

  /** Ids are never reused: after a user is deleted, the next create gets a
      different id. */
  lemma {:induction false} IdsNotReused(st: Store, id: string, name: string, email: string, age: int, phone: Option<string>, now: string)
    requires Valid(st) && HasKey(st.db, id)
    ensures var st' := DeleteUser(st, id).0;
      var r := CreateUser(st', name, email, age, phone, now).1;
      r.Ok? ==> r.user.id != id
  {
    var i := Find(st.db, id).value;
    assert IdNumber(id).value <= st.counter;
    IdNumberOf(st.counter + 1);
  }

  // ---------------------------------------------------------------------
  // list_users, search_users
  // ---------------------------------------------------------------------

  datatype Listing = Listing(users: seq<User>, total: nat)

  /** A slice bound as Python resolves it: negative counts from the end, and
      the result is clamped to the sequence. */
  function SliceBound(i: int, n: nat): (r: nat)
    ensures r <= n
    ensures 0 <= i <= n ==> r == i
    ensures i > n ==> r == n
    ensures i < 0 ==> r == if i + n < 0 then 0 else i + n
  {
    if i < 0 then (if i + n < 0 then 0 else i + n) else if i > n then n else i
  }

  /** `s[a:b]` with Python's rules. */
  function PySlice<T>(s: seq<T>, a: int, b: int): (r: seq<T>)
    ensures |r| <= |s|
    ensures var lo := SliceBound(a, |s|); var hi := SliceBound(b, |s|);
      |r| == (if lo < hi then hi - lo else 0) && forall k :: 0 <= k < |r| ==> r[k] == s[lo + k]
  {
    var lo := SliceBound(a, |s|);
    var hi := SliceBound(b, |s|);
    if lo < hi then s[lo..hi] else []
  }

  /** Adjacent pages join: `s[a:b] + s[b:c] == s[a:c]` for in-order
      non-negative bounds. */
  lemma {:induction false} PySliceJoin<T>(s: seq<T>, a: nat, b: nat, c: nat)
    requires a <= b <= c
    ensures PySlice(s, a, b) + PySlice(s, b, c) == PySlice(s, a, c)
  {
    var x, y, z := PySlice(s, a, b), PySlice(s, b, c), PySlice(s, a, c);
    var lo := SliceBound(a, |s|);
    assert |x + y| == |z|;
    forall k | 0 <= k < |z| ensures (x + y)[k] == z[k] {
      if k < |x| {
        assert (x + y)[k] == s[lo + k];
      } else {
        assert (x + y)[k] == y[k - |x|];
      }
    }
  }

  function ListUsers(st: Store, limit: int, offset: int): (r: Listing)
    ensures r.total == |Users(st)|
    ensures |r.users| <= |Users(st)|
  {
    Listing(PySlice(Users(st), offset, offset + limit), |Users(st)|)
  }

  /** With a non-negative offset and limit the page is the `limit` records
      from position `offset` on, as many as there are. */
  lemma {:induction false} ListPage(st: Store, limit: nat, offset: nat)
    ensures var page := ListUsers(st, limit, offset).users;
      |page| == (if offset >= |Users(st)| then 0 else if offset + limit > |Users(st)| then |Users(st)| - offset else limit) &&
      forall k :: 0 <= k < |page| ==> page[k] == Users(st)[offset + k]
  {
  }

  /** The default call (`limit=10, offset=0`) lists the first ten users. */
  lemma {:induction false} ListDefault(st: Store)
    ensures ListUsers(st, 10, 0).users == if |Users(st)| <= 10 then Users(st) else Users(st)[..10]
  {
  }

  /** `str(u.get(field, ""))`: missing fields read as the empty string, a
      missing phone as `None`, and the age as its numeral. */
  function FieldText(u: User, field: string): string {
    if field == "id" then u.id
    else if field == "name" then u.name
    else if field == "email" then u.email
    else if field == "age" then IntToString(u.age)
    else if field == "phone" then (match u.phone case None => "None" case Some(p) => p)
    else if field == "created_at" then u.createdAt
    else if field == "updated_at" then u.updatedAt
    else ""
  }

  predicate Matches(u: User, query: string, field: string) {
    Contains(Lower(FieldText(u, field)), Lower(query))
  }

  function SearchIn(users: seq<User>, query: string, field: string): (r: seq<User>)
    ensures |r| <= |users|
    ensures forall u :: u in r ==> u in users && Matches(u, query, field)
    ensures forall u :: u in users && Matches(u, query, field) ==> u in r
  {
    if users == [] then []
    else (if Matches(users[0], query, field) then [users[0]] else []) + SearchIn(users[1..], query, field)
  }

  function SearchUsers(st: Store, query: string, field: string): (r: Listing)
    ensures r.total == |r.users|
    ensures forall u :: u in r.users <==> u in Users(st) && Matches(u, query, field)
  {
    var found := SearchIn(Users(st), query, field);
    Listing(found, |found|)
  }

  /** Results keep the store's order: matches over two parts of the store
      are the matches of the first part followed by those of the second. */
  lemma {:induction false} SearchAppend(a: seq<User>, b: seq<User>, query: string, field: string)
    ensures SearchIn(a + b, query, field) == SearchIn(a, query, field) + SearchIn(b, query, field)
  {
    if a == [] {
      assert a + b == b;
    } else {
      assert (a + b)[0] == a[0] && (a + b)[1..] == a[1..] + b;
      SearchAppend(a[1..], b, query, field);
    }
  }

  /** The empty query matches every user, whatever the field. */
  lemma {:induction false} EmptyQueryMatchesAll(users: seq<User>, field: string)
    ensures SearchIn(users, "", field) == users
  {
    if users != [] {
      assert OccursAt(Lower(FieldText(users[0], field)), "", 0);
      EmptyQueryMatchesAll(users[1..], field);
    }
  }

  /** Matching ignores the case of ASCII letters in the query. */
  lemma {:induction false} QueryCaseIgnored(u: User, q1: string, q2: string, field: string)
    requires Lower(q1) == Lower(q2)
    ensures Matches(u, q1, field) <==> Matches(u, q2, field)
  {
  }

  /** A search by a field users do not have finds nobody, unless the query
      is empty. */
  lemma {:induction false} UnknownField(st: Store, query: string, field: string)
    requires query != [] && field !in {"id", "name", "email", "age", "phone", "created_at", "updated_at"}
    ensures SearchUsers(st, query, field).users == []
  {
    NoneFound(Users(st), query, field);
  }

  /** Nobody matches, so nobody is found. */
  lemma {:induction false} NoneFound(users: seq<User>, query: string, field: string)
    requires query != [] && field !in {"id", "name", "email", "age", "phone", "created_at", "updated_at"}
    ensures SearchIn(users, query, field) == []
  {
    if users != [] {
      assert FieldText(users[0], field) == "" && |Lower(query)| > 0;
      NoneFound(users[1..], query, field);
    }
  }
}
