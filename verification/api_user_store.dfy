/** The second in-memory user store, of server/api/tools/user_tools.py, and
    the two resources of server/api/resources/user_resources.py that read it.
    Its records carry no email and no phone; `create_user` checks nothing.
    A record is modelled with the keys a record of this store may lack as
    options, so that the resources' lookups can be read as Python does. */
module ApiUserStore {
  import opened Optional
  import opened Text
  import opened Dicts
  import UserStore

  /** A record: `email` is never set by this store's `create_user`, and
      `age` always is. */
  datatype ApiUser = ApiUser(
    id: string, name: string, email: Option<string>, age: Option<int>,
    createdAt: string, updatedAt: string)

  datatype Store = Store(db: Dict<ApiUser>, counter: nat)

  datatype Reply = Ok(user: ApiUser) | Failed(error: string)

  const Empty: Store := Store([], 0)

  /** Each record is stored under its own id, and each id is `user_<k>` for
      a `k` the counter has already handed out. */
  predicate Valid(st: Store) {
    KeysDistinct(st.db) &&
    forall i :: 0 <= i < |st.db| ==>
      st.db[i].1.id == st.db[i].0 &&
      UserStore.IdNumber(st.db[i].0).Some? && 1 <= UserStore.IdNumber(st.db[i].0).value <= st.counter
  }

  /** `create_user(name, age)`: always succeeds. */
  function CreateUser(st: Store, name: string, age: int, now: string): (r: (Store, Reply))
    ensures r.1.Ok? && r.0.counter == st.counter + 1
    ensures r.1.user == ApiUser(UserStore.UserId(r.0.counter), name, None, Some(age), now, now)
    ensures HasKey(r.0.db, r.1.user.id)
  {
    var user := ApiUser(UserStore.UserId(st.counter + 1), name, None, Some(age), now, now);
    (Store(Put(st.db, user.id, user), st.counter + 1), Ok(user))
  }

  /** In a valid store a create appends one record under a new id. */
  lemma {:induction false} CreateAppends(st: Store, name: string, age: int, now: string)
    requires Valid(st)
    ensures var (st', r) := CreateUser(st, name, age, now);
      !HasKey(st.db, r.user.id) && st'.db == st.db + [(r.user.id, r.user)] &&
      Values(st'.db) == Values(st.db) + [r.user]
  {
    var (st', r) := CreateUser(st, name, age, now);
    UserStore.IdNumberOf(st.counter + 1);
    assert !HasKey(st.db, r.user.id);
    AppendValues(st.db, r.user.id, r.user);
  }

  /** Creating keeps the store valid. */
  lemma {:induction false} CreatePreservesValid(st: Store, name: string, age: int, now: string)
    requires Valid(st)
    ensures Valid(CreateUser(st, name, age, now).0)
  {
    var (st', r) := CreateUser(st, name, age, now);
    CreateAppends(st, name, age, now);
    PutDistinct(st.db, r.user.id, r.user);
    UserStore.IdNumberOf(st.counter + 1);
    forall j | 0 <= j < |st'.db|
      ensures st'.db[j].1.id == st'.db[j].0
      ensures UserStore.IdNumber(st'.db[j].0).Some? && 1 <= UserStore.IdNumber(st'.db[j].0).value <= st'.counter
    {
      if j < |st.db| {
        assert st'.db[j] == st.db[j];
      } else {
        assert st'.db[j] == (r.user.id, r.user);
      }
    }
  }

  /** Two creates in a row give distinct ids, even for the same name and
      age. */
  lemma {:induction false} TwoCreatesDistinct(st: Store, name: string, age: int, now1: string, now2: string)
    ensures var (st1, r1) := CreateUser(st, name, age, now1);
      var (_, r2) := CreateUser(st1, name, age, now2);
      r1.user.id != r2.user.id
  {
    UserStore.IdNumberOf(st.counter + 1);
    UserStore.IdNumberOf(st.counter + 2);
  }

  /** `get_user(name)`: the argument is looked up as a key. */
  function GetUser(st: Store, key: string): (r: Reply)
    ensures r.Ok? <==> HasKey(st.db, key)
    ensures r.Ok? ==> (key, r.user) in st.db
    ensures r.Failed? ==> r == Failed("User " + key + " not found")
  {
    match Get(st.db, key)
    case None => Failed("User " + key + " not found")
    case Some(u) => Ok(u)
  }

  /** Keys are ids, so a lookup by anything that is not of the form
      `user_<digits>`, such as a person's name, fails in a valid store. */
  lemma {:induction false} LookupByNameFails(st: Store, key: string)
    requires Valid(st) && UserStore.IdNumber(key).None?
    ensures GetUser(st, key).Failed?
  {
  }

  // ---------------------------------------------------------------------
  // get_user_stats
  // ---------------------------------------------------------------------

  /** The four age groups: 10대, 20대, 30대, 40대+. */
  datatype AgeGroups = AgeGroups(teens: nat, twenties: nat, thirties: nat, forties: nat)

  /** The group of an age; a missing age counts as 0. */
  function Bucket(age: Option<int>): (r: nat)
    ensures r < 4
    ensures r == 0 <==> age.GetOr(0) < 20
    ensures r == 1 <==> 20 <= age.GetOr(0) < 30
    ensures r == 2 <==> 30 <= age.GetOr(0) < 40
    ensures r == 3 <==> 40 <= age.GetOr(0)
  {
    var a := age.GetOr(0);
    if a < 20 then 0 else if a < 30 then 1 else if a < 40 then 2 else 3
  }

  function Count(users: seq<ApiUser>, b: nat): (r: nat)
    ensures r <= |users|
  {
    if users == [] then 0 else (if Bucket(users[0].age) == b then 1 else 0) + Count(users[1..], b)
  }

  /** One more user in group `b`. */
  function Bump(g: AgeGroups, b: nat): (r: AgeGroups)
    ensures r.teens + r.twenties + r.thirties + r.forties == g.teens + g.twenties + g.thirties + g.forties + 1
  {
    match b
    case 0 => g.(teens := g.teens + 1)
    case 1 => g.(twenties := g.twenties + 1)
    case 2 => g.(thirties := g.thirties + 1)
    case _ => g.(forties := g.forties + 1)
  }

  function Tally(users: seq<ApiUser>): (r: AgeGroups)
    ensures r.teens + r.twenties + r.thirties + r.forties == |users|
  {
    if users == [] then AgeGroups(0, 0, 0, 0)
    else Bump(Tally(users[1..]), Bucket(users[0].age))
  }

  /** Each group holds exactly the users whose age falls in it. */
  lemma {:induction false} TallyCounts(users: seq<ApiUser>)
    ensures var g := Tally(users);
      g.teens == Count(users, 0) && g.twenties == Count(users, 1) &&
      g.thirties == Count(users, 2) && g.forties == Count(users, 3)
  {
    if users != [] {
      TallyCounts(users[1..]);
    }
  }

  /** `get_user_stats()`: the total and the groups. */
  function UserStats(st: Store): (r: (nat, AgeGroups))
    ensures r.0 == |st.db|
    ensures r.1.teens + r.1.twenties + r.1.thirties + r.1.forties == r.0
  {
    (|st.db|, Tally(Values(st.db)))
  }

  /** A label, a count and whatever follows. */
  function Labelled(caption: string, n: nat, rest: string): string {
    caption + NatToString(n) + rest
  }

  /** The text the statistics are reported in. */
  function StatsText(st: Store): string {
    StatsOf(UserStats(st))
  }

  /** `전체 사용자: {total}\n10대:{…},20대:{…},30대:{…},40대+:{…}`, built
      label by label. */
  function StatsOf(s: (nat, AgeGroups)): string {
    Labelled("전체 사용자: ", s.0, Labelled("\n10대:", s.1.teens, Labelled(",20대:", s.1.twenties,
      Labelled(",30대:", s.1.thirties, Labelled(",40대+:", s.1.forties, "")))))
  }

  /** Two counts behind the same label, each followed by text that does not
      start with a digit, are the same count with the same rest. */
  lemma {:induction false} LabelledInjective(caption: string, a: nat, x: string, b: nat, y: string)
    requires Labelled(caption, a, x) == Labelled(caption, b, y)
    requires x == [] || !IsDigit(x[0])
    requires y == [] || !IsDigit(y[0])
    ensures a == b && x == y
  {
    var s := Labelled(caption, a, x);
    assert s[|caption|..] == NatToString(a) + x;
    assert s[|caption|..] == NatToString(b) + y;
    NumeralPrefix(a, x, b, y);
  }

  /** The reported text determines the statistics: two stores reported the
      same way have the same size and the same age groups. */
  lemma {:induction false} StatsTextDetermines(st1: Store, st2: Store)
    requires StatsText(st1) == StatsText(st2)
    ensures UserStats(st1) == UserStats(st2)
  {
    var (t1, g1) := UserStats(st1);
    var (t2, g2) := UserStats(st2);
    var f1 := Labelled(",40대+:", g1.forties, "");
    var f2 := Labelled(",40대+:", g2.forties, "");
    var h1 := Labelled(",30대:", g1.thirties, f1);
    var h2 := Labelled(",30대:", g2.thirties, f2);
    var w1 := Labelled(",20대:", g1.twenties, h1);
    var w2 := Labelled(",20대:", g2.twenties, h2);
    var e1 := Labelled("\n10대:", g1.teens, w1);
    var e2 := Labelled("\n10대:", g2.teens, w2);
    assert e1[0] == '\n' && e2[0] == '\n';
    LabelledInjective("전체 사용자: ", t1, e1, t2, e2);
    assert w1[0] == ',' && w2[0] == ',';
    LabelledInjective("\n10대:", g1.teens, w1, g2.teens, w2);
    assert h1[0] == ',' && h2[0] == ',';
    LabelledInjective(",20대:", g1.twenties, h1, g2.twenties, h2);
    assert f1[0] == ',' && f2[0] == ',';
    LabelledInjective(",30대:", g1.thirties, f1, g2.thirties, f2);
    LabelledInjective(",40대+:", g1.forties, "", g2.forties, "");
  }

  /** Every record this store creates lands in the group of its age. */
  lemma {:induction false} CreateCountsOnce(st: Store, name: string, age: int, now: string)
    requires Valid(st)
    ensures var st' := CreateUser(st, name, age, now).0;
      var g := UserStats(st).1;
      var g' := UserStats(st').1;
      g' == Bump(g, Bucket(Some(age)))
  {
    var (st', r) := CreateUser(st, name, age, now);
    CreateAppends(st, name, age, now);
    TallyAppend(Values(st.db), r.user);
  }

  /** Tallying one more user adds one to that user's group. */
  lemma {:induction false} TallyAppend(users: seq<ApiUser>, u: ApiUser)
    ensures Tally(users + [u]) == Bump(Tally(users), Bucket(u.age))
  {
    if users != [] {
      assert (users + [u])[0] == users[0] && (users + [u])[1..] == users[1..] + [u];
      TallyAppend(users[1..], u);
      BumpCommutes(Tally(users[1..]), Bucket(u.age), Bucket(users[0].age));
    } else {
      assert [] + [u] == [u] && [u][1..] == [];
    }
  }

  /** The order users are counted in does not matter. */
  lemma {:induction false} BumpCommutes(g: AgeGroups, a: nat, b: nat)
    ensures Bump(Bump(g, a), b) == Bump(Bump(g, b), a)
  {
  }

  // ---------------------------------------------------------------------
  // get_all_users_resource
  // ---------------------------------------------------------------------

  const NoUsers := "등록된 사용자가 없습니다."

  /** `f"{u['id']} {u['name']} {u['email']} {u['age']}세\n"`; a record
      without an email or an age raises KeyError (None). */
  function UserLine(u: ApiUser): (r: Option<string>)
    ensures r.Some? <==> u.email.Some? && u.age.Some?
  {
    if u.email.Some? && u.age.Some? then
      Some(u.id + " " + u.name + " " + u.email.value + " " + IntToString(u.age.value) + "세\n")
    else None
  }

  /** Every record has the keys its line reads. */
  predicate Listable(users: seq<ApiUser>) {
    forall i :: 0 <= i < |users| ==> UserLine(users[i]).Some?
  }

  /** The lines of the records, in order. */
  function Lines(users: seq<ApiUser>): string
    requires Listable(users)
  {
    Concat(seq(|users|, i requires 0 <= i < |users| => UserLine(users[i]).value))
  }

  /** `"".join(parts)`. */
  function Concat(parts: seq<string>): string {
    if parts == [] then "" else parts[0] + Concat(parts[1..])
  }

  lemma {:induction false} ConcatAppend(p: seq<string>, q: seq<string>)
    ensures Concat(p + q) == Concat(p) + Concat(q)
  {
    if p == [] {
      assert p + q == q;
    } else {
      assert (p + q)[0] == p[0] && (p + q)[1..] == p[1..] + q;
      ConcatAppend(p[1..], q);
    }
  }

  /** `get_all_users_resource()`: None where it raises KeyError, which is
      at the first record without an email or an age. */
  function AllUsersResource(st: Store): (r: Option<string>)
    ensures st.db == [] ==> r == Some(NoUsers)
    ensures st.db != [] ==> (r.Some? <==> forall i :: 0 <= i < |st.db| ==> UserLine(st.db[i].1).Some?)
  {
    if st.db == [] then Some(NoUsers)
    else if Listable(Values(st.db)) then Some(Lines(Values(st.db)))
    else None
  }

  /** The listing is the records' lines in insertion order: listing two
      runs of records one after the other gives the two listings joined. */
  lemma {:induction false} LinesAppend(a: seq<ApiUser>, b: seq<ApiUser>)
    requires Listable(a) && Listable(b)
    ensures Listable(a + b) && Lines(a + b) == Lines(a) + Lines(b)
  {
    var la := seq(|a|, i requires 0 <= i < |a| => UserLine(a[i]).value);
    var lb := seq(|b|, i requires 0 <= i < |b| => UserLine(b[i]).value);
    var lab := seq(|a + b|, i requires 0 <= i < |a + b| => UserLine((a + b)[i]).value);
    assert lab == la + lb;
    ConcatAppend(la, lb);
  }

  /** Each record's line is the record's id, name, email and age. */
  lemma {:induction false} OneLine(u: ApiUser, email: string, age: int)
    requires u.email == Some(email) && u.age == Some(age)
    ensures Lines([u]) == u.id + " " + u.name + " " + email + " " + IntToString(age) + "세\n"
  {
    var parts := seq(1, i requires 0 <= i < 1 => UserLine([u][i]).value);
    assert parts == [UserLine(u).value];
    assert Concat(parts) == parts[0] + Concat([]);
  }

  /** The records this store creates have no email, so once any user has
      been created the resource raises KeyError. */
  lemma {:induction false} CreatedUserBreaksListing(st: Store, name: string, age: int, now: string)
    requires Valid(st)
    ensures AllUsersResource(CreateUser(st, name, age, now).0).None?
  {
    var (st', r) := CreateUser(st, name, age, now);
    CreateAppends(st, name, age, now);
    assert st'.db[|st.db|].1 == r.user;
  }
}
