/** The PostgreSQL-backed store (server/storage-neon.ts). The two tables
    are fields; each SQL call is given its outcome (`ok` false: the query
    failed) and the table constraints (primary keys, unique usernames) make
    an insert fail as the database would. */
module NeonStorage {
  import opened Wrappers
  import opened Json
  import opened QuizTypes
  import ServerStorage
  import Ordering

  const MaxRetries: nat := 3
  const MaxPolls: nat := 30

  /** A row of `quizzes`; `data` is the JSONB column. */
  datatype QuizRow = QuizRow(id: string, title: string, data: JsonValue, createdAt: int)

  /** `JSON.stringify({ data })` as stored in the column. */
  function Wrap(d: JsonValue): JsonValue {
    JObj(map["data" := d])
  }

  /** `parsedData.data` of a row, as returned to callers. */
  function Unwrap(row: QuizRow): CloudQuiz {
    var d := Get(row.data, "data");
    CloudQuiz(row.id, row.title, if d.Some? then d.value else JNull, row.createdAt)
  }

  /** What is stored is what comes back. */
  lemma UnwrapWrap(id: string, title: string, d: JsonValue, t: int)
    ensures Unwrap(QuizRow(id, title, Wrap(d), t)) == CloudQuiz(id, title, d, t)
  {
  }

  function UnwrapAll(rows: seq<QuizRow>): (qs: seq<CloudQuiz>)
    ensures |qs| == |rows| && forall i :: 0 <= i < |rows| ==> qs[i] == Unwrap(rows[i])
  {
    seq(|rows|, i requires 0 <= i < |rows| => Unwrap(rows[i]))
  }

  /** `DELETE ... WHERE id = $1` leaves the other rows in order. */
  function WithoutId(rows: seq<QuizRow>, id: string): (r: seq<QuizRow>)
    ensures forall x :: x in r <==> x in rows && x.id != id
    ensures |r| <= |rows|
    ensures |r| < |rows| <==> exists i :: 0 <= i < |rows| && rows[i].id == id
  {
    if rows == [] then []
    else
      var rest := WithoutId(rows[1..], id);
      assert forall i :: 1 <= i < |rows| ==> rows[i] == rows[1..][i - 1];
      if rows[0].id == id then rest else [rows[0]] + rest
  }

  /** `SELECT * FROM users WHERE id = $1`, `rows[0]`. */
  function UserWithId(us: seq<ServerStorage.User>, id: string): (r: Option<ServerStorage.User>)
    ensures r.Some? ==> r.value in us && r.value.id == id
    ensures r.None? <==> forall i :: 0 <= i < |us| ==> us[i].id != id
  {
    if us == [] then None
    else if us[0].id == id then Some(us[0])
    else
      assert forall i :: 1 <= i < |us| ==> us[i] == us[1..][i - 1];
      UserWithId(us[1..], id)
  }

  /** `initializeDatabase`: at most three attempts, each creating both
      tables (`succeeds(a)`: attempt `a` gets through); a wait between
      attempts but none after the last; after the third failure the error
      is rethrown (`Threw`). */
  method InitializeDatabase(succeeds: nat -> bool) returns (r: Outcome<bool>, attempts: nat, waits: nat)
    ensures 1 <= attempts <= MaxRetries
    ensures r == Returned(true) || r == Threw
    ensures r.Returned? <==> exists a :: 0 <= a < MaxRetries && succeeds(a)
    ensures r.Returned? ==> succeeds(attempts - 1) && forall a :: 0 <= a < attempts - 1 ==> !succeeds(a)
    ensures r.Threw? ==> attempts == MaxRetries
    ensures waits == attempts - 1
  {
    var attempt: nat := 0;
    var done := false;
    waits := 0;
    while attempt < MaxRetries && !done
      invariant attempt <= MaxRetries
      invariant done ==> attempt < MaxRetries && succeeds(attempt) && waits == attempt
      invariant !done ==> waits == if attempt == MaxRetries then MaxRetries - 1 else attempt
      invariant forall a :: 0 <= a < attempt ==> !succeeds(a)
      decreases MaxRetries - attempt, if done then 0 else 1
    {
      if succeeds(attempt) {
        done := true;
      } else {
        attempt := attempt + 1;
        if attempt < MaxRetries {
          waits := waits + 1;
        }
      }
    }
    if done {
      r, attempts := Returned(true), attempt + 1;
    } else {
      r, attempts := Threw, attempt;
    }
  }

  class Neon {
    var initialized: bool
    var users: seq<ServerStorage.User>
    var quizzes: seq<QuizRow>

    /** The table constraints, and every quiz row in the wrapped form. */
    predicate Valid()
      reads this
    {
      && (forall i, j :: 0 <= i < j < |users| ==> users[i].id != users[j].id && users[i].username != users[j].username)
      && UniqueIds(quizzes)
      && (forall r :: r in quizzes ==> r.data.JObj? && "data" in r.data.fields)
    }

    constructor()
      ensures Valid() && !initialized && users == [] && quizzes == []
    {
      initialized := false;
      users := [];
      quizzes := [];
    }

    /** `init`: `initialized` is set only by a bootstrap that succeeds. */
    method Init(succeeds: nat -> bool)
      modifies this
      ensures initialized <==> old(initialized) || exists a :: 0 <= a < MaxRetries && succeeds(a)
      ensures users == old(users) && quizzes == old(quizzes)
    {
      var r, attempts, waits := InitializeDatabase(succeeds);
      if r.Returned? {
        initialized := true;
      }
    }

    /** Whether the gate opens: `initialized` already, or seen at one of
        the polls (`observe(p)`: the flag after the `p`-th 100 ms sleep,
        set meanwhile by the running `init`). */
    predicate Opens(observe: nat -> bool)
      reads this
    {
      initialized || exists p :: 1 <= p <= MaxPolls && observe(p)
    }

    /** `ensureInitialized`: at once when initialized; otherwise at most
        thirty polls, then "Database initialization timed out". */
    method EnsureInitialized(observe: nat -> bool) returns (r: Outcome<()>, polls: nat)
      ensures r.Returned? <==> Opens(observe)
      ensures initialized ==> polls == 0
      ensures polls <= MaxPolls
      ensures r.Threw? ==> polls == MaxPolls
      ensures !initialized && r.Returned? ==>
        observe(polls) && forall p :: 1 <= p < polls ==> !observe(p)
    {
      var ready := initialized;
      polls := 0;
      while !ready && polls < MaxPolls
        invariant polls <= MaxPolls
        invariant ready <==> initialized || (polls >= 1 && observe(polls))
        invariant initialized ==> polls == 0
        invariant forall p :: 1 <= p < polls ==> !observe(p)
        invariant !ready ==> forall p :: 1 <= p <= polls ==> !observe(p)
      {
        polls := polls + 1;
        ready := observe(polls);
      }
      r := if ready then Returned(()) else Threw;
    }

    /** `getUser`: any failure, the timeout included, reads as no user. */
    method GetUser(observe: nat -> bool, id: string, ok: bool) returns (u: Option<ServerStorage.User>)
      ensures u == if Opens(observe) && ok then UserWithId(users, id) else None
    {
      var gate, polls := EnsureInitialized(observe);
      if gate.Threw? || !ok {
        return None;
      }
      u := UserWithId(users, id);
    }

    /** `getUserByUsername`: likewise. */
    method GetUserByUsername(observe: nat -> bool, name: string, ok: bool) returns (u: Option<ServerStorage.User>)
      ensures u == if Opens(observe) && ok then ServerStorage.FirstWithUsername(users, name) else None
    {
      var gate, polls := EnsureInitialized(observe);
      if gate.Threw? || !ok {
        return None;
      }
      u := ServerStorage.FirstWithUsername(users, name);
    }

    /** `createUser`: errors propagate, the timeout included; a taken id or
        username makes the insert fail. */
    method CreateUser(observe: nat -> bool, id: string, insert: ServerStorage.InsertUser, ok: bool)
      returns (r: Outcome<ServerStorage.User>)
      requires Valid()
      modifies this
      ensures Valid()
      ensures r.Returned? <==>
        Opens(observe) && ok
        && forall i :: 0 <= i < |old(users)| ==> old(users)[i].id != id && old(users)[i].username != insert.username
      ensures r.Returned? ==>
        r.value == ServerStorage.User(id, insert.username, insert.password)
        && users == old(users) + [r.value]
      ensures r.Threw? ==> users == old(users)
      ensures quizzes == old(quizzes) && initialized == old(initialized)
    {
      var gate, polls := EnsureInitialized(observe);
      if gate.Threw? || !ok {
        return Threw;
      }
      if exists i :: 0 <= i < |users| && (users[i].id == id || users[i].username == insert.username) {
        return Threw;
      }
      var u := ServerStorage.User(id, insert.username, insert.password);
      users := users + [u];
      r := Returned(u);
    }

    /** `saveQuiz`: the record stored as `{ data }` and read back from the
        inserted row, so the caller gets the record the in-memory store
        would build; `now` is the row's default timestamp. */
    method SaveQuiz(observe: nat -> bool, title: string, quizData: JsonValue, id: string, now: int, ok: bool)
      returns (r: Outcome<CloudQuiz>)
      requires Valid()
      modifies this
      ensures Valid()
      ensures r.Returned? <==>
        Opens(observe) && quizData != JNull && ok
        && forall i :: 0 <= i < |old(quizzes)| ==> old(quizzes)[i].id != id
      ensures r.Returned? ==> r == ServerStorage.NewQuiz(title, quizData, id, now)
      ensures r.Returned? ==> quizzes == old(quizzes) + [QuizRow(id, title, Wrap(r.value.data), now)]
      ensures r.Threw? ==> quizzes == old(quizzes)
      ensures users == old(users) && initialized == old(initialized)
    {
      var gate, polls := EnsureInitialized(observe);
      if gate.Threw? {
        return Threw;
      }
      var record := ServerStorage.NewQuiz(title, quizData, id, now);
      if record.Threw? || !ok {
        return Threw;
      }
      if exists i :: 0 <= i < |quizzes| && quizzes[i].id == id {
        return Threw;
      }
      var row := QuizRow(id, title, Wrap(record.value.data), now);
      quizzes := quizzes + [row];
      UnwrapWrap(id, title, record.value.data, now);
      r := Returned(Unwrap(row));
    }

    /** `getStoredQuizzes`: every row, newest first; any failure reads as
        the empty list. */
    method GetStoredQuizzes(observe: nat -> bool, ok: bool) returns (qs: seq<CloudQuiz>)
      ensures !(Opens(observe) && ok) ==> qs == []
      ensures Opens(observe) && ok ==>
        Ordering.SortedDesc(qs, ServerStorage.CreatedAt) && multiset(qs) == multiset(UnwrapAll(quizzes))
    {
      var gate, polls := EnsureInitialized(observe);
      if gate.Threw? || !ok {
        return [];
      }
      qs := Ordering.SortDesc(UnwrapAll(quizzes), ServerStorage.CreatedAt);
      Ordering.SortDescCorrect(UnwrapAll(quizzes), ServerStorage.CreatedAt);
    }

    /** `deleteQuiz`: true exactly when a row went away; any failure reads
        as false and changes nothing. */
    method DeleteQuiz(observe: nat -> bool, id: string, ok: bool) returns (deleted: bool)
      requires Valid()
      modifies this
      ensures Valid()
      ensures deleted <==> Opens(observe) && ok && exists i :: 0 <= i < |old(quizzes)| && old(quizzes)[i].id == id
      ensures Opens(observe) && ok ==> quizzes == WithoutId(old(quizzes), id)
      ensures !(Opens(observe) && ok) ==> quizzes == old(quizzes)
      ensures forall i :: 0 <= i < |quizzes| ==> quizzes[i] in old(quizzes)
      ensures users == old(users) && initialized == old(initialized)
    {
      var gate, polls := EnsureInitialized(observe);
      if gate.Threw? || !ok {
        return false;
      }
      var kept := WithoutId(quizzes, id);
      var rowCount := |quizzes| - |kept|;
      WithoutIdKeepsValid(quizzes, id);
      quizzes := kept;
      deleted := rowCount > 0;
    }
  }

  /** The primary key of `quizzes`. */
  predicate UniqueIds(rows: seq<QuizRow>) {
    forall i, j :: 0 <= i < j < |rows| ==> rows[i].id != rows[j].id
  }

  /** Deleting leaves the primary key in force. */
  lemma {:induction false} WithoutIdKeepsValid(rows: seq<QuizRow>, id: string)
    requires UniqueIds(rows)
    ensures UniqueIds(WithoutId(rows, id))
  {
    if rows != [] {
      WithoutIdKeepsValid(rows[1..], id);
      var rest := WithoutId(rows[1..], id);
      if rows[0].id == id {
        assert WithoutId(rows, id) == rest;
      } else {
        forall x | x in rest ensures x.id != rows[0].id {
          assert x in rows[1..];
          var k :| 0 <= k < |rows[1..]| && rows[1..][k] == x;
          assert rows[k + 1] == x;
        }
        var r := [rows[0]] + rest;
        assert WithoutId(rows, id) == r;
        forall i, j | 0 <= i < j < |r| ensures r[i].id != r[j].id {
          assert r[j] == rest[j - 1] && r[j] in rest;
          if i > 0 {
            assert r[i] == rest[i - 1];
          }
        }
      }
    }
  }

  /** After a successful delete the id is gone, so deleting it again
      reports false. */
  lemma DeleteIsFinal(rows: seq<QuizRow>, id: string)
    ensures forall i :: 0 <= i < |WithoutId(rows, id)| ==> WithoutId(rows, id)[i].id != id
    ensures WithoutId(WithoutId(rows, id), id) == WithoutId(rows, id)
  {
    var once := WithoutId(rows, id);
    assert forall i :: 0 <= i < |once| ==> once[i] in once;
    NoIdUnchanged(once, id);
  }

  /** Rows without the id are left as they are. */
  lemma {:induction false} NoIdUnchanged(rows: seq<QuizRow>, id: string)
    requires forall i :: 0 <= i < |rows| ==> rows[i].id != id
    ensures WithoutId(rows, id) == rows
  {
    if rows != [] {
      NoIdUnchanged(rows[1..], id);
      assert [rows[0]] + rows[1..] == rows;
    }
  }
}
