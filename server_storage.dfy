/** The server's storage choice and its two map-backed stores
    (server/storage.ts): `MemStorage` keeps quizzes in memory only,
    `FileStorage` also mirrors each quiz to `server/quizzes/<id>.json`. */
module ServerStorage {
  import opened Wrappers
  import opened Text
  import opened Json
  import opened QuizTypes
  import opened EnvFile
  import opened OrderedMap
  import opened NodePath
  import Ordering

  // --------------------------------------------------------- selection

  datatype Backend = NeonBackend | MemoryBackend | FileBackend

  /** `isServerless`: `NETLIFY` is exactly "true", or the file-system
      functions are missing. */
  predicate IsServerless(env: Env, fsAvailable: bool) {
    ("NETLIFY" in env && env["NETLIFY"] == "true") || !fsAvailable
  }

  /** The start-up choice: a database URL wins; otherwise a serverless host
      or any `NETLIFY` value keeps quizzes in memory; otherwise on disk. */
  function SelectBackend(env: Env, fsAvailable: bool): (b: Backend)
    ensures b == NeonBackend <==> IsSet(env, "DATABASE_URL")
    ensures b == FileBackend <==> !IsSet(env, "DATABASE_URL") && fsAvailable && !IsSet(env, "NETLIFY")
    ensures b == MemoryBackend <==> !IsSet(env, "DATABASE_URL") && (!fsAvailable || IsSet(env, "NETLIFY"))
  {
    if IsSet(env, "DATABASE_URL") then NeonBackend
    else if IsServerless(env, fsAvailable) || IsSet(env, "NETLIFY") then MemoryBackend
    else FileBackend
  }

  // ----------------------------------------------------------- records

  /** A user of the (unused) account store; the schema module that
      declares it is not part of this model. */
  datatype User = User(id: string, username: string, password: string)
  datatype InsertUser = InsertUser(username: string, password: string)

  /** The record `saveQuiz` builds: `data` is `quizData.data` when truthy,
      else `quizData` itself; reading `.data` of `null` throws. */
  function NewQuiz(title: string, quizData: JsonValue, id: string, now: int): (r: Outcome<CloudQuiz>)
    ensures r.Threw? <==> quizData == JNull
    ensures r.Returned? ==> r.value.id == id && r.value.title == title && r.value.createdAt == now
    ensures r.Returned? && Truthy(Get(quizData, "data")) ==> r.value.data == Get(quizData, "data").value
    ensures r.Returned? && !Truthy(Get(quizData, "data")) ==> r.value.data == quizData
  {
    if quizData == JNull then Threw
    else
      var d := Get(quizData, "data");
      Returned(CloudQuiz(id, title, if Truthy(d) then d.value else quizData, now))
  }

  function CreatedAt(q: CloudQuiz): int { q.createdAt }

  /** The listing: the stored records, newest first, ties in insertion
      order (`Array.prototype.sort` is stable). */
  function Newest(m: Entries<CloudQuiz>): seq<CloudQuiz> {
    Ordering.SortDesc(Values(m), CreatedAt)
  }

  /** The listing is exactly the stored records, newest first, and
      records with equal timestamps keep their insertion order. */
  lemma NewestCorrect(m: Entries<CloudQuiz>, t: int)
    ensures Ordering.SortedDesc(Newest(m), CreatedAt)
    ensures multiset(Newest(m)) == multiset(Values(m))
    ensures Ordering.WithKey(Newest(m), CreatedAt, t) == Ordering.WithKey(Values(m), CreatedAt, t)
  {
    Ordering.SortDescCorrect(Values(m), CreatedAt);
    Ordering.SortDescStable(Values(m), CreatedAt, t);
  }

  /** `Array.from(users.values()).find(u => u.username === name)`. */
  function FirstWithUsername(us: seq<User>, name: string): (r: Option<User>)
    ensures r.Some? ==> r.value in us && r.value.username == name
    ensures r.None? <==> forall i :: 0 <= i < |us| ==> us[i].username != name
    ensures r.Some? ==> exists i :: 0 <= i < |us| && us[i] == r.value
                                    && forall j :: 0 <= j < i ==> us[j].username != name
  {
    if us == [] then None
    else if us[0].username == name then Some(us[0])
    else
      var r := FirstWithUsername(us[1..], name);
      assert forall i :: 1 <= i < |us| ==> us[i] == us[1..][i - 1];
      if r.Some? then
        assert exists i :: 1 <= i < |us| && us[i] == r.value
                           && forall j :: 0 <= j < i ==> us[j].username != name by {
          var i :| 0 <= i < |us[1..]| && us[1..][i] == r.value
                   && forall j :: 0 <= j < i ==> us[1..][j].username != name;
          assert us[i + 1] == r.value;
        }
        r
      else r
  }

  /** Each quiz is filed under its own id. */
  predicate QuizzesKeyed(m: Entries<CloudQuiz>) {
    UniqueKeys(m) && forall e :: e in m ==> e.1.id == e.0
  }

  /** Each user is filed under its own id. */
  predicate UsersKeyed(m: Entries<User>) {
    UniqueKeys(m) && forall e :: e in m ==> e.1.id == e.0
  }

  lemma PutQuizKeyed(m: Entries<CloudQuiz>, q: CloudQuiz)
    requires QuizzesKeyed(m)
    ensures QuizzesKeyed(Put(m, q.id, q))
  {
    PutKeepsUnique(m, q.id, q);
  }

  lemma RemoveQuizKeyed(m: Entries<CloudQuiz>, id: string)
    requires QuizzesKeyed(m)
    ensures QuizzesKeyed(Remove(m, id))
  {
    RemoveKeepsUnique(m, id);
  }

  // --------------------------------------------------------- in memory

  class MemStorage {
    var users: Entries<User>
    var quizzes: Entries<CloudQuiz>

    predicate Valid()
      reads this
    {
      UsersKeyed(users) && QuizzesKeyed(quizzes)
    }

    constructor()
      ensures Valid() && users == [] && quizzes == []
    {
      users := [];
      quizzes := [];
    }

    method GetUser(id: string) returns (u: Option<User>)
      requires Valid()
      ensures u.Some? ==> u.value.id == id && u == Lookup(users, id)
      ensures u.None? <==> !Has(users, id)
    {
      u := Lookup(users, id);
      if u.Some? {
        GetIsEntry(users, id);
      }
    }

    method GetUserByUsername(name: string) returns (u: Option<User>)
      ensures u == FirstWithUsername(Values(users), name)
    {
      u := FirstWithUsername(Values(users), name);
    }

    /** `createUser`: the user under the fresh id `id` (`randomUUID`). */
    method CreateUser(insert: InsertUser, id: string) returns (u: User)
      requires Valid()
      modifies this
      ensures Valid()
      ensures u == User(id, insert.username, insert.password)
      ensures users == Put(old(users), id, u) && quizzes == old(quizzes)
      ensures !Has(old(users), id) ==> |users| == |old(users)| + 1
    {
      u := User(id, insert.username, insert.password);
      PutKeepsUnique(users, id, u);
      users := Put(users, id, u);
    }

    /** `saveQuiz` with `id` fresh from `randomUUID` and `now` the clock. */
    method SaveQuiz(title: string, quizData: JsonValue, id: string, now: int) returns (r: Outcome<CloudQuiz>)
      requires Valid()
      modifies this
      ensures Valid()
      ensures r == NewQuiz(title, quizData, id, now)
      ensures r.Returned? ==> quizzes == Put(old(quizzes), id, r.value)
      ensures r.Returned? && !Has(old(quizzes), id) ==> quizzes == old(quizzes) + [(id, r.value)]
      ensures r.Threw? ==> quizzes == old(quizzes)
      ensures users == old(users)
    {
      r := NewQuiz(title, quizData, id, now);
      if r.Returned? {
        PutQuizKeyed(quizzes, r.value);
        quizzes := Put(quizzes, id, r.value);
      }
    }

    method GetStoredQuizzes() returns (qs: seq<CloudQuiz>)
      ensures qs == Newest(quizzes)
      ensures Ordering.SortedDesc(qs, CreatedAt) && multiset(qs) == multiset(Values(quizzes))
    {
      qs := Newest(quizzes);
      NewestCorrect(quizzes, 0);
    }

    /** `deleteQuiz`: whether the id was stored; afterwards it is not. */
    method DeleteQuiz(id: string) returns (deleted: bool)
      requires Valid()
      modifies this
      ensures Valid()
      ensures deleted <==> Has(old(quizzes), id)
      ensures quizzes == Remove(old(quizzes), id) && !Has(quizzes, id)
      ensures deleted ==> |quizzes| == |old(quizzes)| - 1
      ensures users == old(users)
    {
      deleted := Has(quizzes, id);
      if deleted {
        RemovePresent(quizzes, id);
      }
      RemoveQuizKeyed(quizzes, id);
      quizzes := Remove(quizzes, id);
    }
  }

  /** What `m.get(k)` returns is the value of an entry filed under `k`. */
  lemma {:induction false} GetIsEntry<V>(m: Entries<V>, k: string)
    requires Has(m, k)
    ensures (k, Lookup(m, k).value) in m
  {
    if m[0].0 != k {
      GetIsEntry(m[1..], k);
    }
  }

  // ----------------------------------------------------------- on disk

  /** A file of `server/quizzes`: a parsed quiz record, or text
      `JSON.parse` rejects (or that cannot be read). */
  datatype DiskFile = QuizFile(quiz: CloudQuiz) | Unreadable

  /** The file system as the process sees it: a map from absolute path to
      content. */
  type Disk = map<Path, DiskFile>

  /** `<id>.json`. */
  function FileName(id: string): string {
    id + ".json"
  }

  /** `path.join(quizzesDir, `${id}.json`)`: the id is not checked, so its
      '/' and ".." segments are followed. */
  function QuizPath(dir: Path, id: string): Path {
    Join(dir, FileName(id))
  }

  /** An id without '/' names the file `<id>.json` inside the directory. */
  lemma QuizPathPlain(dir: Path, id: string)
    requires '/' !in id
    ensures QuizPath(dir, id) == dir + [FileName(id)]
  {
    FileNameSegment(id);
    JoinPlain(dir, FileName(id));
  }

  /** An id whose segments hold no ".." stays inside the directory. */
  lemma QuizPathInside(dir: Path, id: string)
    requires ".." !in Split(FileName(id), '/')
    ensures |QuizPath(dir, id)| >= |dir| && QuizPath(dir, id)[..|dir|] == dir
  {
    JoinStaysBelow(dir, FileName(id));
  }

  /** The name of a file inside the directory, not a '/' in it. */
  lemma FileNameSegment(name: string)
    requires '/' !in name
    ensures '/' !in FileName(name) && Plain(FileName(name))
    ensures Split(FileName(name), '/') == [FileName(name)]
  {
    assert FileName(name)[|name|..] == ".json";
  }

  /** An id that climbs out of the directory `d` and back in names a file
      inside it: "../quizzes/abc" deletes the file of quiz "abc". */
  lemma QuizPathBackIn(parent: Path, d: string, name: string)
    requires '/' !in d && '/' !in name && Plain(d)
    ensures QuizPath(parent + [d], "../" + d + "/" + name) == parent + [d, FileName(name)]
  {
    var dir := parent + [d];
    assert FileName("../" + d + "/" + name) == ".." + "/" + (d + "/" + FileName(name));
    SplitAtSlash("..", d + "/" + FileName(name));
    SplitAtSlash(d, FileName(name));
    FileNameSegment(name);
    assert dir[..|dir| - 1] == parent;
    WalkUp(dir, [d, FileName(name)]);
    WalkDown(parent, d, [FileName(name)]);
    WalkDown(dir, FileName(name), []);
  }

  /** An id that climbs two levels names a file outside the directory:
      below the project root, "../../package" is `package.json` beside the
      `server` directory. */
  lemma QuizPathEscapes(root: Path, a: string, b: string, name: string)
    requires '/' !in name
    ensures QuizPath(root + [a, b], "../../" + name) == root + [FileName(name)]
    ensures |QuizPath(root + [a, b], "../../" + name)| < |root + [a, b]|
  {
    var dir := root + [a, b];
    assert FileName("../../" + name) == ".." + "/" + (".." + "/" + FileName(name));
    SplitAtSlash("..", ".." + "/" + FileName(name));
    SplitAtSlash("..", FileName(name));
    FileNameSegment(name);
    assert dir[..|dir| - 1] == root + [a];
    assert (root + [a])[..|root|] == root;
    WalkUp(dir, ["..", FileName(name)]);
    WalkUp(root + [a], [FileName(name)]);
    WalkDown(root, FileName(name), []);
  }

  /** The directory listing in `readdirSync` order, each name with what
      reading `path.join(dir, name)` gives. */
  function Listing(dir: Path, fs: Disk, names: seq<string>): (files: seq<(string, DiskFile)>)
    ensures |files| == |names|
    ensures forall i :: 0 <= i < |names| ==> files[i].0 == names[i]
  {
    seq(|names|, i requires 0 <= i < |names| =>
      (names[i], if Join(dir, names[i]) in fs then fs[Join(dir, names[i])] else Unreadable))
  }

  /** Whether the start-up load reads this file into the map. */
  predicate Loads(f: (string, DiskFile)) {
    EndsWith(f.0, ".json") && f.1.QuizFile?
  }

  /** The map after the start-up load has seen the first `i` files: each
      readable `.json` file filed under the id written inside it. */
  function LoadedFrom(files: seq<(string, DiskFile)>, i: nat): Entries<CloudQuiz>
    requires i <= |files|
  {
    if i == 0 then []
    else
      var m := LoadedFrom(files, i - 1);
      var f := files[i - 1];
      if Loads(f) then Put(m, f.1.quiz.id, f.1.quiz) else m
  }

  /** An id is loaded exactly when some readable `.json` file holds a quiz
      with that id; the file name plays no part. */
  lemma {:induction false} LoadedIds(files: seq<(string, DiskFile)>, i: nat, id: string)
    requires i <= |files|
    ensures Has(LoadedFrom(files, i), id) <==>
      exists j :: 0 <= j < i && Loads(files[j]) && files[j].1.quiz.id == id
  {
    if i > 0 {
      LoadedIds(files, i - 1, id);
      var f := files[i - 1];
      if Loads(f) && f.1.quiz.id == id {
        assert Loads(files[i - 1]) && files[i - 1].1.quiz.id == id;
      }
    }
  }

  lemma {:induction false} LoadedKeyed(files: seq<(string, DiskFile)>, i: nat)
    requires i <= |files|
    ensures QuizzesKeyed(LoadedFrom(files, i))
  {
    if i > 0 {
      LoadedKeyed(files, i - 1);
      var f := files[i - 1];
      if Loads(f) {
        PutQuizKeyed(LoadedFrom(files, i - 1), f.1.quiz);
      }
    }
  }

  class FileStorage {
    var users: Entries<User>
    var quizzes: Entries<CloudQuiz>
    /** `quizzesDir`: `server/quizzes` below the working directory. */
    const dir: Path
    /** The files the process can reach, inside the directory and out. */
    var disk: Disk

    predicate Valid()
      reads this
    {
      UsersKeyed(users) && QuizzesKeyed(quizzes)
    }

    /** The constructor and `loadQuizzesFromDisk`: `cwd` is the working
      directory, `fs` the file system, `names` the directory's entries in
      `readdirSync` order; `listed` is false when the listing itself fails,
      which loads nothing. */
    constructor(cwd: Path, fs: Disk, names: seq<string>, listed: bool)
      ensures Valid() && users == [] && disk == fs && dir == cwd + ["server", "quizzes"]
      ensures quizzes == if listed then LoadedFrom(Listing(dir, fs, names), |names|) else []
    {
      users := [];
      dir := cwd + ["server", "quizzes"];
      disk := fs;
      var files := Listing(cwd + ["server", "quizzes"], fs, names);
      var loaded: Entries<CloudQuiz> := [];
      if listed {
        var i := 0;
        while i < |files|
          invariant i <= |files|
          invariant loaded == LoadedFrom(files, i)
        {
          var f := files[i];
          if EndsWith(f.0, ".json") && f.1.QuizFile? {
            loaded := Put(loaded, f.1.quiz.id, f.1.quiz);
          }
          i := i + 1;
        }
        LoadedKeyed(files, |files|);
      }
      quizzes := loaded;
    }

    method GetUser(id: string) returns (u: Option<User>)
      requires Valid()
      ensures u.Some? ==> u.value.id == id && u == Lookup(users, id)
      ensures u.None? <==> !Has(users, id)
    {
      u := Lookup(users, id);
      if u.Some? {
        GetIsEntry(users, id);
      }
    }

    method GetUserByUsername(name: string) returns (u: Option<User>)
      ensures u == FirstWithUsername(Values(users), name)
    {
      u := FirstWithUsername(Values(users), name);
    }

    method CreateUser(insert: InsertUser, id: string) returns (u: User)
      requires Valid()
      modifies this
      ensures Valid()
      ensures u == User(id, insert.username, insert.password)
      ensures users == Put(old(users), id, u) && quizzes == old(quizzes) && disk == old(disk)
      ensures !Has(old(users), id) ==> |users| == |old(users)| + 1
    {
      u := User(id, insert.username, insert.password);
      PutKeepsUnique(users, id, u);
      users := Put(users, id, u);
    }

    /** `saveQuiz`: the map is updated first; the file write may fail
      (`writeOk` false), which is only logged and undoes nothing. */
    method SaveQuiz(title: string, quizData: JsonValue, id: string, now: int, writeOk: bool)
      returns (r: Outcome<CloudQuiz>)
      requires Valid()
      modifies this
      ensures Valid()
      ensures r == NewQuiz(title, quizData, id, now)
      ensures r.Returned? ==> quizzes == Put(old(quizzes), id, r.value)
      ensures r.Returned? && !Has(old(quizzes), id) ==> quizzes == old(quizzes) + [(id, r.value)]
      ensures r.Returned? && writeOk ==> disk == old(disk)[QuizPath(dir, id) := QuizFile(r.value)]
      ensures r.Threw? || !writeOk ==> disk == old(disk)
      ensures r.Threw? ==> quizzes == old(quizzes)
      ensures users == old(users)
    {
      r := NewQuiz(title, quizData, id, now);
      if r.Returned? {
        PutQuizKeyed(quizzes, r.value);
        quizzes := Put(quizzes, id, r.value);
        if writeOk {
          disk := disk[QuizPath(dir, id) := QuizFile(r.value)];
        }
      }
    }

    method GetStoredQuizzes() returns (qs: seq<CloudQuiz>)
      ensures qs == Newest(quizzes)
      ensures Ordering.SortedDesc(qs, CreatedAt) && multiset(qs) == multiset(Values(quizzes))
    {
      qs := Newest(quizzes);
      NewestCorrect(quizzes, 0);
    }

    /** `deleteQuiz`: the result comes from the map alone; the file at
      `path.join(quizzesDir, id + ".json")` is removed when it exists and
      the unlink succeeds (`unlinkOk`), wherever that path leads. */
    method DeleteQuiz(id: string, unlinkOk: bool) returns (deleted: bool)
      requires Valid()
      modifies this
      ensures Valid()
      ensures deleted <==> Has(old(quizzes), id)
      ensures quizzes == Remove(old(quizzes), id) && !Has(quizzes, id)
      ensures disk == if unlinkOk then old(disk) - {QuizPath(dir, id)} else old(disk)
      ensures users == old(users)
    {
      deleted := Has(quizzes, id);
      RemoveQuizKeyed(quizzes, id);
      quizzes := Remove(quizzes, id);
      if QuizPath(dir, id) in disk && unlinkOk {
        disk := disk - {QuizPath(dir, id)};
      }
    }
  }
}
