/** The `.env.local` loader that both server/storage.ts and server/index.ts
    run at start-up: every `KEY=value` line sets a variable that is not
    already set to a non-empty value. */
module EnvFile {
  import opened Wrappers
  import opened Text

  /** `process.env`. */
  type Env = map<string, string>

  /** `process.env[k]` is truthy. */
  predicate IsSet(env: Env, k: string) {
    k in env && env[k] != ""
  }

  /** A line counts when it is not blank and does not start with '#'
      (checked before trimming, so an indented '#' line counts). */
  predicate Active(line: string) {
    !IsBlank(line) && !StartsWith(line, "#")
  }

  /** `key` of `const [key, ...valueParts] = line.split("=")`. */
  function KeyOf(line: string): string {
    BeforeFirst(line, '=')
  }

  /** `valueParts.join("=").trim()`: everything after the first '=',
      trimmed. */
  function ValueOf(line: string): string {
    Trim(AfterFirst(line, '='))
  }

  /** The effect of one line. */
  function ApplyLine(env: Env, line: string): (r: Env)
    ensures forall k :: IsSet(env, k) ==> k in r && r[k] == env[k]
    ensures forall k :: k in r ==> k in env || (Active(line) && k == Trim(KeyOf(line)))
  {
    var key := KeyOf(line);
    if Active(line) && key != "" && !IsSet(env, Trim(key)) then env[Trim(key) := ValueOf(line)]
    else env
  }

  /** The variables after the first `i` lines. */
  function LoadedUpTo(env: Env, lines: seq<string>, i: nat): Env
    requires i <= |lines|
  {
    if i == 0 then env else ApplyLine(LoadedUpTo(env, lines, i - 1), lines[i - 1])
  }

  /** The loop over `envContent.split("\n")`. */
  method LoadLines(env0: Env, content: string) returns (env: Env)
    ensures var lines := Split(content, '\n'); env == LoadedUpTo(env0, lines, |lines|)
  {
    var lines := Split(content, '\n');
    env := env0;
    var i := 0;
    while i < |lines|
      invariant i <= |lines|
      invariant env == LoadedUpTo(env0, lines, i)
    {
      var line := lines[i];
      if Active(line) {
        var key := KeyOf(line);
        var value := ValueOf(line);
        if key != "" && !IsSet(env, Trim(key)) {
          env := env[Trim(key) := value];
        }
      }
      i := i + 1;
    }
  }

  /** A variable that was set keeps its value, whatever the file says. */
  lemma {:induction false} NeverOverrides(env: Env, lines: seq<string>, i: nat, k: string)
    requires i <= |lines| && IsSet(env, k)
    ensures k in LoadedUpTo(env, lines, i) && LoadedUpTo(env, lines, i)[k] == env[k]
  {
    if i > 0 {
      NeverOverrides(env, lines, i - 1, k);
    }
  }

  /** Every new variable is named by the trimmed key of some counted line. */
  lemma {:induction false} NewKeysFromLines(env: Env, lines: seq<string>, i: nat, k: string)
    requires i <= |lines| && k in LoadedUpTo(env, lines, i) && k !in env
    ensures exists j :: 0 <= j < i && Active(lines[j]) && Trim(KeyOf(lines[j])) == k
  {
    var prev := LoadedUpTo(env, lines, i - 1);
    if k in prev {
      NewKeysFromLines(env, lines, i - 1, k);
    }
  }

  /** When a key appears on two lines with non-empty values, the first
      wins. */
  lemma FirstDefinitionWins(env: Env, a: string, b: string)
    requires Active(a) && KeyOf(a) != "" && ValueOf(a) != "" && !IsSet(env, Trim(KeyOf(a)))
    requires Trim(KeyOf(b)) == Trim(KeyOf(a))
    ensures var k := Trim(KeyOf(a)); ApplyLine(ApplyLine(env, a), b)[k] == ValueOf(a)
  {
  }

  lemma ExampleKey()
    ensures KeyOf("A=b=c") == "A"
  {
    var line := "A=b=c";
    assert FirstIndex(line, '=') == 1;
    assert Split(line, '=')[0] == line[..1];
  }

  lemma ExampleValue()
    ensures ValueOf("A=b=c") == "b=c"
  {
    var line := "A=b=c";
    assert FirstIndex(line, '=') == 1;
    assert line[2..] == "b=c";
    TrimUnchanged("b=c");
  }

  /** The value keeps every '=' after the first. */
  lemma SplitsAtFirstEquals()
    ensures ApplyLine(map[], "A=b=c") == map["A" := "b=c"]
  {
    TrimUnchanged("A=b=c");
    TrimUnchanged("A");
    ExampleKey();
    ExampleValue();
  }

  /** Comment lines are skipped. */
  lemma CommentIgnored(env: Env, line: string)
    requires StartsWith(line, "#")
    ensures ApplyLine(env, line) == env
  {
  }

  /** server/storage.ts: the loader runs only when `DATABASE_URL` is not
      set and the file exists (`file` is its content). */
  method LoadForStorage(env0: Env, file: Option<string>) returns (env: Env)
    ensures IsSet(env0, "DATABASE_URL") || file.None? ==> env == env0
    ensures !IsSet(env0, "DATABASE_URL") && file.Some? ==>
      var lines := Split(file.value, '\n'); env == LoadedUpTo(env0, lines, |lines|)
  {
    if IsSet(env0, "DATABASE_URL") || file.None? {
      return env0;
    }
    env := LoadLines(env0, file.value);
  }

  /** server/index.ts: the same loader whenever the file exists. */
  method LoadForIndex(env0: Env, file: Option<string>) returns (env: Env)
    ensures file.None? ==> env == env0
    ensures file.Some? ==> var lines := Split(file.value, '\n'); env == LoadedUpTo(env0, lines, |lines|)
  {
    if file.None? {
      return env0;
    }
    env := LoadLines(env0, file.value);
  }
}
