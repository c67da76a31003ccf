/** The server entry point (server/index.ts): the status and message of
    the error handler, the request-log filter and the listening port. The
    `.env.local` loader it runs first is `EnvFile.LoadForIndex`. */
module ServerIndex {
  import opened Wrappers
  import opened Text
  import opened Json
  import EnvFile

  /** `err.status || err.statusCode || 500`. */
  function ErrorStatus(status: Option<JsonValue>, statusCode: Option<JsonValue>): (r: JsonValue)
    ensures Truthy(Some(r))
    ensures Truthy(status) ==> r == status.value
    ensures !Truthy(status) && Truthy(statusCode) ==> r == statusCode.value
    ensures !Truthy(status) && !Truthy(statusCode) ==> r == JNum(500.0)
  {
    if Truthy(status) then status.value
    else if Truthy(statusCode) then statusCode.value
    else JNum(500.0)
  }

  /** A status of 0 counts as missing, like an absent one. */
  lemma ZeroStatusFallsThrough(code: real)
    requires code != 0.0
    ensures ErrorStatus(Some(JNum(0.0)), Some(JNum(code))) == JNum(code)
    ensures ErrorStatus(None, None) == JNum(500.0)
  {
  }

  /** `err.message || "Internal Server Error"`. */
  function ErrorMessage(message: Option<JsonValue>): (r: JsonValue)
    ensures Truthy(Some(r))
    ensures Truthy(message) ==> r == message.value
    ensures !Truthy(message) ==> r == JStr("Internal Server Error")
  {
    if Truthy(message) then message.value else JStr("Internal Server Error")
  }

  /** Finished requests are logged only for paths under "/api". */
  predicate LogsRequest(path: string) {
    StartsWith(path, "/api")
  }

  /** The filter is a plain prefix test: "/apiary" is logged too, "/" and
      "/health" are not. */
  lemma LogFilterExamples()
    ensures LogsRequest("/api/health") && LogsRequest("/apiary")
    ensures !LogsRequest("/") && !LogsRequest("/health")
  {
    assert "/api/health"[..4] == "/api";
    assert "/apiary"[..4] == "/api";
    assert "/health"[1] != "/api"[1];
  }

  /** `parseInt(process.env.PORT || "5000", 10)`. */
  function Port(env: EnvFile.Env): (p: Parsed)
    ensures !EnvFile.IsSet(env, "PORT") ==> p == Num(5000)
    ensures EnvFile.IsSet(env, "PORT") ==> p == ParseInt(env["PORT"])
  {
    PortDefault();
    ParseInt(if EnvFile.IsSet(env, "PORT") then env["PORT"] else "5000")
  }

  lemma PortDefault()
    ensures ParseInt("5000") == Num(5000)
  {
    ParseIntOfIntToString(5000);
    assert IntToString(5000) == "5000";
  }

  /** A port written in decimal is read back as itself. */
  lemma PortRoundTrip(env: EnvFile.Env, p: nat)
    requires "PORT" in env && env["PORT"] == NatToString(p)
    ensures Port(env) == Num(p)
  {
    NatToStringDigits(p);
    ParseIntOfIntToString(p);
  }
}
