/** The retry and re-authentication loop around one API request (src/salesforce.cpp). The server is
    an oracle that may answer anything, for ever. */
module Requests {
  import opened Wrappers

  /** A transport failure, or a status with its Retry-After seconds (0 when absent or not a number)
      and its body; None when the body is not JSON (an empty one counts as the JSON null). */
  datatype Response = Transport(retryable: bool, state: string)
                    | Http(status: int, retryAfter: int, body: Option<string>, errorState: string)

  /** The answer to the `k`-th send, the outcome of a login made after it, and the random
      milliseconds added to a wait after it. */
  datatype Oracle = Oracle(respond: nat -> Response, login: nat -> Result<string>, random: nat -> nat)

  datatype Wait = Wait(ms: int, retryAfter: int)

  /** What a request did: its result, the token of each send, its waits and its logins. */
  datatype Outcome = Outcome(result: Result<string>, tokens: seq<string>, waits: seq<Wait>, logins: nat)

  datatype Settings = Settings(maxRetries: int, fixedToken: bool)

  predicate Success(status: int) {
    200 <= status < 300
  }

  predicate Busy(status: int) {
    status == 429 || status == 502 || status == 503 || status == 504
  }

  function Min(a: int, b: int): int {
    if a < b then a else b
  }

  /** 500 << n */
  function Doubling(n: nat): int {
    if n == 0 then 500 else 2 * Doubling(n - 1)
  }

  const JITTER := 250

  function WaitFor(attempt: nat, retryAfter: int, random: nat): Wait {
    Wait((if retryAfter > 0 then retryAfter * 1000 else Min(30000, Doubling(Min(attempt, 6)))) + random % (JITTER + 1),
         retryAfter)
  }

  /** What is done about a response. */
  datatype Verdict = Finish(result: Result<string>) | Retry(retryAfter: int) | Login

  function Judge(s: Settings, attempt: nat, reauthed: bool, r: Response): Verdict {
    match r
    case Transport(retryable, state) =>
      if attempt < s.maxRetries && retryable then Retry(0) else Finish(Err(state))
    case Http(status, retryAfter, body, errorState) =>
      if Success(status) then Finish(if body.Some? then Ok(body.value) else Err("HY000"))
      else if status == 401 && !reauthed && !s.fixedToken then Login
      else if Busy(status) && attempt < s.maxRetries then Retry(retryAfter)
      else Finish(Err(errorState))
  }

  function Left(s: Settings, attempt: nat): nat {
    if attempt < s.maxRetries then s.maxRetries - attempt else 0
  }

  function Then(token: string, waits: seq<Wait>, logins: nat, rest: Outcome): Outcome {
    Outcome(rest.result, [token] + rest.tokens, waits + rest.waits, logins + rest.logins)
  }

  /** The loop from its `attempt`-th retry and `k`-th send on. */
  function Loop(s: Settings, o: Oracle, attempt: nat, reauthed: bool, token: string, k: nat): Outcome
    decreases Left(s, attempt) + (if reauthed then 0 else 1)
  {
    match Judge(s, attempt, reauthed, o.respond(k))
    case Finish(result) => Outcome(result, [token], [], 0)
    case Retry(retryAfter) =>
      Then(token, [WaitFor(attempt, retryAfter, o.random(k))], 0, Loop(s, o, attempt + 1, reauthed, token, k + 1))
    case Login =>
      match o.login(k)
      case Err(e) => Outcome(Err(e), [token], [], 1)
      case Ok(t) => Then(token, [], 1, Loop(s, o, attempt, true, t, k + 1))
  }

  function Request(s: Settings, o: Oracle, urlLength: nat, token: string): Outcome {
    if urlLength > 16000 then Outcome(Err("42000"), [], [], 0) else Loop(s, o, 0, false, token, 0)
  }

  // ---------------------------------------------------------------- what every run keeps

  lemma {:induction false} DoublingBound(n: nat)
    requires n <= 6
    ensures 500 <= Doubling(n) <= 32000
  {
    var d := [500, 1000, 2000, 4000, 8000, 16000, 32000];
    assert Doubling(0) == 500 && Doubling(1) == 1000 && Doubling(2) == 2000 && Doubling(3) == 4000;
    assert Doubling(4) == 8000 && Doubling(5) == 16000 && Doubling(6) == 32000;
  }

  lemma WaitBound(attempt: nat, retryAfter: int, random: nat)
    ensures var w := WaitFor(attempt, retryAfter, random);
            w.ms >= 500 && (retryAfter <= 0 ==> w.ms <= 30250) &&
            (retryAfter > 0 ==> retryAfter * 1000 <= w.ms <= retryAfter * 1000 + 250)
  {
    DoublingBound(Min(attempt, 6));
  }

  predicate BoundedWait(w: Wait) {
    w.ms >= 500 && (w.retryAfter <= 0 ==> w.ms <= 30250)
  }

  /** The first `j` sends carry the old token, the others the one obtained by logging in. */
  predicate Switches(tokens: seq<string>, j: nat, before: string, after: string) {
    j <= |tokens| && forall i :: 0 <= i < |tokens| ==> tokens[i] == if i < j then before else after
  }

  lemma {:induction false} LoopBounds(s: Settings, o: Oracle, attempt: nat, reauthed: bool, token: string, k: nat)
    ensures var out := Loop(s, o, attempt, reauthed, token, k);
            out.logins <= (if reauthed then 0 else 1) && |out.waits| <= Left(s, attempt) &&
            1 <= |out.tokens| <= 1 + |out.waits| + out.logins &&
            forall i :: 0 <= i < |out.waits| ==> BoundedWait(out.waits[i])
    decreases Left(s, attempt) + (if reauthed then 0 else 1)
  {
    hide WaitFor, BoundedWait;
    match Judge(s, attempt, reauthed, o.respond(k))
    case Finish(_) =>
    case Retry(retryAfter) =>
      LoopBounds(s, o, attempt + 1, reauthed, token, k + 1);
      RetryBounded(attempt, retryAfter, o.random(k));
    case Login =>
      if o.login(k).Ok? { LoopBounds(s, o, attempt, true, o.login(k).value, k + 1); }
  }

  lemma RetryBounded(attempt: nat, retryAfter: int, random: nat)
    ensures BoundedWait(WaitFor(attempt, retryAfter, random))
  {
    WaitBound(attempt, retryAfter, random);
  }

  lemma SwitchLater(t: string, rest: seq<string>, j: nat, after: string)
    requires Switches(rest, j, t, after)
    ensures Switches([t] + rest, j + 1, t, after)
  {
    var tokens := [t] + rest;
    forall i | 0 <= i < |tokens| ensures tokens[i] == if i < j + 1 then t else after {
      if i > 0 { assert tokens[i] == rest[i - 1]; }
    }
  }

  lemma SwitchFirst(t: string, rest: seq<string>, after: string)
    requires Switches(rest, 0, t, after)
    ensures Switches([t] + rest, 1, t, after)
  {
    var tokens := [t] + rest;
    forall i | 0 <= i < |tokens| ensures tokens[i] == if i < 1 then t else after {
      if i > 0 { assert tokens[i] == rest[i - 1]; }
    }
  }

  lemma {:induction false} LoopTokens(s: Settings, o: Oracle, attempt: nat, reauthed: bool, token: string, k: nat)
    returns (j: nat, after: string)
    ensures var out := Loop(s, o, attempt, reauthed, token, k);
            Switches(out.tokens, j, token, after) && j >= 1 && (out.logins == 0 ==> j == |out.tokens|) &&
            (j < |out.tokens| ==>
               o.login(k + j - 1) == Ok(after) && o.respond(k + j - 1).Http? &&
               o.respond(k + j - 1).status == 401)
    decreases Left(s, attempt) + (if reauthed then 0 else 1)
  {
    hide WaitFor, Switches;
    var verdict := Judge(s, attempt, reauthed, o.respond(k));
    if verdict.Retry? {
      j, after := LoopTokens(s, o, attempt + 1, reauthed, token, k + 1);
      SwitchLater(token, Loop(s, o, attempt + 1, reauthed, token, k + 1).tokens, j, after);
      j := j + 1;
    } else if verdict.Login? && o.login(k).Ok? {
      j, after := 1, o.login(k).value;
      SameToken(s, o, attempt, after, k + 1, token);
      SwitchFirst(token, Loop(s, o, attempt, true, after, k + 1).tokens, after);
    } else {
      j, after := 1, token;
      OneToken(token);
    }
  }

  lemma OneToken(t: string)
    ensures Switches([t], 1, t, t)
  {
  }

  /** After logging in the token does not change again. */
  lemma {:induction false} SameToken(s: Settings, o: Oracle, attempt: nat, token: string, k: nat, before: string)
    ensures Switches(Loop(s, o, attempt, true, token, k).tokens, 0, before, token)
    decreases Left(s, attempt)
  {
    hide WaitFor;
    if Judge(s, attempt, true, o.respond(k)).Retry? {
      SameToken(s, o, attempt + 1, token, k + 1, before);
      var rest := Loop(s, o, attempt + 1, true, token, k + 1).tokens;
      forall i | 0 <= i < |[token] + rest| ensures ([token] + rest)[i] == token {
        if i > 0 { assert ([token] + rest)[i] == rest[i - 1]; }
      }
    }
  }

  /** A response after which the request goes on. */
  predicate GoesOn(r: Response) {
    (r.Transport? && r.retryable) || (r.Http? && (r.status == 401 || Busy(r.status)))
  }

  /** The `n` responses from the `k`-th on all let the request go on. */
  predicate AllGoOn(o: Oracle, k: nat, n: nat)
    decreases n
  {
    n == 0 || (GoesOn(o.respond(k)) && AllGoOn(o, k + 1, n - 1))
  }

  lemma {:induction false} LoopResult(s: Settings, o: Oracle, attempt: nat, reauthed: bool, token: string, k: nat)
    ensures var out := Loop(s, o, attempt, reauthed, token, k);
            |out.tokens| >= 1 && AllGoOn(o, k, |out.tokens| - 1) &&
            var last := o.respond(k + |out.tokens| - 1);
            (out.result.Ok? ==> last.Http? && Success(last.status) && last.body == Some(out.result.value)) &&
            (last.Http? && Success(last.status) ==>
               out.result == if last.body.Some? then Ok(last.body.value) else Err("HY000"))
    decreases Left(s, attempt) + (if reauthed then 0 else 1)
  {
    hide WaitFor;
    match Judge(s, attempt, reauthed, o.respond(k))
    case Finish(_) =>
    case Retry(_) => LoopResult(s, o, attempt + 1, reauthed, token, k + 1);
    case Login =>
      if o.login(k).Ok? { LoopResult(s, o, attempt, true, o.login(k).value, k + 1); }
  }

  /** Whatever the server answers, a request ends after at most one login, at most maxRetries waits
      and at most maxRetries + 2 sends; a wait nobody asked for lasts at most 30250 ms; and the
      result is the body of the last answer when that is a success. */
  lemma RequestEnds(s: Settings, o: Oracle, urlLength: nat, token: string)
    ensures var out := Request(s, o, urlLength, token);
            var retries := if s.maxRetries > 0 then s.maxRetries else 0;
            out.logins <= 1 && |out.waits| <= retries && |out.tokens| <= retries + 2 &&
            (forall i :: 0 <= i < |out.waits| ==> BoundedWait(out.waits[i])) &&
            (out.result.Ok? ==>
               out.tokens != [] && o.respond(|out.tokens| - 1).Http? &&
               o.respond(|out.tokens| - 1).body == Some(out.result.value) &&
               Success(o.respond(|out.tokens| - 1).status))
  {
    hide Loop, BoundedWait;
    LoopBounds(s, o, 0, false, token, 0);
    LoopResult(s, o, 0, false, token, 0);
  }

  /** Every send after the login carries the new token, every one before it the old. */
  lemma NewTokenAfterLogin(s: Settings, o: Oracle, urlLength: nat, token: string) returns (j: nat, after: string)
    ensures var out := Request(s, o, urlLength, token);
            Switches(out.tokens, j, token, after) && (out.logins == 0 ==> j == |out.tokens|) &&
            (j < |out.tokens| ==>
               j >= 1 && o.login(j - 1) == Ok(after) && o.respond(j - 1).Http? &&
               o.respond(j - 1).status == 401)
  {
    hide Loop;
    j, after := LoopTokens(s, o, 0, false, token, 0);
    if urlLength > 16000 { j := 0; }
  }

  // ---------------------------------------------------------------- what happens after each send

  /** The retries counted and whether a login has been made when send `i`, counted from the `k`-th,
      is answered: a first 401 is a login, every other response gone on after a retry. */
  function StateAt(o: Oracle, attempt: nat, reauthed: bool, k: nat, i: nat): (nat, bool)
    decreases i
  {
    if i == 0 then (attempt, reauthed)
    else if o.respond(k).Http? && o.respond(k).status == 401 && !reauthed then StateAt(o, attempt, true, k + 1, i - 1)
    else StateAt(o, attempt + 1, reauthed, k + 1, i - 1)
  }

  /** A transport failure that may pass, or one of the four statuses that ask for patience, while
      retries are left. */
  predicate Retries(s: Settings, r: Response, attempt: nat) {
    attempt < s.maxRetries &&
    ((r.Transport? && r.retryable) ||
     (r.Http? && (r.status == 429 || r.status == 502 || r.status == 503 || r.status == 504)))
  }

  /** The first 401, unless the token was given by the user. */
  predicate LogsIn(s: Settings, r: Response, reauthed: bool) {
    r.Http? && r.status == 401 && !reauthed && !s.fixedToken
  }

  /** Without Retry-After the wait before retry number `attempt` doubles from half a second to half
      a minute; a quarter of a second at most is added. */
  predicate WaitsRight(w: Wait, attempt: nat, r: Response) {
    var base := if r.Http? && r.retryAfter > 0 then r.retryAfter * 1000
                else if attempt == 0 then 500 else if attempt == 1 then 1000 else if attempt == 2 then 2000
                else if attempt == 3 then 4000 else if attempt == 4 then 8000 else if attempt == 5 then 16000
                else 30000;
    base <= w.ms <= base + 250
  }

  /** What follows send `i` of a run. */
  predicate SendIs(s: Settings, o: Oracle, out: Outcome, first: nat, k: nat, i: nat, state: (nat, bool))
    requires i < |out.tokens|
  {
    var r := o.respond(k + i);
    (i + 1 < |out.tokens| <==> Retries(s, r, state.0) || (LogsIn(s, r, state.1) && o.login(k + i).Ok?)) &&
    (Retries(s, r, state.0) ==>
       first <= state.0 < first + |out.waits| && WaitsRight(out.waits[state.0 - first], state.0, r)) &&
    (i + 1 == |out.tokens| ==>
       out.result == (if LogsIn(s, r, state.1) then Err(o.login(k + i).state)
                      else if r.Transport? then Err(r.state)
                      else if 200 <= r.status < 300 then (if r.body.Some? then Ok(r.body.value) else Err("HY000"))
                      else Err(r.errorState)))
  }

  lemma WaitIsRight(attempt: nat, r: Response, random: nat)
    ensures WaitsRight(WaitFor(attempt, if r.Http? then r.retryAfter else 0, random), attempt, r)
  {
    assert Doubling(0) == 500 && Doubling(1) == 1000 && Doubling(2) == 2000 && Doubling(3) == 4000;
    assert Doubling(4) == 8000 && Doubling(5) == 16000 && Doubling(6) == 32000;
  }

  /** A run after one more send that is retried. */
  lemma SendLater(s: Settings, o: Oracle, rest: Outcome, out: Outcome, first: nat, waited: nat, k: nat, i: nat,
                  state: (nat, bool))
    requires i < |rest.tokens| && |out.tokens| == |rest.tokens| + 1 && out.result == rest.result
    requires waited <= 1 && |out.waits| == |rest.waits| + waited && out.waits[waited..] == rest.waits
    requires SendIs(s, o, rest, first + waited, k + 1, i, state)
    ensures SendIs(s, o, out, first, k, i + 1, state)
  {
    hide WaitsRight;
    var r := o.respond(k + (i + 1));
    if Retries(s, r, state.0) {
      assert out.waits[state.0 - first] == out.waits[waited..][state.0 - first - waited];
    }
  }

  lemma FirstSend(s: Settings, o: Oracle, attempt: nat, reauthed: bool, token: string, k: nat)
    ensures var out := Loop(s, o, attempt, reauthed, token, k);
            |out.tokens| >= 1 && SendIs(s, o, out, attempt, k, 0, (attempt, reauthed))
  {
    hide WaitFor, WaitsRight;
    var r, verdict := o.respond(k), Judge(s, attempt, reauthed, o.respond(k));
    if verdict.Retry? {
      LoopBounds(s, o, attempt + 1, reauthed, token, k + 1);
      WaitIsRight(attempt, r, o.random(k));
    } else if verdict.Login? && o.login(k).Ok? {
      LoopBounds(s, o, attempt, true, o.login(k).value, k + 1);
    }
  }

  lemma StateLater(o: Oracle, attempt: nat, reauthed: bool, k: nat, i: nat)
    requires i > 0
    ensures StateAt(o, attempt, reauthed, k, i) ==
            if o.respond(k).Http? && o.respond(k).status == 401 && !reauthed
            then StateAt(o, attempt, true, k + 1, i - 1) else StateAt(o, attempt + 1, reauthed, k + 1, i - 1)
  {
  }

  /** After each send the request goes on exactly when the response allows it: the four statuses and
      passing transport failures while retries are left, after the wait due, and the first 401 after
      a login that works; and where it ends, its result is due to the last response. */
  lemma {:induction false} SendsAre(s: Settings, o: Oracle, attempt: nat, reauthed: bool, token: string, k: nat, i: nat)
    requires i < |Loop(s, o, attempt, reauthed, token, k).tokens|
    ensures SendIs(s, o, Loop(s, o, attempt, reauthed, token, k), attempt, k, i, StateAt(o, attempt, reauthed, k, i))
    decreases Left(s, attempt) + (if reauthed then 0 else 1)
  {
    hide WaitFor, SendIs, StateAt;
    if i == 0 {
      FirstSend(s, o, attempt, reauthed, token, k);
      StateNow(o, attempt, reauthed, k);
    } else {
      StateLater(o, attempt, reauthed, k, i);
      var out, verdict := Loop(s, o, attempt, reauthed, token, k), Judge(s, attempt, reauthed, o.respond(k));
      if verdict.Retry? {
        var rest := Loop(s, o, attempt + 1, reauthed, token, k + 1);
        assert out.waits[1..] == rest.waits;
        SendsAre(s, o, attempt + 1, reauthed, token, k + 1, i - 1);
        SendLater(s, o, rest, out, attempt, 1, k, i - 1, StateAt(o, attempt + 1, reauthed, k + 1, i - 1));
      } else if verdict.Login? && o.login(k).Ok? {
        var rest := Loop(s, o, attempt, true, o.login(k).value, k + 1);
        assert [] + rest.waits == rest.waits && out.waits[0..] == out.waits;
        SendsAre(s, o, attempt, true, o.login(k).value, k + 1, i - 1);
        SendLater(s, o, rest, out, attempt, 0, k, i - 1, StateAt(o, attempt, true, k + 1, i - 1));
      }
    }
  }

  lemma StateNow(o: Oracle, attempt: nat, reauthed: bool, k: nat)
    ensures StateAt(o, attempt, reauthed, k, 0) == (attempt, reauthed)
  {
  }

  /** The same for a whole request, and its refusal when the URL is too long. */
  lemma RequestSends(s: Settings, o: Oracle, urlLength: nat, token: string, i: nat)
    ensures var out := Request(s, o, urlLength, token);
            (urlLength > 16000 <==> out.tokens == []) && (urlLength > 16000 ==> out.result == Err("42000")) &&
            (i < |out.tokens| ==> SendIs(s, o, out, 0, 0, i, StateAt(o, 0, false, 0, i)))
  {
    hide Loop, SendIs;
    if urlLength <= 16000 {
      LoopBounds(s, o, 0, false, token, 0);
      if i < |Request(s, o, urlLength, token).tokens| { SendsAre(s, o, 0, false, token, 0, i); }
    }
  }

  // ---------------------------------------------------------------- the loop itself

  class Client {
    const settings: Settings
    var accessToken: string
    var tokens: seq<string>
    var waits: seq<Wait>
    var logins: nat

    constructor (settings: Settings, token: string)
      ensures this.settings == settings && accessToken == token
    {
      this.settings, accessToken, tokens, waits, logins := settings, token, [], [], 0;
    }

    /** `request`, with a log of its sends, waits and logins. */
    method Send(o: Oracle, urlLength: nat) returns (r: Result<string>)
      modifies this
      ensures Outcome(r, tokens, waits, logins) == Request(settings, o, urlLength, old(accessToken))
      ensures tokens != [] && (logins == 0 || r.Ok?) ==> accessToken == tokens[|tokens| - 1]
    {
      hide WaitFor, Loop;
      tokens, waits, logins := [], [], 0;
      if urlLength > 16000 { return Err("42000"); }
      var reauthed := false;
      var attempt, k: nat := 0, 0;
      ghost var start := accessToken;
      LoggedNothing(Loop(settings, o, 0, false, start, 0));
      while true
        invariant Loop(settings, o, 0, false, start, 0) ==
                  Logged(tokens, waits, logins, Loop(settings, o, attempt, reauthed, accessToken, k))
        decreases Left(settings, attempt) + (if reauthed then 0 else 1)
      {
        LoopStep(tokens, waits, logins, settings, o, attempt, reauthed, accessToken, k);
        var response := o.respond(k);
        tokens := tokens + [accessToken];
        var verdict := Judge(settings, attempt, reauthed, response);
        match verdict {
          case Finish(result) =>
            return result;
          case Retry(retryAfter) =>
            waits := waits + [WaitFor(attempt, retryAfter, o.random(k))];
            attempt := attempt + 1;
          case Login =>
            logins := logins + 1;
            var token := o.login(k);
            if token.Err? { return Err(token.state); }
            accessToken := token.value;
            reauthed := true;
        }
        k := k + 1;
      }
    }
  }

  /** An outcome that a log comes before. */
  function Logged(tokens: seq<string>, waits: seq<Wait>, logins: nat, rest: Outcome): Outcome {
    Outcome(rest.result, tokens + rest.tokens, waits + rest.waits, logins + rest.logins)
  }

  lemma LoggedNothing(out: Outcome)
    ensures Logged([], [], 0, out) == out
  {
    assert [] + out.tokens == out.tokens && [] + out.waits == out.waits;
  }

  lemma LoopStep(tokens: seq<string>, waits: seq<Wait>, logins: nat, s: Settings, o: Oracle, attempt: nat,
                 reauthed: bool, token: string, k: nat)
    ensures var whole := Logged(tokens, waits, logins, Loop(s, o, attempt, reauthed, token, k));
            var verdict := Judge(s, attempt, reauthed, o.respond(k));
            (verdict.Finish? ==> whole == Outcome(verdict.result, tokens + [token], waits, logins)) &&
            (verdict.Retry? ==>
               whole == Logged(tokens + [token], waits + [WaitFor(attempt, verdict.retryAfter, o.random(k))], logins,
                               Loop(s, o, attempt + 1, reauthed, token, k + 1))) &&
            (verdict.Login? ==>
               if o.login(k).Err? then whole == Outcome(Err(o.login(k).state), tokens + [token], waits, logins + 1)
               else whole == Logged(tokens + [token], waits, logins + 1,
                                    Loop(s, o, attempt, true, o.login(k).value, k + 1)))
  {
    hide WaitFor;
    var verdict := Judge(s, attempt, reauthed, o.respond(k));
    assert waits + [] == waits;
    if verdict.Retry? {
      var rest, w := Loop(s, o, attempt + 1, reauthed, token, k + 1), WaitFor(attempt, verdict.retryAfter, o.random(k));
      assert tokens + ([token] + rest.tokens) == (tokens + [token]) + rest.tokens;
      assert waits + ([w] + rest.waits) == (waits + [w]) + rest.waits;
    } else if verdict.Login? && o.login(k).Ok? {
      var rest := Loop(s, o, attempt, true, o.login(k).value, k + 1);
      assert tokens + ([token] + rest.tokens) == (tokens + [token]) + rest.tokens;
      assert waits + ([] + rest.waits) == waits + rest.waits;
    }
  }
}
