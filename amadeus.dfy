/**
 * The Amadeus API client of the alert script: which host it talks to, how it keeps its
 * OAuth token, how it retries a request, and how it remembers airline names.
 *
 * The network is not modelled. What the token endpoint and the API answer on each attempt
 * is given by the caller as an `AttemptEnv`, together with the clock reading of that attempt.
 */
module AmadeusClient {
  import opened Wrappers
  import opened Text

  const ProdBase: string := "https://api.amadeus.com"
  const TestBase: string := "https://test.api.amadeus.com"

  /** `base_url`: the production host for the environment name "prod" in any letter case, the test host otherwise. */
  function BaseUrl(envName: string): string
  {
    if Lower(envName) == "prod" then ProdBase else TestBase
  }

  /** Upper-casing the environment name never changes the host chosen. */
  lemma BaseUrlIgnoresCase(envName: string)
    ensures BaseUrl(Upper(envName)) == BaseUrl(envName)
    ensures BaseUrl(envName) == ProdBase || BaseUrl(envName) == TestBase
  {
    assert Lower(Upper(envName)) == Lower(envName);
  }

  // ---------------------------------------------------------------------------------------
  // What one attempt meets
  // ---------------------------------------------------------------------------------------

  /** The answer of the token endpoint: a token with its optional lifetime in seconds, or an error raised. */
  datatype Exchange = Granted(accessToken: string, expiresIn: Option<int>) | ExchangeFailed

  /** What `requests.request` gives: a response with its status code, or a raised `RequestException`. */
  datatype Reply = Status(code: int) | Raised

  /** The clock, the token endpoint and the API during one attempt. */
  datatype AttemptEnv = AttemptEnv(now: int, exchange: Exchange, reply: Reply)

  /** One attempt as it happened: whether a token was fetched first, and what the attempt ended with. */
  datatype AttemptLog = AttemptLog(refreshed: bool, reply: Reply)

  /** Lifetime assumed when the token endpoint gives none. */
  const DefaultExpiresIn: int := 900

  /** A token is no longer used once fewer than this many seconds of it remain. */
  const TokenMargin: int := 30

  /** Statuses that are retried with a back-off, besides 401. */
  const BackoffStatuses: set<int> := {429, 500, 502, 503, 504}

  /** Retries used by the airline-name lookup. */
  const LookupRetries: int := 3

  /** An attempt ending in `reply` is followed by another one. */
  predicate Retried(attempt: int, retries: int, reply: Reply)
  {
    attempt < retries && (reply.Raised? || reply.code == 401 || reply.code in BackoffStatuses)
  }

  /**
   * The attempts of one `request` call with `retries` > 0: every attempt but the last was
   * retried, the last one was not, and there are at most `retries` of them.
   */
  predicate ValidTrace(trace: seq<AttemptLog>, retries: int)
  {
    && 1 <= |trace| <= retries
    && (forall i :: 0 <= i < |trace| - 1 ==> Retried(i + 1, retries, trace[i].reply))
    && !Retried(|trace|, retries, trace[|trace| - 1].reply)
  }

  /** What `request` returns after these attempts: the status of the last response, or None. */
  function Verdict(trace: seq<AttemptLog>): Option<int>
  {
    if trace == [] then None
    else match trace[|trace| - 1].reply
      case Status(code) => Some(code)
      case Raised => None
  }

  /** The attempt ended as the environment says: a failed token fetch raises before the API is called. */
  predicate Faithful(log: AttemptLog, e: AttemptEnv)
  {
    log.reply == if log.refreshed && e.exchange.ExchangeFailed? then Raised else e.reply
  }

  /**
   * What `request` returns: None exactly when the last allowed attempt raised; a status
   * otherwise, which is a status that is not retried or the status of the last allowed attempt.
   */
  lemma RequestOutcome(trace: seq<AttemptLog>, retries: int)
    requires ValidTrace(trace, retries)
    ensures Verdict(trace).None? <==> |trace| == retries && trace[|trace| - 1].reply.Raised?
    ensures Verdict(trace).Some? ==>
      && trace[|trace| - 1].reply == Status(Verdict(trace).value)
      && (|trace| == retries || (Verdict(trace).value != 401 && Verdict(trace).value !in BackoffStatuses))
  {
  }

  /**
   * When every attempt raises, `request` makes exactly `retries` attempts and returns None.
   */
  lemma PersistentFailure(trace: seq<AttemptLog>, retries: int)
    requires ValidTrace(trace, retries)
    requires forall i :: 0 <= i < |trace| ==> trace[i].reply.Raised?
    ensures |trace| == retries && Verdict(trace).None?
  {
  }

  /**
   * The number of attempts is decided by the replies alone: the call stops at the first
   * attempt whose reply is not retried.
   */
  lemma StopsAtFirstNotRetried(t: seq<AttemptLog>, retries: int, replies: nat -> Reply, k: nat)
    requires ValidTrace(t, retries)
    requires forall i :: 0 <= i < |t| ==> t[i].reply == replies(i + 1)
    requires 1 <= k && !Retried(k, retries, replies(k))
    requires forall j :: 1 <= j < k ==> Retried(j, retries, replies(j))
    ensures |t| == k
  {
    forall j | 1 <= j < |t|
      ensures Retried(j, retries, replies(j))
    {
      assert t[j - 1].reply == replies(j);
    }
    assert t[|t| - 1].reply == replies(|t|);
  }

  /**
   * The policy is deterministic: two attempt sequences that meet the same replies stop at the
   * same attempt and return the same result.
   */
  lemma PolicyDeterministic(t1: seq<AttemptLog>, t2: seq<AttemptLog>, retries: int, replies: nat -> Reply)
    requires ValidTrace(t1, retries) && ValidTrace(t2, retries)
    requires forall i :: 0 <= i < |t1| ==> t1[i].reply == replies(i + 1)
    requires forall i :: 0 <= i < |t2| ==> t2[i].reply == replies(i + 1)
    ensures |t1| == |t2| && Verdict(t1) == Verdict(t2)
  {
    var k := |t1|;
    assert t1[k - 1].reply == replies(k);
    assert forall j :: 1 <= j < k ==> t1[j - 1].reply == replies(j);
    StopsAtFirstNotRetried(t2, retries, replies, k);
  }

  // ---------------------------------------------------------------------------------------
  // The token and the attempts, as values
  // ---------------------------------------------------------------------------------------

  /** The token a client holds and the time it expires. */
  datatype TokenState = TokenState(token: Option<string>, exp: int)

  /** `_token_valid` on a token state: a non-empty token with more than `TokenMargin` seconds left. */
  predicate Usable(ts: TokenState, now: int)
  {
    ts.token.Some? && ts.token.value != "" && now < ts.exp - TokenMargin
  }

  /**
   * `get_token` on a token state: the token returned (None for the error the exchange raises)
   * and the state left behind.
   */
  function Fetch(ts: TokenState, now: int, exchange: Exchange): (Option<string>, TokenState)
  {
    if Usable(ts, now) then (ts.token, ts)
    else match exchange
      case ExchangeFailed => (None, ts)
      case Granted(accessToken, expiresIn) =>
        (Some(accessToken), TokenState(Some(accessToken), now + expiresIn.GetOr(DefaultExpiresIn)))
  }

  /** One attempt as it happened, and the token state it leaves. */
  datatype AttemptOutcome = AttemptOutcome(log: AttemptLog, after: TokenState)

  /** One attempt from token state `ts`: get a token, then call the API unless that raised. */
  function AttemptStep(ts: TokenState, e: AttemptEnv): AttemptOutcome
  {
    var f := Fetch(ts, e.now, e.exchange);
    AttemptOutcome(AttemptLog(!Usable(ts, e.now), if f.0.None? then Raised else e.reply), f.1)
  }

  /** The token state a retried attempt hands to the next one: a 401 clears the token. */
  function Handover(o: AttemptOutcome): TokenState
  {
    if o.log.reply == Status(401) then TokenState(None, o.after.exp) else o.after
  }

  /** What a `request` call ends with: its result, the token state and the attempts made. */
  datatype RunResult = RunResult(status: Option<int>, after: TokenState, trace: seq<AttemptLog>)

  /**
   * The attempts of `request` from attempt number `attempt` on: a 401 that is retried clears
   * the token, a retried back-off status or raised error keeps it; an attempt that is not
   * retried gives the result, None when it raised.
   */
  function Run(ts: TokenState, attempt: int, retries: int, env: nat -> AttemptEnv): RunResult
    decreases retries - attempt
  {
    if attempt > retries || attempt < 0 then RunResult(None, ts, [])
    else
      var o := AttemptStep(ts, env(attempt));
      if Retried(attempt, retries, o.log.reply) then
        var next := Handover(o);
        var rest := Run(next, attempt + 1, retries, env);
        RunResult(rest.status, rest.after, [o.log] + rest.trace)
      else
        RunResult(if o.log.reply.Raised? then None else Some(o.log.reply.code), o.after, [o.log])
  }

  /** `r` preceded by the attempts `done`. */
  function Glue(done: seq<AttemptLog>, r: RunResult): RunResult
  {
    RunResult(r.status, r.after, done + r.trace)
  }

  /** After the attempts `done`, a retried attempt `a` is followed by the run from `a + 1`. */
  lemma RunRetried(done: seq<AttemptLog>, ts: TokenState, a: int, retries: int, env: nat -> AttemptEnv)
    requires 1 <= a && Retried(a, retries, AttemptStep(ts, env(a)).log.reply)
    ensures var o := AttemptStep(ts, env(a));
      Glue(done, Run(ts, a, retries, env)) == Glue(done + [o.log], Run(Handover(o), a + 1, retries, env))
  {
    var o := AttemptStep(ts, env(a));
    var rest := Run(Handover(o), a + 1, retries, env);
    assert done + ([o.log] + rest.trace) == done + [o.log] + rest.trace;
  }

  /** After the attempts `done`, an attempt `a` that is not retried ends the run with its verdict. */
  lemma RunEnds(done: seq<AttemptLog>, ts: TokenState, a: int, retries: int, env: nat -> AttemptEnv)
    requires 1 <= a <= retries && !Retried(a, retries, AttemptStep(ts, env(a)).log.reply)
    ensures var o := AttemptStep(ts, env(a));
      && Glue(done, Run(ts, a, retries, env)).trace == done + [o.log]
      && Glue(done, Run(ts, a, retries, env)).after == o.after
      && Glue(done, Run(ts, a, retries, env)).status == Verdict(done + [o.log])
  {
  }

  /**
   * The attempts from number `a` on: each but the last was retried, the last was not, they
   * are at most the attempts left, and the result is the verdict of the last one.
   */
  lemma {:induction false} RunStops(ts: TokenState, a: nat, retries: int, env: nat -> AttemptEnv)
    requires 1 <= a <= retries
    ensures var r := Run(ts, a, retries, env);
      && 1 <= |r.trace| <= retries - a + 1
      && (forall i :: 0 <= i < |r.trace| - 1 ==> Retried(a + i, retries, r.trace[i].reply))
      && !Retried(a + |r.trace| - 1, retries, r.trace[|r.trace| - 1].reply)
      && r.status == Verdict(r.trace)
    decreases retries - a
  {
    var o := AttemptStep(ts, env(a));
    if Retried(a, retries, o.log.reply) {
      var next := Handover(o);
      var rest := Run(next, a + 1, retries, env);
      RunStops(next, a + 1, retries, env);
      var r := Run(ts, a, retries, env);
      assert r.trace == [o.log] + rest.trace;
      assert r.trace[|r.trace| - 1] == rest.trace[|rest.trace| - 1];
      forall i | 0 < i < |r.trace| - 1
        ensures Retried(a + i, retries, r.trace[i].reply)
      {
        assert r.trace[i] == rest.trace[i - 1];
      }
    }
  }

  /**
   * Each attempt from number `a` on ended as its environment says; the first fetched a token
   * exactly when the one held was not valid, and a retried 401 makes the next one fetch a token.
   */
  lemma {:induction false} RunFaithful(ts: TokenState, a: nat, retries: int, env: nat -> AttemptEnv)
    ensures var r := Run(ts, a, retries, env);
      && (forall i :: 0 <= i < |r.trace| ==> Faithful(r.trace[i], env(a + i)))
      && (|r.trace| > 0 ==> r.trace[0].refreshed == !Usable(ts, env(a).now))
      && (forall i :: 0 < i < |r.trace| && r.trace[i - 1].reply == Status(401) ==> r.trace[i].refreshed)
    decreases retries - a
  {
    if a <= retries {
      var o := AttemptStep(ts, env(a));
      assert Faithful(o.log, env(a));
      if Retried(a, retries, o.log.reply) {
        var next := Handover(o);
        var rest := Run(next, a + 1, retries, env);
        RunFaithful(next, a + 1, retries, env);
        var r := Run(ts, a, retries, env);
        assert r.trace == [o.log] + rest.trace;
        forall i | 0 < i < |r.trace|
          ensures r.trace[i] == rest.trace[i - 1]
        {
        }
        if o.log.reply == Status(401) && |rest.trace| > 0 {
          assert !Usable(next, env(a + 1).now);
        }
      }
    }
  }

  /**
   * A `request` call with `retries` > 0 makes a valid run of attempts, each as its environment
   * says, and returns their verdict; with `retries` <= 0 it makes none, returns None and leaves
   * the token as it was.
   */
  lemma RunTrace(ts: TokenState, retries: int, env: nat -> AttemptEnv)
    ensures retries <= 0 ==> Run(ts, 1, retries, env) == RunResult(None, ts, [])
    ensures var r := Run(ts, 1, retries, env);
      && (retries > 0 ==> ValidTrace(r.trace, retries))
      && r.status == Verdict(r.trace)
      && (forall i :: 0 <= i < |r.trace| ==> Faithful(r.trace[i], env(i + 1)))
      && (|r.trace| > 0 ==> r.trace[0].refreshed == !Usable(ts, env(1).now))
      && (forall i :: 0 < i < |r.trace| && r.trace[i - 1].reply == Status(401) ==> r.trace[i].refreshed)
  {
    RunFaithful(ts, 1, retries, env);
    if retries > 0 {
      RunStops(ts, 1, retries, env);
    }
  }

  /**
   * While the token held stays valid and no 401 comes back, it is used for every attempt:
   * no attempt fetches a token, each ends with its API reply, and the token state is kept.
   */
  lemma {:induction false} ValidTokenIsReused(ts: TokenState, a: nat, retries: int, env: nat -> AttemptEnv)
    requires forall n :: a <= n <= retries ==> Usable(ts, env(n).now) && env(n).reply != Status(401)
    ensures var r := Run(ts, a, retries, env);
      && r.after == ts
      && (forall i :: 0 <= i < |r.trace| ==> !r.trace[i].refreshed && r.trace[i].reply == env(a + i).reply)
    decreases retries - a
  {
    if a <= retries {
      var o := AttemptStep(ts, env(a));
      assert o == AttemptOutcome(AttemptLog(false, env(a).reply), ts);
      if Retried(a, retries, o.log.reply) {
        ValidTokenIsReused(ts, a + 1, retries, env);
        var rest := Run(ts, a + 1, retries, env);
        var r := Run(ts, a, retries, env);
        assert r.trace == [o.log] + rest.trace;
        forall i | 0 < i < |r.trace|
          ensures r.trace[i] == rest.trace[i - 1]
        {
        }
      }
    }
  }

  // ---------------------------------------------------------------------------------------
  // Airline reference data
  // ---------------------------------------------------------------------------------------

  /** One entry of the airline reference data; a missing or null name is the empty string. */
  datatype AirlineRecord = AirlineRecord(businessName: string, commonName: string, name: string)

  /** The body of the airline lookup: unreadable, or its `data` list (missing or null is empty). */
  datatype Body = Unreadable | Data(records: seq<AirlineRecord>)

  /** Python's `a or b or c or ""` on strings. */
  function FirstNonEmpty(a: string, b: string, c: string): string
  {
    if a != "" then a else if b != "" then b else c
  }

  /** `requests.Response.ok`: the status is not a client or server error. */
  predicate IsOk(status: int)
  {
    !(400 <= status < 600)
  }

  /** The airline name read from the lookup's response, or None. */
  function NameFromResponse(status: Option<int>, body: Body): Option<string>
  {
    if status.None? || !IsOk(status.value) then None
    else match body
      case Unreadable => None
      case Data(records) =>
        if records == [] then None
        else
          var r := records[0];
          var n := Strip(FirstNonEmpty(r.businessName, r.commonName, r.name));
          if n != "" then Some(n) else None
  }

  /**
   * A name read from the lookup is non-empty and stripped, and there is one only for an ok
   * response whose first record has a name that is not all white space.
   */
  lemma NameFromResponseSpec(status: Option<int>, body: Body)
    ensures var name := NameFromResponse(status, body);
      && (name.Some? ==> name.value != "" && IsStripped(name.value))
      && (name.Some? <==>
            && status.Some? && IsOk(status.value) && body.Data? && body.records != []
            && HasNonSpace(FirstNonEmpty(body.records[0].businessName, body.records[0].commonName, body.records[0].name)))
  {
    if status.Some? && IsOk(status.value) && body.Data? && body.records != [] {
      var r := body.records[0];
      StripSpec(FirstNonEmpty(r.businessName, r.commonName, r.name));
    }
  }

  /**
   * The first of the three names that is non-empty is the one used, even when it is only
   * white space: a blank business name hides the common name.
   */
  lemma BlankBusinessNameHidesCommonName(status: int, records: seq<AirlineRecord>)
    requires IsOk(status) && records != []
    requires records[0].businessName != "" && !HasNonSpace(records[0].businessName)
    ensures NameFromResponse(Some(status), Data(records)) == None
  {
    StripSpec(records[0].businessName);
  }

  /** A cache entry as `airline_name` writes it: a normalised non-empty code, and a stripped non-empty name or None. */
  predicate CacheEntryOk(code: string, name: Option<string>)
  {
    code != "" && IsNormalized(code) && (name.Some? ==> name.value != "" && IsStripped(name.value))
  }

  // ---------------------------------------------------------------------------------------
  // The client
  // ---------------------------------------------------------------------------------------

  class Amadeus {
    const base: string
    const clientId: string
    const clientSecret: string
    var token: Option<string>
    var tokenExp: int
    var airlineNameCache: map<string, Option<string>>

    /** Every cache entry is as `airline_name` writes it. */
    ghost predicate Valid()
      reads this
    {
      forall code :: code in airlineNameCache ==> CacheEntryOk(code, airlineNameCache[code])
    }

    constructor (envName: string, clientId: string, clientSecret: string)
      ensures Valid()
      ensures base == BaseUrl(envName) && this.clientId == clientId && this.clientSecret == clientSecret
      ensures token == None && tokenExp == 0 && airlineNameCache == map[]
    {
      base := BaseUrl(envName);
      this.clientId := clientId;
      this.clientSecret := clientSecret;
      token := None;
      tokenExp := 0;
      airlineNameCache := map[];
    }

    /** `_token_valid`: there is a non-empty token with more than `TokenMargin` seconds left at `now`. */
    predicate TokenValid(now: int)
      reads this
    {
      Usable(State(), now)
    }

    /** The token held and its expiry, as a value. */
    function State(): TokenState
      reads this
    {
      TokenState(token, tokenExp)
    }

    /**
     * `get_token`: the stored token while it is valid, with no exchange; otherwise the token
     * endpoint is asked, and its token and expiry are stored. None stands for the error the
     * exchange raises.
     */
    method GetToken(now: int, exchange: Exchange) returns (t: Option<string>)
      modifies this`token, this`tokenExp
      ensures old(TokenValid(now)) ==> t == old(token) && token == old(token) && tokenExp == old(tokenExp)
      ensures !old(TokenValid(now)) && exchange.ExchangeFailed? ==>
        t.None? && token == old(token) && tokenExp == old(tokenExp)
      ensures !old(TokenValid(now)) && exchange.Granted? ==>
        && t == Some(exchange.accessToken) && token == t
        && tokenExp == now + exchange.expiresIn.GetOr(DefaultExpiresIn)
    {
      if TokenValid(now) {
        return token;
      }
      match exchange
      case ExchangeFailed =>
        t := None;
      case Granted(accessToken, expiresIn) =>
        token := Some(accessToken);
        tokenExp := now + expiresIn.GetOr(DefaultExpiresIn);
        t := token;
    }

    /**
     * One attempt of `request`: get a token, then call the API unless getting it raised.
     */
    method Attempt(e: AttemptEnv) returns (reply: Reply)
      modifies this`token, this`tokenExp
      ensures AttemptStep(old(State()), e) == AttemptOutcome(AttemptLog(!old(TokenValid(e.now)), reply), State())
    {
      var t := GetToken(e.now, e.exchange);
      reply := if t.None? then Raised else e.reply;
    }

    /**
     * `request`: up to `retries` attempts. Attempt `n` meets `env(n)`: it first gets a token
     * (fetching a new one when the stored one is not valid at that attempt's clock), then
     * calls the API. A 401 clears the token and retries, a back-off status or a raised error
     * retries, while attempts remain; anything else, or anything on the last attempt, ends
     * the call. The result, the token left and the ghost `trace` of the attempts made are
     * those of `Run`.
     */
    method Request(retries: int, env: nat -> AttemptEnv) returns (status: Option<int>, ghost trace: seq<AttemptLog>)
      modifies this`token, this`tokenExp
      ensures RunResult(status, State(), trace) == Run(old(State()), 1, retries, env)
      ensures retries <= 0 ==> status.None? && trace == [] && token == old(token) && tokenExp == old(tokenExp)
      ensures retries > 0 ==> ValidTrace(trace, retries)
      ensures status == Verdict(trace)
      ensures forall i :: 0 <= i < |trace| ==> Faithful(trace[i], env(i + 1))
      ensures |trace| > 0 ==> trace[0].refreshed == !old(TokenValid(env(1).now))
      ensures forall i :: 0 < i < |trace| && trace[i - 1].reply == Status(401) ==> trace[i].refreshed
    {
      ghost var start := State();
      status, trace := None, [];
      var attempt := 1;
      while attempt <= retries
        invariant 1 <= attempt && (attempt <= retries || trace == [])
        invariant Run(start, 1, retries, env) == Glue(trace, Run(State(), attempt, retries, env))
        decreases retries - attempt
      {
        ghost var ts := State();
        ghost var o := AttemptStep(ts, env(attempt));
        var reply := Attempt(env(attempt));
        if !Retried(attempt, retries, reply) {
          RunEnds(trace, ts, attempt, retries, env);
        } else {
          RunRetried(trace, ts, attempt, retries, env);
        }
        trace := trace + [o.log];
        if reply.Raised? {
          if attempt == retries {
            status := None;
            break;
          }
        } else if reply.code == 401 && attempt < retries {
          token := None;
        } else if reply.code in BackoffStatuses && attempt < retries {
        } else {
          status := Some(reply.code);
          break;
        }
        attempt := attempt + 1;
      }
      RunTrace(start, retries, env);
    }

    /**
     * `airline_name`: the code is stripped and upper-cased; an empty code gives None and
     * touches nothing; a cached code gives its cached name (None included) with no request;
     * otherwise the reference data is requested with `LookupRetries` attempts and the name
     * read from the answer, or None, is cached under the code and returned.
     */
    method AirlineName(code: string, env: nat -> AttemptEnv, body: Body)
      returns (name: Option<string>, ghost trace: seq<AttemptLog>)
      requires Valid()
      modifies this
      ensures Valid()
      ensures NormalizeCode(code) == "" ==> name.None? && trace == [] && unchanged(this)
      ensures NormalizeCode(code) != "" && NormalizeCode(code) in old(airlineNameCache) ==>
        name == old(airlineNameCache)[NormalizeCode(code)] && trace == [] && unchanged(this)
      ensures NormalizeCode(code) != "" && NormalizeCode(code) !in old(airlineNameCache) ==>
        var r := Run(old(State()), 1, LookupRetries, env);
        && trace == r.trace && State() == r.after
        && name == NameFromResponse(r.status, body)
        && airlineNameCache == old(airlineNameCache)[NormalizeCode(code) := name]
        && ValidTrace(trace, LookupRetries)
        && (forall i :: 0 <= i < |trace| ==> Faithful(trace[i], env(i + 1)))
      ensures name.Some? ==> name.value != "" && IsStripped(name.value)
      ensures NormalizeCode(code) != "" ==>
        NormalizeCode(code) in airlineNameCache && airlineNameCache[NormalizeCode(code)] == name
    {
      var key := NormalizeCode(code);
      trace := [];
      if key == "" {
        return None, trace;
      }
      if key in airlineNameCache {
        assert CacheEntryOk(key, airlineNameCache[key]);
        return airlineNameCache[key], trace;
      }
      var status;
      status, trace := Request(LookupRetries, env);
      name := NameFromResponse(status, body);
      NormalizeSpec(code);
      NameFromResponseSpec(status, body);
      airlineNameCache := airlineNameCache[key := name];
    }
  }
}
