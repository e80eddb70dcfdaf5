/** `TokenService` (src/services/TokenService.js): the partner's token kept
    in memory with its expiry instant, fetched again when missing or past
    due. The clock and the login answer are inputs. */
module TokenService {
  import opened Wrappers
  import opened JsValues
  import opened Http
  import opened Text

  /** `this.token` and `this.expiration` (milliseconds, or `null`). */
  datatype State = State(token: JsVal, expiration: JsVal)

  /** The service as constructed. */
  const Initial := State(Null, Null)

  /** What `fetchToken` throws, whatever went wrong. */
  const FetchError := "Erro ao obter token do cliente."

  /** What `getToken` rethrows in place of any error of `fetchToken`. */
  const FetchFailed := "Erro ao acessar token."

  /** `now > this.expiration`: `null` compares as 0, and `NaN` (from a
      missing `expires_in`) makes every comparison false. */
  predicate After(now: int, expiration: JsVal) {
    match expiration
    case Null => now > 0
    case Num(ms) => now > ms
    case _ => false
  }

  /** `!this.token || Date.now() > this.expiration`. */
  predicate MustFetch(st: State, now: int) {
    !Truthy(st.token) || After(now, st.expiration)
  }

  /** `Date.now() + expires_in * 1000`: the multiplication coerces
      `expires_in` with `Number`, so a numeric string counts as its number,
      `null` as 0, and anything that does not read as a number gives `NaN`. */
  function ExpiryAt(now: int, expiresIn: JsVal): (e: JsVal)
    ensures e.Num? || e.NaN?
    ensures e.Num? <==> ToNumber(expiresIn).Num?
    ensures e.Num? ==> e.n - now == ToNumber(expiresIn).n * 1000
  {
    match ToNumber(expiresIn)
    case Num(n) => Num(now + n * 1000)
    case _ => NaN
  }

  /** An `expires_in` written as a decimal string expires as its number
      does; a `null` one expires at once; a missing one never does. */
  lemma ExpiryCoerces(now: int, secs: int)
    ensures ExpiryAt(now, Str(IntToDecimal(secs))) == ExpiryAt(now, Num(secs)) == Num(now + secs * 1000)
    ensures ExpiryAt(now, Null) == Num(now)
    ensures ExpiryAt(now, Undef) == NaN
  {
    NumberOfDecimal(secs);
  }

  /** `fetchToken`: a rejected request, or an answer without a body (whose
      `.token` throws), fails; otherwise the body's token and expiry are
      stored. */
  function Fetch(st: State, now: int, answer: Outcome): (r: (State, Result<JsVal>))
    ensures r.1.Err? <==> answer.Rejected? || Nullish(answer.reply.data)
    ensures r.1.Err? ==> r.0 == st && r.1.msg == FetchError
    ensures r.1.Ok? ==> r.0.token == r.1.value == Prop(answer.reply.data, "token")
    ensures r.1.Ok? ==> r.0.expiration == ExpiryAt(now, Prop(answer.reply.data, "expires_in"))
  {
    match answer
    case Rejected(_, _) => (st, Err(FetchError))
    case Resolved(reply) =>
      if Nullish(reply.data) then (st, Err(FetchError))
      else
        var token := Prop(reply.data, "token");
        (State(token, ExpiryAt(now, Prop(reply.data, "expires_in"))), Ok(token))
  }

  /** `getToken` at instant `now`; `answer` is what a login request would
      get, used only when the cached token is missing or expired. */
  function GetToken(st: State, now: int, answer: Outcome): (r: (State, Result<JsVal>))
    ensures !MustFetch(st, now) ==> r.0 == st && r.1 == Ok(st.token)
    ensures r.1.Err? ==> MustFetch(st, now) && r.0 == st && r.1 == Err(FetchFailed)
    ensures MustFetch(st, now) ==> (r.1.Err? <==> answer.Rejected? || Nullish(answer.reply.data))
    ensures MustFetch(st, now) && r.1.Ok? ==>
      && answer.Resolved? && r.0.token == r.1.value == Prop(answer.reply.data, "token")
      && r.0.expiration == ExpiryAt(now, Prop(answer.reply.data, "expires_in"))
  {
    if !MustFetch(st, now) then (st, Ok(st.token))
    else
      var (st', r) := Fetch(st, now, answer);
      if r.Err? then (st', Err(FetchFailed)) else (st', r)
  }

  /** A new service has no token, so the first call always fetches. */
  lemma FirstCallFetches(now: int, answer: Outcome)
    ensures GetToken(Initial, now, answer).0 == Fetch(Initial, now, answer).0
    ensures GetToken(Initial, now, answer).1.Ok? <==> Fetch(Initial, now, answer).1.Ok?
  {
  }

  /** After a successful fetch at `t0` of a truthy token valid for `secs`
      seconds, every call up to and including `t0 + secs * 1000` returns the
      cached token without a request, whatever the partner would answer;
      the first call after it fetches again. */
  lemma CachedUntilExpiry(t0: int, answer: Outcome, now: int, later: Outcome, secs: int)
    requires answer.Resolved? && !Nullish(answer.reply.data)
    requires Truthy(Prop(answer.reply.data, "token")) && ToNumber(Prop(answer.reply.data, "expires_in")) == Num(secs)
    ensures var st := Fetch(Initial, t0, answer).0;
      && (now <= t0 + secs * 1000 ==> GetToken(st, now, later) == (st, Ok(Prop(answer.reply.data, "token"))))
      && (now > t0 + secs * 1000 ==> GetToken(st, now, later).0 == Fetch(st, now, later).0)
  {
  }

  /** A failed refresh keeps the old token and expiry, and the caller sees
      `getToken`'s message, not `fetchToken`'s. */
  lemma FailedRefreshKeepsState(st: State, now: int, answer: Outcome)
    requires MustFetch(st, now) && answer.Rejected?
    ensures GetToken(st, now, answer) == (st, Err(FetchFailed))
  {
  }
}
